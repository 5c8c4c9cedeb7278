/** What it means for a withdrawal to be marked sent: the wallet history is matched by address, amount and a
time window, so the entry may belong to another withdrawal. */
module SentRows {
  import opened Wrappers
  import opened Payout

  predicate Twins(w: Withdrawal, v: Withdrawal) {
    w.address == v.address && w.amount == v.amount
  }

  ghost predicate WasSent(s: State, id: nat) {
    exists p | p in s.sends :: p.id == id
  }

  /** A send for a withdrawal like `w`, at a time that `w`'s window admits. */
  predicate TwinSend(s: State, w: Withdrawal, p: Send) {
    p in s.sends && p.id in s.rows && Twins(w, s.rows[p.id]) && InWindow(w, p.time)
  }

  ghost predicate SentLike(s: State, w: Withdrawal) {
    exists p :: TwinSend(s, w, p)
  }

  /** Every send that the wallet history lists is one that took effect, with its address, amount and time. */
  ghost predicate Genuine(s: State, ev: Evidence) {
    ev.history.Some? ==> forall t | t in ev.history.value && t.isSend :: Listed(s, t)
  }

  ghost predicate Listed(s: State, t: WalletTx) {
    exists p | p in s.sends ::
      p.time == t.time && p.id in s.rows && s.rows[p.id].address == t.address && s.rows[p.id].amount == t.amount
  }

  ghost predicate AllGenuine(s: State, es: seq<Event>)
    requires IsRun(s, es)
  {
    es == [] ||
    var s0, e := Exec(s, es[..|es| - 1]), es[|es| - 1];
    AllGenuine(s, es[..|es| - 1]) && (e.Resolve? ==> Genuine(s0, e.seen))
  }

  /** A recorded txid or a reply in hand means a send; a row marked sent means its own or one like it. */
  ghost predicate SentInv(s: State, id: nat) {
    && (id in s.rows ==>
          && (s.rows[id].tentative.Some? ==> WasSent(s, id))
          && (s.rows[id].status.Sent? ==> WasSent(s, id) || SentLike(s, s.rows[id])))
    && ((s.pc.Replied? || s.pc.Recorded?) && s.pc.id == id ==> WasSent(s, id))
  }

  lemma {:induction false} FirstMatchMatches(w: Withdrawal, history: seq<WalletTx>)
    requires FirstMatch(w, history) != ""
    ensures exists t | t in history :: Matches(w, t)
  {
    if !Matches(w, history[0]) {
      FirstMatchMatches(w, history[1..]);
      var t :| t in history[1..] && Matches(w, t);
      assert t in history;
    }
  }

  lemma SendsStay(s: State, e: Event, id: nat)
    requires Enabled(s, e) && WasSent(s, id)
    ensures WasSent(Apply(s, e), id)
  {
    var p :| p in s.sends && p.id == id;
    assert p in Apply(s, e).sends;
  }

  lemma SentLikeStays(s: State, e: Event, w: Withdrawal)
    requires Enabled(s, e) && SentLike(s, w)
    ensures SentLike(Apply(s, e), w)
  {
    var p :| TwinSend(s, w, p);
    assert TwinSend(Apply(s, e), w, p);
  }

  /** A resolution that marks the row sent has seen its own send or one like it. */
  lemma ResolvedLike(s: State, id: nat, ev: Evidence)
    requires id in s.rows && SentInv(s, id) && Genuine(s, ev) && Decide(s.rows[id], ev).MarkSent?
    ensures WasSent(s, id) || SentLike(s, s.rows[id])
  {
    var w := s.rows[id];
    if !(w.tentative.Some? && w.tentative.value != "" && ev.txKnown) {
      FirstMatchMatches(w, ev.history.value);
      var t :| t in ev.history.value && Matches(w, t);
      assert Listed(s, t);
      var p :| p in s.sends && p.time == t.time && p.id in s.rows
               && s.rows[p.id].address == t.address && s.rows[p.id].amount == t.amount;
      assert TwinSend(s, w, p);
    }
  }

  lemma StepKeepsSent(s: State, e: Event, id: nat)
    requires PcInv(s) && SentInv(s, id) && Enabled(s, e) && (e.Resolve? ==> Genuine(s, e.seen))
    ensures SentInv(Apply(s, e), id)
  {
    var s' := Apply(s, e);
    if e.Resolve? && s.pc.todo[0] == id && Decide(s.rows[id], e.seen).MarkSent? {
      ResolvedLike(s, id, e.seen);
    }
    if WasSent(s, id) {
      SendsStay(s, e, id);
    }
    if id in s.rows && SentLike(s, s.rows[id]) {
      SentLikeStays(s, e, s.rows[id]);
      if s'.rows[id].intentAt == s.rows[id].intentAt {
        var p :| TwinSend(s', s.rows[id], p);
        assert TwinSend(s', s'.rows[id], p);
      }
    }
    if e.SendReply? && s.pc.id == id {
      assert SendFor(s.rows[id], id, e.at) in s'.sends;
    }
  }

  lemma {:induction false} SentRuns(es: seq<Event>, id: nat)
    requires IsRun(Init, es) && AllGenuine(Init, es)
    ensures SentInv(Exec(Init, es), id)
    decreases |es|
  {
    if es != [] {
      SentRuns(es[..|es| - 1], id);
      PayoutAccounting(es[..|es| - 1]);
      StepKeepsSent(Exec(Init, es[..|es| - 1]), es[|es| - 1], id);
    }
  }

  /** `sends` and `paid` agree on who was paid. */
  ghost predicate SendsPaid(s: State) {
    forall p | p in s.sends :: Count(s.paid, p.id) > 0
  }

  lemma StepKeepsSendsPaid(s: State, e: Event)
    requires Enabled(s, e) && SendsPaid(s)
    ensures SendsPaid(Apply(s, e))
  {
  }

  lemma {:induction false} SendsArePaid(es: seq<Event>)
    requires IsRun(Init, es)
    ensures SendsPaid(Exec(Init, es))
    decreases |es|
  {
    if es != [] {
      SendsArePaid(es[..|es| - 1]);
      StepKeepsSendsPaid(Exec(Init, es[..|es| - 1]), es[|es| - 1]);
    }
  }

  /** With a genuine wallet history, a withdrawal marked sent was itself paid, unless another one to the same
      address in the same amount was sent within the window of its last attempt. */
  lemma SentWasPaid(es: seq<Event>, id: nat)
    requires IsRun(Init, es) && AllGenuine(Init, es)
    requires var s := Exec(Init, es);
             id in s.rows && s.rows[id].status.Sent? && forall p | TwinSend(s, s.rows[id], p) :: p.id == id
    ensures Count(Exec(Init, es).paid, id) > 0
  {
    SentRuns(es, id);
    SendsArePaid(es);
    var s := Exec(Init, es);
    if SentLike(s, s.rows[id]) {
      var p :| TwinSend(s, s.rows[id], p);
      assert p.id == id;
    }
    var p :| p in s.sends && p.id == id;
  }

  lemma Extend(s0: State, es: seq<Event>, s: State, e: Event) returns (es': seq<Event>, s': State)
    requires IsRun(s0, es) && AllGenuine(s0, es) && Exec(s0, es) == s && Enabled(s, e)
    requires e.Resolve? ==> Genuine(s, e.seen)
    ensures es' == es + [e] && s' == Apply(s, e) && IsRun(s0, es') && AllGenuine(s0, es') && Exec(s0, es') == s'
  {
    ExecAppend(s0, es, e);
    es', s' := es + [e], Apply(s, e);
    assert es'[..|es|] == es;
  }

  /** The exception is real: a withdrawal that was never sent is marked sent on the entry of any twin that was
      sent within its window. */
  lemma TwinUnpaid(s0: State, es0: seq<Event>, s: State, p: Send, k: nat, txid: string)
    returns (es: seq<Event>, s': State)
    requires IsRun(s0, es0) && AllGenuine(s0, es0) && Exec(s0, es0) == s
    requires s.pc.Idle? && k in s.rows && s.rows[k].status.Sending? && txid != ""
    requires TwinSend(s, s.rows[k], p) && Count(s.paid, k) == 0
    ensures es0 <= es && IsRun(s0, es) && AllGenuine(s0, es) && Exec(s0, es) == s'
    ensures k in s'.rows && s'.rows[k].status.Sent? && Count(s'.paid, k) == 0
  {
    var w := s.rows[k];
    var entry := WalletTx(w.address, w.amount, true, p.time, txid);
    var ev := Evidence(false, Some([entry]), true);
    assert Matches(w, entry) && FirstMatch(w, [entry]) == txid;
    es, s' := Extend(s0, es0, s, BeginReconcile([k]));
    assert Listed(s', entry) by { assert p in s'.sends; }
    es, s' := Extend(s0, es, s', Resolve(ev));
  }

  // ---- The twin state is reached ----

  lemma TwoConfirmed(burn: BurnId, burn': BurnId, amount: nat, address: string) returns (es: seq<Event>, s: State)
    requires burn != burn'
    ensures IsRun(Init, es) && AllGenuine(Init, es) && Exec(Init, es) == s
    ensures s == Init.(rows := map[][0 := Withdrawal(burn, amount, address, Confirmed, 0, None, None, None)]
                                    [1 := Withdrawal(burn', amount, address, Confirmed, 0, None, None, None)])
  {
    es, s := Extend(Init, [], Init, Insert(0, burn, amount, address));
    es, s := Extend(Init, es, s, Confirm(0));
    es, s := Extend(Init, es, s, Insert(1, burn', amount, address));
    es, s := Extend(Init, es, s, Confirm(1));
  }

  /** The first withdrawal of the queue is claimed, sent, recorded and finished. */
  lemma HeadSent(s0: State, es0: seq<Event>, s: State, now: int) returns (es: seq<Event>, s': State)
    requires IsRun(s0, es0) && AllGenuine(s0, es0) && Exec(s0, es0) == s && s.pc.Queue? && s.pc.todo != []
    requires s.pc.todo[0] in s.rows && s.rows[s.pc.todo[0]].status.Confirmed?
    ensures IsRun(s0, es) && AllGenuine(s0, es) && Exec(s0, es) == s'
    ensures var id := s.pc.todo[0];
            && s'.pc == Queue(s.pc.todo[1..]) && s'.paid == Bump(s.paid, id)
            && s'.sends == s.sends + {SendFor(s.rows[id], id, now)}
            && id in s'.rows && Twins(s'.rows[id], s.rows[id])
            && forall k | k in s.rows && k != id :: k in s'.rows && s'.rows[k] == s.rows[k]
  {
    es, s' := Extend(s0, es0, s, Claim(now));
    es, s' := Extend(s0, es, s', SendReply("tx", now));
    es, s' := Extend(s0, es, s', Record);
    es, s' := Extend(s0, es, s', Finish);
  }

  /** From empty tables: two equal withdrawals in one pass of the loop, the first sent and answered, the second
      never reaching the node, and marked sent all the same. */
  lemma TwinRun(burn: BurnId, burn': BurnId, amount: nat, address: string, now: int)
    returns (es: seq<Event>, s: State)
    requires burn != burn'
    ensures IsRun(Init, es) && AllGenuine(Init, es) && Exec(Init, es) == s
    ensures 1 in s.rows && s.rows[1].status.Sent? && Count(s.paid, 1) == 0
  {
    es, s := TwoConfirmed(burn, burn', amount, address);
    es, s := Extend(Init, es, s, BeginSends([0, 1]));
    es, s := HeadSent(Init, es, s, now);
    assert [0, 1][1..] == [1];
    es, s := Extend(Init, es, s, Claim(now));
    es, s := Extend(Init, es, s, SendLost(false));
    es, s := Extend(Init, es, s, EndLoop);
    var p := Send(0, now, address, amount);
    assert TwinSend(s, s.rows[1], p);
    es, s := TwinUnpaid(Init, es, s, p, 1, "tx");
  }
}
