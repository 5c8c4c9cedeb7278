/** The relayer's two withdrawal loops over the withdrawals table, with node calls that may fail after
having taken effect. Each loop returns the events of module `Payout` it went through. */
module PayoutRelayer {
  import opened Wrappers
  import opened Payout

  /** 0.0001 coins in the smallest unit. */
  const DUST: nat := 10000

  class PayoutLoops {
    var rows: Withdrawals

    constructor (rows: Withdrawals)
      ensures this.rows == rows
    {
      this.rows := rows;
    }

    /** The snapshot a loop works on: each row with the given status once, in any order. */
    method Select(status: WithdrawalStatus) returns (ids: seq<nat>)
      ensures Distinct(ids) && AllHave(rows, ids, status)
      ensures forall id | id in rows && rows[id].status == status :: id in ids
    {
      ids := [];
      var todo := rows.Keys;
      while todo != {}
        invariant todo <= rows.Keys && Distinct(ids) && AllHave(rows, ids, status)
        invariant forall id | id in ids :: id !in todo
        invariant forall id | id in rows && rows[id].status == status :: id in ids || id in todo
        decreases |todo|
      {
        var id :| id in todo;
        todo := todo - {id};
        if rows[id].status == status { ids := ids + [id]; }
      }
    }

    /** Atomic compare-and-set from `confirmed` to `sending`. */
    method MarkSending(id: nat, now: int) returns (claimed: bool)
      requires id in rows
      modifies this
      ensures claimed <==> old(rows[id]).status.Confirmed?
      ensures rows == if claimed then old(rows)[id := ClaimRow(old(rows[id]), id, now)] else old(rows)
    {
      claimed := rows[id].status.Confirmed?;
      if claimed {
        var w := rows[id];
        rows := rows[id := w.(status := Sending, attempt := Some(AttemptId(id, w.retries)), intentAt := Some(now))];
      }
    }

    method Store(id: nat, w: Withdrawal)
      modifies this
      ensures rows == old(rows)[id := w]
    {
      rows := rows[id := w];
    }

    /** The send call: None when it raised, in which case the request may have reached the node. `made` is the send
        as the wallet makes it. */
    method SendToAddress(ghost id: nat, address: string, amount: nat)
      returns (reply: Option<string>, ghost reached: bool, ghost made: Send)
      ensures reply.Some? ==> reached
      ensures made.id == id && made.address == address && made.amount == amount
    {
      var raised: bool, txid: string := *, *;
      reply := if raised then None else Some(txid);
      reached := *;
      if !raised { reached := true; }
      ghost var time: int := *;
      made := Send(id, time, address, amount);
    }

    /** Claims and pays every confirmed withdrawal; a raised exception leaves the row in `sending`. A withdrawal is
        rejected exactly when the node does not vouch for its address, be it that the call failed, or when it is
        below the dust limit; what is rejected is not sent. `vouched` is the node's reply on the address. */
    method ProcessConfirmedWithdrawals(dryRun: bool, vouched: nat -> Option<bool>, clock: nat -> int, ghost s: State)
      returns (ghost es: seq<Event>)
      requires s.rows == rows && s.pc.Idle? && PcInv(s)
      modifies this
      ensures IsRun(s, es) && Exec(s, es).rows == rows && Exec(s, es).pc.Idle?
      ensures forall e | e in es :: !e.Resolve?
      ensures forall id | id in old(rows) && !old(rows)[id].status.Confirmed? :: id in rows && rows[id] == old(rows)[id]
      ensures forall id | id in old(rows) && old(rows)[id].status.Confirmed? ::
                id in rows && PassedOver(old(rows)[id], rows[id], dryRun, vouched(id))
      ensures forall id | id in rows && rows[id].status.Failed? :: Requests(Exec(s, es), id) <= Requests(s, id)
    {
      var ids := Select(Confirmed);
      es := Step(s, [], BeginSends(ids));
      for i := 0 to |ids|
        invariant IsRun(s, es) && Exec(s, es).rows == rows && Exec(s, es).pc == Queue(ids[i..])
        invariant PcInv(Exec(s, es)) && forall e | e in es :: !e.Resolve?
        invariant forall id | id in old(rows) && id !in ids[..i] :: id in rows && rows[id] == old(rows)[id]
        invariant forall id | id in ids[..i] :: id in rows && PassedOver(old(rows)[id], rows[id], dryRun, vouched(id))
      {
        var id := ids[i];
        assert ids[i..][0] == id && ids[i..][1..] == ids[i + 1..] && ids[..i + 1] == ids[..i] + [id];
        assert id in old(rows) && id !in ids[..i];
        es := HandleOne(id, dryRun, vouched(id), clock(id), s, es);
      }
      assert ids[..|ids|] == ids;
      es := Step(s, es, EndLoop);
      forall id | id in rows && rows[id].status.Failed? ensures Requests(Exec(s, es), id) <= Requests(s, id) {
        RejectedIsUnsent(s, es, id);
      }
    }

    /** The dry run, the two checks, or the payment of the first withdrawal of the rest of the batch. */
    method HandleOne(id: nat, dryRun: bool, vouched: Option<bool>, now: int, ghost s: State, ghost es0: seq<Event>)
      returns (ghost es: seq<Event>)
      requires IsRun(s, es0) && Exec(s, es0).rows == rows && Exec(s, es0).pc.Queue? && PcInv(Exec(s, es0))
      requires Exec(s, es0).pc.todo != [] && Exec(s, es0).pc.todo[0] == id
      modifies this
      ensures IsRun(s, es) && Exec(s, es).rows == rows && Exec(s, es).pc == Queue(Exec(s, es0).pc.todo[1..])
      ensures PcInv(Exec(s, es)) && forall e | e in es :: e in es0 || !e.Resolve?
      ensures forall k | k in old(rows) && k != id :: k in rows && rows[k] == old(rows)[k]
      ensures id in old(rows) && id in rows && PassedOver(old(rows)[id], rows[id], dryRun, vouched)
    {
      var valid := vouched == Some(true);
      if dryRun {
        es := Step(s, es0, Skip);
      } else if !valid || rows[id].amount < DUST {
        Store(id, FailRow(rows[id]));
        es := Step(s, es0, Reject);
      } else {
        es := PayOne(id, now, s, es0);
      }
    }

    /** One claim, one send, and the two commits that follow a reply. */
    method PayOne(id: nat, now: int, ghost s: State, ghost es0: seq<Event>) returns (ghost es: seq<Event>)
      requires IsRun(s, es0) && Exec(s, es0).rows == rows && Exec(s, es0).pc.Queue? && PcInv(Exec(s, es0))
      requires Exec(s, es0).pc.todo != [] && Exec(s, es0).pc.todo[0] == id
      modifies this
      ensures IsRun(s, es) && Exec(s, es).rows == rows && Exec(s, es).pc == Queue(Exec(s, es0).pc.todo[1..])
      ensures PcInv(Exec(s, es)) && forall e | e in es :: e in es0 || !e.Resolve?
      ensures forall k | k in old(rows) && k != id :: k in rows && rows[k] == old(rows)[k]
      ensures id in rows && (rows[id].status.Sending? || rows[id].status.Sent?)
    {
      var claimed := MarkSending(id, now);
      es := Step(s, es0, Claim(now));
      if claimed {
        es := SendClaimed(id, s, es);
      }
    }

    /** The send; a lost reply leaves the row as it is. */
    method SendClaimed(id: nat, ghost s: State, ghost es0: seq<Event>) returns (ghost es: seq<Event>)
      requires IsRun(s, es0) && Exec(s, es0).rows == rows && PcInv(Exec(s, es0)) && id in rows
      requires Exec(s, es0).pc.Claimed? && Exec(s, es0).pc.id == id
      modifies this
      ensures IsRun(s, es) && Exec(s, es).rows == rows && Exec(s, es).pc == Queue(Exec(s, es0).pc.todo)
      ensures PcInv(Exec(s, es)) && forall e | e in es :: e in es0 || !e.Resolve?
      ensures forall k | k in old(rows) && k != id :: k in rows && rows[k] == old(rows)[k]
      ensures id in rows && (rows[id].status.Sending? || rows[id].status.Sent?)
    {
      es := es0;
      var reply, reached, made := SendToAddress(id, rows[id].address, rows[id].amount);
      if reply.None? {
        es := Step(s, es, SendLost(reached));
        return;
      }
      es := Step(s, es, SendReply(reply.value, made.time));
      assert made in Exec(s, es).sends;
      es := RecordAndFinish(id, reply.value, s, es);
    }

    /** The tentative txid is committed first, then the row is marked sent. */
    method RecordAndFinish(id: nat, txid: string, ghost s: State, ghost es0: seq<Event>) returns (ghost es: seq<Event>)
      requires IsRun(s, es0) && Exec(s, es0).rows == rows && PcInv(Exec(s, es0)) && id in rows
      requires Exec(s, es0).pc.Replied? && Exec(s, es0).pc.id == id && Exec(s, es0).pc.txid == txid
      modifies this
      ensures IsRun(s, es) && Exec(s, es).rows == rows && Exec(s, es).pc == Queue(Exec(s, es0).pc.todo)
      ensures PcInv(Exec(s, es)) && forall e | e in es :: e in es0 || !e.Resolve?
      ensures forall k | k in old(rows) && k != id :: k in rows && rows[k] == old(rows)[k]
      ensures id in rows && (rows[id].status.Sending? || rows[id].status.Sent?)
    {
      es := es0;
      var recorded: bool := *;
      if !recorded {
        es := Step(s, es, Fault);
        return;
      }
      Store(id, rows[id].(tentative := Some(txid)));
      es := Step(s, es, Record);
      var finished: bool := *;
      if !finished {
        es := Step(s, es, Fault);
        return;
      }
      Store(id, rows[id].(status := Sent));
      es := Step(s, es, Finish);
    }

    /** Scans the wallet history for the first matching entry. */
    static method MatchHistory(w: Withdrawal, history: seq<WalletTx>) returns (txid: string)
      ensures txid == FirstMatch(w, history)
    {
      for i := 0 to |history|
        invariant FirstMatch(w, history) == FirstMatch(w, history[i..])
      {
        assert history[i..][1..] == history[i + 1..];
        if Matches(w, history[i]) { return history[i].txid; }
      }
      txid := "";
    }

    method ResolveOne(id: nat, ev: Evidence)
      requires id in rows
      modifies this
      ensures rows == old(rows)[id := DecideRow(old(rows)[id], Decide(old(rows)[id], ev))]
    {
      var w := rows[id];
      var found := if w.tentative.Some? && ev.txKnown then w.tentative.value else "";
      if found == "" && ev.history.Some? {
        found := MatchHistory(w, ev.history.value);
      }
      if found != "" {
        rows := rows[id := w.(status := Sent)];
      } else if w.intentAt.None? || !ev.isOld {
        rows := rows[id := ResetRow(w)];
      }
    }

    method ResolveHead(id: nat, ev: Evidence, ghost s: State, ghost es0: seq<Event>) returns (ghost es: seq<Event>)
      requires IsRun(s, es0) && Exec(s, es0).rows == rows && Exec(s, es0).pc.Reconciling? && PcInv(Exec(s, es0))
      requires Exec(s, es0).pc.todo != [] && Exec(s, es0).pc.todo[0] == id
      modifies this
      ensures IsRun(s, es) && Exec(s, es).rows == rows && Exec(s, es).pc == Reconciling(Exec(s, es0).pc.todo[1..])
      ensures PcInv(Exec(s, es)) && id in old(rows)
      ensures rows == old(rows)[id := DecideRow(old(rows)[id], Decide(old(rows)[id], ev))]
    {
      ResolveOne(id, ev);
      es := Step(s, es0, Resolve(ev));
    }

    method ResolveAll(node: nat -> Evidence, ghost s: State) returns (ghost es: seq<Event>)
      requires s.rows == rows && s.pc.Idle? && PcInv(s)
      modifies this
      ensures IsRun(s, es) && Exec(s, es).rows == rows && Exec(s, es).pc.Idle?
      ensures forall id | id in old(rows) ::
                id in rows && rows[id] ==
                if old(rows)[id].status.Sending? then DecideRow(old(rows)[id], Decide(old(rows)[id], node(id)))
                else old(rows)[id]
    {
      var ids := Select(Sending);
      es := Step(s, [], BeginReconcile(ids));
      for i := 0 to |ids|
        invariant IsRun(s, es) && Exec(s, es).rows == rows && Exec(s, es).pc == Reconciling(ids[i..])
        invariant PcInv(Exec(s, es))
        invariant forall id | id in old(rows) ::
                    id in rows && rows[id] ==
                    if id in ids[..i] then DecideRow(old(rows)[id], Decide(old(rows)[id], node(id))) else old(rows)[id]
      {
        var id := ids[i];
        assert ids[i..][0] == id && ids[i..][1..] == ids[i + 1..] && ids[..i + 1] == ids[..i] + [id];
        assert rows[id] == old(rows)[id];
        es := ResolveHead(id, node(id), s, es);
      }
      assert ids[..|ids|] == ids;
      es := Step(s, es, EndLoop);
    }

    /** Resolves every withdrawal that is stuck in `sending` by what the node shows for it. */
    method ReconcileIncompleteSends(node: nat -> Evidence, ghost s: State) returns (ghost es: seq<Event>)
      requires s.rows == rows && s.pc.Idle? && PcInv(s)
      modifies this
      ensures IsRun(s, es) && Exec(s, es).rows == rows && Exec(s, es).pc.Idle?
      ensures forall id | id in old(rows) :: id in rows &&
                if !old(rows)[id].status.Sending? then rows[id] == old(rows)[id]
                else if Found(old(rows)[id], node(id)) then rows[id] == old(rows)[id].(status := Sent)
                else if old(rows)[id].intentAt.Some? && node(id).isOld then rows[id] == old(rows)[id]
                else rows[id] == ResetRow(old(rows)[id]) && rows[id].status.Confirmed?
    {
      es := ResolveAll(node, s);
      forall id | id in old(rows)
        ensures id in rows && (old(rows)[id].status.Sending? ==>
                  if Found(old(rows)[id], node(id)) then rows[id] == old(rows)[id].(status := Sent)
                  else if old(rows)[id].intentAt.Some? && node(id).isOld then rows[id] == old(rows)[id]
                  else rows[id] == ResetRow(old(rows)[id]) && rows[id].status.Confirmed?)
      {
        DecisionExact(old(rows)[id], node(id));
      }
    }
  }

  /** What one pass makes of a confirmed withdrawal: nothing in a dry run; otherwise it is rejected, or it is being
      sent or sent. */
  predicate PassedOver(w: Withdrawal, w': Withdrawal, dryRun: bool, vouched: Option<bool>) {
    if dryRun then w' == w
    else if vouched != Some(true) || w.amount < 10000 then w' == FailRow(w) && w'.status.Failed?
    else w'.status.Sending? || w'.status.Sent?
  }

  /** Appends one event to a run. */
  lemma Step(s: State, es: seq<Event>, e: Event) returns (es': seq<Event>)
    requires IsRun(s, es) && Enabled(Exec(s, es), e) && PcInv(Exec(s, es))
    ensures es' == es + [e] && IsRun(s, es') && Exec(s, es') == Apply(Exec(s, es), e) && PcInv(Exec(s, es'))
  {
    ExecAppend(s, es, e);
    StepKeepsPc(Exec(s, es), e);
    es' := es + [e];
  }
}
