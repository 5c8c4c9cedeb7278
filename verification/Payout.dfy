/** Native payouts for burns on Base: the status machine of the withdrawals table with every commit
and every node call as its own step, a crash possible between any two of them, and send requests whose
reply is lost and whose effect comes late or never. */
module Payout {
  import opened Wrappers
  import opened Decimal

  const CLOCK_SKEW: int := 300

  datatype BurnId = BurnId(txid: string, logIndex: nat)

  datatype WithdrawalStatus = Pending | Confirmed | Sending | Sent | Failed

  datatype Withdrawal = Withdrawal(
    burn: BurnId, amount: nat, address: string, status: WithdrawalStatus, retries: nat,
    attempt: Option<string>, tentative: Option<string>, intentAt: Option<int>)

  type Withdrawals = map<nat, Withdrawal>

  /** Where the process stands: `todo` is the rest of the snapshot that the running loop works off. */
  datatype Pc =
    | Idle
    | Queue(todo: seq<nat>)
    | Claimed(id: nat, todo: seq<nat>)
    | Replied(id: nat, txid: string, todo: seq<nat>)
    | Recorded(id: nat, txid: string, todo: seq<nat>)
    | Reconciling(todo: seq<nat>)

  /** `claims` lists the attempt ids of all successful compare-and-sets; `inflight` counts send requests
      per withdrawal that may still take effect, `paid` those that did, and `sends` says when. */
  datatype State = State(
    rows: Withdrawals, pc: Pc, claims: seq<string>, inflight: map<nat, nat>, paid: map<nat, nat>, sends: set<Send>)

  /** A send that took effect: for which withdrawal, at what time of the wallet, where to and how much. */
  datatype Send = Send(id: nat, time: int, address: string, amount: nat)

  datatype Event =
    | Insert(newId: nat, burn: BurnId, amount: nat, address: string)
    | Confirm(row: nat)
    | BeginSends(batch: seq<nat>)
    | Skip
    | Reject
    | Claim(now: int)
    | SendReply(reply: string, at: int)
    | SendLost(reached: bool)
    | Record
    | Finish
    | Fault
    | EndLoop
    | BeginReconcile(stuck: seq<nat>)
    | Resolve(seen: Evidence)
    | Deliver(request: nat, at: int)
    | Drop(request: nat)
    | Crash(reached: bool)

  // ---- Reconciliation of one stuck withdrawal ----

  datatype WalletTx = WalletTx(address: string, amount: nat, isSend: bool, time: int, txid: string)

  /** What the node answers during reconciliation: whether it knows the tentative txid, the recent wallet
      history (None when the call failed), and whether the attempt is older than 30 minutes. */
  datatype Evidence = Evidence(txKnown: bool, history: Option<seq<WalletTx>>, isOld: bool)

  datatype Decision = MarkSent(txid: string) | Reset | Leave

  /** Not earlier than five minutes before the attempt, where its time is known. */
  predicate InWindow(w: Withdrawal, time: int) {
    w.intentAt.Some? ==> time >= w.intentAt.value - CLOCK_SKEW
  }

  predicate Matches(w: Withdrawal, t: WalletTx) {
    t.isSend && t.address == w.address && t.amount == w.amount && InWindow(w, t.time)
  }

  /** Txid of the first matching wallet entry, or the empty string. */
  function FirstMatch(w: Withdrawal, history: seq<WalletTx>): string {
    if history == [] then ""
    else if Matches(w, history[0]) then history[0].txid
    else FirstMatch(w, history[1..])
  }

  function Decide(w: Withdrawal, ev: Evidence): Decision {
    if w.tentative.Some? && w.tentative.value != "" && ev.txKnown then MarkSent(w.tentative.value)
    else if ev.history.Some? && FirstMatch(w, ev.history.value) != "" then MarkSent(FirstMatch(w, ev.history.value))
    else if w.intentAt.Some? && ev.isOld then Leave
    else Reset
  }

  /** The node shows the send of `w`: it knows the recorded txid, or the wallet history was read, names
      every entry's txid and has an entry for this send. */
  ghost predicate Shown(w: Withdrawal, ev: Evidence) {
    || (w.tentative.Some? && w.tentative.value != "" && ev.txKnown)
    || (ev.history.Some? && (forall t | t in ev.history.value :: t.txid != "")
        && exists t | t in ev.history.value :: Matches(w, t))
  }

  lemma {:induction false} FirstMatchFinds(w: Withdrawal, history: seq<WalletTx>)
    requires forall t | t in history :: t.txid != ""
    ensures FirstMatch(w, history) != "" <==> exists t | t in history :: Matches(w, t)
  {
    if history != [] {
      assert history == [history[0]] + history[1..];
      FirstMatchFinds(w, history[1..]);
    }
  }

  /** A send that the node shows is never taken for a failed one. */
  lemma ShownIsNotReset(w: Withdrawal, ev: Evidence)
    requires Shown(w, ev)
    ensures Decide(w, ev).MarkSent?
  {
    if ev.history.Some? && forall t | t in ev.history.value :: t.txid != "" {
      FirstMatchFinds(w, ev.history.value);
    }
  }

  /** The wallet history names a send like `w`'s: the first entry that matches has a txid. */
  ghost predicate NamesSend(w: Withdrawal, history: seq<WalletTx>) {
    exists i | 0 <= i < |history| ::
      Matches(w, history[i]) && history[i].txid != "" && forall j | 0 <= j < i :: !Matches(w, history[j])
  }

  lemma {:induction false} FirstMatchExact(w: Withdrawal, history: seq<WalletTx>)
    ensures FirstMatch(w, history) != "" <==> NamesSend(w, history)
  {
    if history != [] && !Matches(w, history[0]) {
      var rest := history[1..];
      FirstMatchExact(w, rest);
      if NamesSend(w, rest) {
        var i :| 0 <= i < |rest| && Matches(w, rest[i]) && rest[i].txid != ""
                 && forall j | 0 <= j < i :: !Matches(w, rest[j]);
        assert Matches(w, history[i + 1]) && forall j | 0 <= j < i + 1 :: !Matches(w, history[j]);
      }
      if NamesSend(w, history) {
        var i :| 0 <= i < |history| && Matches(w, history[i]) && history[i].txid != ""
                 && forall j | 0 <= j < i :: !Matches(w, history[j]);
        assert Matches(w, rest[i - 1]) && forall j | 0 <= j < i - 1 :: !Matches(w, rest[j]);
      }
    }
  }

  /** The node knows the recorded txid, or its history names the send. */
  ghost predicate Found(w: Withdrawal, ev: Evidence) {
    || (w.tentative.Some? && w.tentative.value != "" && ev.txKnown)
    || (ev.history.Some? && NamesSend(w, ev.history.value))
  }

  /** Wallet entries from more than five minutes before the attempt never count as its send. */
  lemma OldSendsIgnored(w: Withdrawal, ev: Evidence)
    requires w.intentAt.Some? && ev.history.Some? && !ev.txKnown
    requires forall t | t in ev.history.value :: t.time < w.intentAt.value - 300
    ensures !Found(w, ev) && !Decide(w, ev).MarkSent?
  {
    FirstMatchExact(w, ev.history.value);
  }

  /** What reconciliation makes of a stuck withdrawal: marked sent if and only if the send is found; otherwise left
      for review by hand if and only if the attempt has a time and is old, and taken back for another attempt if and
      only if it is recent or has no time. */
  lemma DecisionExact(w: Withdrawal, ev: Evidence)
    ensures var w' := DecideRow(w, Decide(w, ev));
            if Found(w, ev) then w' == w.(status := Sent)
            else if w.intentAt.Some? && ev.isOld then w' == w
            else w'.status.Confirmed? && w'.retries == w.retries + 1
                 && w'.burn == w.burn && w'.amount == w.amount && w'.address == w.address
                 && w'.attempt.None? && w'.tentative.None? && w'.intentAt.None?
  {
    if ev.history.Some? {
      FirstMatchExact(w, ev.history.value);
    }
  }

  // ---- The machine ----

  function Count(m: map<nat, nat>, id: nat): nat {
    if id in m then m[id] else 0
  }

  function Bump(m: map<nat, nat>, id: nat): map<nat, nat> {
    m[id := Count(m, id) + 1]
  }

  function AttemptId(id: nat, retries: nat): string {
    Dec(id) + "_" + Dec(retries)
  }

  predicate Distinct<T(==)>(s: seq<T>) {
    forall i, j | 0 <= i < j < |s| :: s[i] != s[j]
  }

  predicate AllHave(rows: Withdrawals, ids: seq<nat>, status: WithdrawalStatus) {
    forall id | id in ids :: id in rows && rows[id].status == status
  }

  predicate Known(rows: Withdrawals, burn: BurnId) {
    exists id | id in rows :: rows[id].burn == burn
  }

  predicate Enabled(s: State, e: Event) {
    match e
    case Insert(id, _, _, _) => s.pc.Idle? && id !in s.rows
    case Confirm(id) => s.pc.Idle? && id in s.rows && s.rows[id].status.Pending?
    case BeginSends(ids) => s.pc.Idle? && Distinct(ids) && AllHave(s.rows, ids, Confirmed)
    case Skip => s.pc.Queue? && s.pc.todo != []
    case Reject => s.pc.Queue? && s.pc.todo != [] && s.pc.todo[0] in s.rows
    case Claim(_) => s.pc.Queue? && s.pc.todo != [] && s.pc.todo[0] in s.rows
    case SendReply(_, _) => s.pc.Claimed? && s.pc.id in s.rows
    case SendLost(_) => s.pc.Claimed?
    case Record => s.pc.Replied? && s.pc.id in s.rows
    case Finish => s.pc.Recorded? && s.pc.id in s.rows
    case Fault => s.pc.Replied? || s.pc.Recorded?
    case EndLoop => (s.pc.Queue? || s.pc.Reconciling?) && s.pc.todo == []
    case BeginReconcile(ids) => s.pc.Idle? && Distinct(ids) && AllHave(s.rows, ids, Sending)
    case Resolve(_) => s.pc.Reconciling? && s.pc.todo != [] && s.pc.todo[0] in s.rows
    case Deliver(id, _) => Count(s.inflight, id) > 0 && id in s.rows
    case Drop(id) => Count(s.inflight, id) > 0
    case Crash(_) => true
  }

  function FailRow(w: Withdrawal): Withdrawal {
    w.(status := Failed, retries := w.retries + 1)
  }

  function ClaimRow(w: Withdrawal, id: nat, now: int): Withdrawal {
    w.(status := Sending, attempt := Some(AttemptId(id, w.retries)), intentAt := Some(now))
  }

  function ResetRow(w: Withdrawal): Withdrawal {
    w.(status := Confirmed, attempt := None, tentative := None, intentAt := None, retries := w.retries + 1)
  }

  function SendFor(w: Withdrawal, id: nat, time: int): Send {
    Send(id, time, w.address, w.amount)
  }

  function DecideRow(w: Withdrawal, d: Decision): Withdrawal {
    match d
    case MarkSent(_) => w.(status := Sent)
    case Reset => ResetRow(w)
    case Leave => w
  }

  function Apply(s: State, e: Event): State
    requires Enabled(s, e)
  {
    match e
    case Insert(id, burn, amount, address) =>
      if Known(s.rows, burn) then s
      else s.(rows := s.rows[id := Withdrawal(burn, amount, address, Pending, 0, None, None, None)])
    case Confirm(id) => s.(rows := s.rows[id := s.rows[id].(status := Confirmed)])
    case BeginSends(ids) => s.(pc := Queue(ids))
    case Skip => s.(pc := Queue(s.pc.todo[1..]))
    case Reject =>
      var id := s.pc.todo[0];
      s.(rows := s.rows[id := FailRow(s.rows[id])], pc := Queue(s.pc.todo[1..]))
    case Claim(now) =>
      var id := s.pc.todo[0];
      if s.rows[id].status.Confirmed? then
        s.(rows := s.rows[id := ClaimRow(s.rows[id], id, now)],
           claims := s.claims + [AttemptId(id, s.rows[id].retries)], pc := Claimed(id, s.pc.todo[1..]))
      else s.(pc := Queue(s.pc.todo[1..]))
    case SendReply(txid, at) =>
      s.(paid := Bump(s.paid, s.pc.id), sends := s.sends + {SendFor(s.rows[s.pc.id], s.pc.id, at)},
         pc := Replied(s.pc.id, txid, s.pc.todo))
    case SendLost(reached) =>
      s.(inflight := if reached then Bump(s.inflight, s.pc.id) else s.inflight, pc := Queue(s.pc.todo))
    case Record =>
      s.(rows := s.rows[s.pc.id := s.rows[s.pc.id].(tentative := Some(s.pc.txid))],
         pc := Recorded(s.pc.id, s.pc.txid, s.pc.todo))
    case Finish =>
      s.(rows := s.rows[s.pc.id := s.rows[s.pc.id].(status := Sent)], pc := Queue(s.pc.todo))
    case Fault => s.(pc := Queue(s.pc.todo))
    case EndLoop => s.(pc := Idle)
    case BeginReconcile(ids) => s.(pc := Reconciling(ids))
    case Resolve(ev) =>
      var id := s.pc.todo[0];
      s.(rows := s.rows[id := DecideRow(s.rows[id], Decide(s.rows[id], ev))], pc := Reconciling(s.pc.todo[1..]))
    case Deliver(id, at) =>
      s.(inflight := s.inflight[id := Count(s.inflight, id) - 1], paid := Bump(s.paid, id),
         sends := s.sends + {SendFor(s.rows[id], id, at)})
    case Drop(id) => s.(inflight := s.inflight[id := Count(s.inflight, id) - 1])
    case Crash(reached) =>
      s.(inflight := if reached && s.pc.Claimed? then Bump(s.inflight, s.pc.id) else s.inflight, pc := Idle)
  }

  const Init: State := State(map[], Idle, [], map[], map[], {})

  predicate IsRun(s: State, es: seq<Event>)
    decreases |es|, 0
  {
    es == [] || (IsRun(s, es[..|es| - 1]) && Enabled(Exec(s, es[..|es| - 1]), es[|es| - 1]))
  }

  function Exec(s: State, es: seq<Event>): State
    requires IsRun(s, es)
    decreases |es|, 1
  {
    if es == [] then s else Apply(Exec(s, es[..|es| - 1]), es[|es| - 1])
  }

  // ---- Accounting ----

  /** Number of successful compare-and-sets on a row, read off the row itself. */
  function Attempts(w: Withdrawal): int {
    match w.status
    case Pending => 0
    case Confirmed => w.retries
    case Sending => w.retries + 1
    case Sent => w.retries + 1
    case Failed => w.retries - 1
  }

  /** The rows that the running loop will still touch are as its snapshot saw them. */
  predicate PcInv(s: State) {
    match s.pc
    case Idle => true
    case Queue(todo) => Distinct(todo) && AllHave(s.rows, todo, Confirmed)
    case Reconciling(todo) => Distinct(todo) && AllHave(s.rows, todo, Sending)
    case _ =>
      Distinct(s.pc.todo) && AllHave(s.rows, s.pc.todo, Confirmed) && s.pc.id !in s.pc.todo
      && s.pc.id in s.rows && s.rows[s.pc.id].status.Sending?
  }

  function Requests(s: State, id: nat): nat {
    Count(s.paid, id) + Count(s.inflight, id)
  }

  /** Requests made for a row are covered by its attempts, one of which is still unused while the
      process stands between the compare-and-set and the send. */
  predicate RowInv(s: State, id: nat) {
    if id !in s.rows then Requests(s, id) == 0
    else
      && (s.rows[id].status.Pending? ==> s.rows[id].retries == 0)
      && 0 <= Attempts(s.rows[id])
      && Requests(s, id) + (if s.pc.Claimed? && s.pc.id == id then 1 else 0) <= Attempts(s.rows[id])
  }

  predicate UniqueBurns(rows: Withdrawals) {
    forall i, j | i in rows && j in rows && rows[i].burn == rows[j].burn :: i == j
  }

  ghost predicate RowsInv(s: State) {
    UniqueBurns(s.rows) && forall id: nat :: RowInv(s, id)
  }

  ghost predicate ClaimsInv(s: State) {
    && Distinct(s.claims)
    && forall c | c in s.claims ::
         exists id, r {:trigger AttemptId(id, r)} ::
           id in s.rows && 0 <= r < Attempts(s.rows[id]) && c == AttemptId(id, r)
  }

  predicate Terminal(w: Withdrawal) {
    w.status.Sent? || w.status.Failed?
  }

  lemma StepKeepsPc(s: State, e: Event)
    requires PcInv(s) && Enabled(s, e)
    ensures PcInv(Apply(s, e))
  {
  }

  lemma StepKeepsRow(s: State, e: Event, id: nat)
    requires PcInv(s) && RowInv(s, id) && Enabled(s, e)
    ensures RowInv(Apply(s, e), id)
  {
  }

  lemma StepKeepsBurns(s: State, e: Event)
    requires UniqueBurns(s.rows) && Enabled(s, e)
    ensures UniqueBurns(Apply(s, e).rows)
  {
  }

  lemma StepKeepsRows(s: State, e: Event)
    requires PcInv(s) && RowsInv(s) && Enabled(s, e)
    ensures RowsInv(Apply(s, e))
  {
    StepKeepsBurns(s, e);
    forall id: nat ensures RowInv(Apply(s, e), id) {
      StepKeepsRow(s, e, id);
    }
  }

  /** `sent` and `failed` are final, and no row's attempt count ever falls. */
  lemma StepKeepsTerminal(s: State, e: Event, id: nat)
    requires PcInv(s) && RowsInv(s) && Enabled(s, e) && id in s.rows
    ensures var s' := Apply(s, e);
            && id in s'.rows && s'.rows[id].burn == s.rows[id].burn
            && Attempts(s.rows[id]) <= Attempts(s'.rows[id])
            && (Terminal(s.rows[id]) ==> s'.rows[id] == s.rows[id])
  {
  }

  /** A fresh claim carries an attempt id that no earlier claim carried. */
  lemma StepKeepsClaims(s: State, e: Event)
    requires PcInv(s) && RowsInv(s) && ClaimsInv(s) && Enabled(s, e)
    ensures ClaimsInv(Apply(s, e))
  {
    var s' := Apply(s, e);
    forall c | c in s'.claims
      ensures exists id, r {:trigger AttemptId(id, r)} ::
                id in s'.rows && 0 <= r < Attempts(s'.rows[id]) && c == AttemptId(id, r)
    {
      if c in s.claims {
        var id, r :| id in s.rows && 0 <= r < Attempts(s.rows[id]) && c == AttemptId(id, r);
        StepKeepsTerminal(s, e, id);
        assert id in s'.rows && 0 <= r < Attempts(s'.rows[id]) && c == AttemptId(id, r);
      } else {
        var id := s.pc.todo[0];
        assert id in s'.rows && s.rows[id].retries < Attempts(s'.rows[id]) && c == AttemptId(id, s.rows[id].retries);
      }
    }
    if |s'.claims| > |s.claims| {
      var id := s.pc.todo[0];
      forall c | c in s.claims ensures c != AttemptId(id, s.rows[id].retries) {
        var i, r :| i in s.rows && 0 <= r < Attempts(s.rows[i]) && c == AttemptId(i, r);
        if c == AttemptId(id, s.rows[id].retries) {
          JoinInjective(i, r, id, s.rows[id].retries);
        }
      }
      var newest := AttemptId(id, s.rows[id].retries);
      assert newest !in s.claims && s'.claims == s.claims + [newest];
      assert forall i | 0 <= i < |s.claims| :: s.claims[i] in s.claims;
    }
  }

  ghost predicate Inv(s: State) {
    PcInv(s) && RowsInv(s) && ClaimsInv(s)
  }

  /** Accounting over every run, whatever the node hides: sends never exceed the retry count plus one,
      nor the retry count while the withdrawal waits for its next attempt, and no attempt id serves two
      successful compare-and-sets. */
  lemma {:induction false} PayoutAccounting(es: seq<Event>)
    requires IsRun(Init, es)
    ensures var s := Exec(Init, es);
            && Inv(s)
            && (forall id | id in s.rows :: Count(s.paid, id) <= s.rows[id].retries + 1)
            && (forall id | id in s.rows && s.rows[id].status.Confirmed? :: Count(s.paid, id) <= s.rows[id].retries)
            && Distinct(s.claims)
    decreases |es|
  {
    if es != [] {
      var s0, e := Exec(Init, es[..|es| - 1]), es[|es| - 1];
      PayoutAccounting(es[..|es| - 1]);
      StepKeepsPc(s0, e);
      StepKeepsRows(s0, e);
      StepKeepsClaims(s0, e);
    }
    var s := Exec(Init, es);
    forall id | id in s.rows
      ensures Count(s.paid, id) <= s.rows[id].retries + 1
      ensures s.rows[id].status.Confirmed? ==> Count(s.paid, id) <= s.rows[id].retries
    {
      assert RowInv(s, id);
    }
  }

  /** Once a withdrawal is sent or failed, no continuation of any run changes its row. */
  lemma {:induction false} TerminalStays(s: State, es: seq<Event>, id: nat)
    requires Inv(s) && IsRun(s, es) && id in s.rows && Terminal(s.rows[id])
    ensures Inv(Exec(s, es)) && id in Exec(s, es).rows && Exec(s, es).rows[id] == s.rows[id]
    decreases |es|
  {
    if es != [] {
      var s0, e := Exec(s, es[..|es| - 1]), es[|es| - 1];
      TerminalStays(s, es[..|es| - 1], id);
      StepKeepsPc(s0, e);
      StepKeepsRows(s0, e);
      StepKeepsClaims(s0, e);
      StepKeepsTerminal(s0, e, id);
    }
  }

  /** No step changes what a withdrawal owes to whom, and every send pays that. */
  lemma StepKeepsTerms(s: State, e: Event, id: nat)
    requires Enabled(s, e) && id in s.rows
    ensures var s' := Apply(s, e);
            && id in s'.rows && s'.rows[id].burn == s.rows[id].burn
            && s'.rows[id].amount == s.rows[id].amount && s'.rows[id].address == s.rows[id].address
            && forall p | p in s'.sends && p !in s.sends && p.id == id ::
                 p.address == s.rows[id].address && p.amount == s.rows[id].amount
  {
  }

  /** In every run each send that took effect went to the address and in the amount of its own withdrawal. */
  lemma {:induction false} SendsAreOwn(es: seq<Event>, p: Send)
    requires IsRun(Init, es) && p in Exec(Init, es).sends
    ensures var rows := Exec(Init, es).rows;
            p.id in rows && p.address == rows[p.id].address && p.amount == rows[p.id].amount
    decreases |es|
  {
    var s0, e := Exec(Init, es[..|es| - 1]), es[|es| - 1];
    if p in s0.sends {
      SendsAreOwn(es[..|es| - 1], p);
    }
    StepKeepsTerms(s0, e, p.id);
  }

  /** A reply in hand is that of a send that took effect, and is on record once it was written. */
  predicate ReplyInv(s: State) {
    && (s.pc.Replied? || s.pc.Recorded? ==> Count(s.paid, s.pc.id) > 0)
    && (s.pc.Recorded? ==> s.pc.id in s.rows && s.rows[s.pc.id].tentative == Some(s.pc.txid))
  }

  lemma StepKeepsReply(s: State, e: Event)
    requires ReplyInv(s) && Enabled(s, e)
    ensures ReplyInv(Apply(s, e))
  {
  }

  lemma {:induction false} ReplyRuns(es: seq<Event>)
    requires IsRun(Init, es)
    ensures ReplyInv(Exec(Init, es))
    decreases |es|
  {
    if es != [] {
      ReplyRuns(es[..|es| - 1]);
      StepKeepsReply(Exec(Init, es[..|es| - 1]), es[|es| - 1]);
    }
  }

  /** A send that was answered and recorded was paid, and its withdrawal stays sent with that txid, whatever follows. */
  lemma AnsweredIsFinal(es: seq<Event>, more: seq<Event>)
    requires IsRun(Init, es) && Enabled(Exec(Init, es), Finish) && IsRun(Apply(Exec(Init, es), Finish), more)
    ensures var s := Exec(Init, es);
            var s' := Exec(Apply(s, Finish), more);
            && Count(s.paid, s.pc.id) > 0
            && s.pc.id in s'.rows && s'.rows[s.pc.id].status.Sent? && s'.rows[s.pc.id].tentative == Some(s.pc.txid)
  {
    var s := Exec(Init, es);
    PayoutAccounting(es);
    ReplyRuns(es);
    StepKeepsPc(s, Finish);
    StepKeepsRows(s, Finish);
    StepKeepsClaims(s, Finish);
    TerminalStays(Apply(s, Finish), more, s.pc.id);
  }

  predicate Underway(s: State, id: nat) {
    id in s.rows && (s.rows[id].status.Sending? || s.rows[id].status.Sent?)
  }

  lemma StepKeepsUnderway(s: State, e: Event, id: nat)
    requires PcInv(s) && Enabled(s, e) && !e.Resolve?
    ensures Underway(s, id) || Requests(Apply(s, e), id) > Requests(s, id) ==> Underway(Apply(s, e), id)
  {
  }

  /** A withdrawal for which a send was requested ends up in `sending` or sent, unless it is resolved. */
  lemma {:induction false} RequestedIsSending(s: State, es: seq<Event>, id: nat)
    requires PcInv(s) && s.pc.Idle? && IsRun(s, es) && forall e | e in es :: !e.Resolve?
    ensures var s' := Exec(s, es);
            && PcInv(s')
            && (Requests(s', id) > Requests(s, id) ==> Underway(s', id))
    decreases |es|
  {
    if es != [] {
      var init, e := es[..|es| - 1], es[|es| - 1];
      RequestedIsSending(s, init, id);
      assert e in es;
      StepKeepsPc(Exec(s, init), e);
      StepKeepsUnderway(Exec(s, init), e, id);
    }
  }

  /** So a withdrawal that such a run rejects was not sent in it. */
  lemma RejectedIsUnsent(s: State, es: seq<Event>, id: nat)
    requires PcInv(s) && s.pc.Idle? && IsRun(s, es) && forall e | e in es :: !e.Resolve?
    requires id in Exec(s, es).rows && Exec(s, es).rows[id].status.Failed?
    ensures Requests(Exec(s, es), id) <= Requests(s, id)
  {
    RequestedIsSending(s, es, id);
  }

  // ---- At most one payout ----

  /** A reconciliation pass resets a withdrawal although a request for it took effect or is on its way. */
  predicate BlindReset(s: State, e: Event)
    requires Enabled(s, e)
  {
    e.Resolve? && Decide(s.rows[s.pc.todo[0]], e.seen).Reset? && Requests(s, s.pc.todo[0]) > 0
  }

  predicate NoBlindReset(s: State, es: seq<Event>)
    requires IsRun(s, es)
  {
    es == [] ||
    (NoBlindReset(s, es[..|es| - 1]) && !BlindReset(Exec(s, es[..|es| - 1]), es[|es| - 1]))
  }

  /** Visibility is enough: a pass to which the node shows every send that was requested for the
      withdrawal resets nothing blindly. */
  lemma VisibleSendIsNotBlind(s: State, ev: Evidence)
    requires Enabled(s, Resolve(ev))
    requires Requests(s, s.pc.todo[0]) > 0 ==> Shown(s.rows[s.pc.todo[0]], ev)
    ensures !BlindReset(s, Resolve(ev))
  {
    if Shown(s.rows[s.pc.todo[0]], ev) {
      ShownIsNotReset(s.rows[s.pc.todo[0]], ev);
    }
  }

  /** A withdrawal that waits for a send has none on record; any other has at most one. */
  predicate OnceInv(s: State, id: nat) {
    Requests(s, id) <=
      (if id !in s.rows || s.rows[id].status.Pending? || s.rows[id].status.Confirmed?
          || (s.pc.Claimed? && s.pc.id == id) then 0 else 1)
  }

  lemma StepKeepsOnce(s: State, e: Event, id: nat)
    requires Inv(s) && OnceInv(s, id) && Enabled(s, e) && !BlindReset(s, e)
    ensures OnceInv(Apply(s, e), id)
  {
    assert RowInv(s, id);
  }

  /** At most one native send per burn event, in every run without a blind reset, with crashes between
      any two steps, lost replies and late effects. */
  lemma {:induction false} AtMostOncePerBurn(es: seq<Event>)
    requires IsRun(Init, es) && NoBlindReset(Init, es)
    ensures var s := Exec(Init, es);
            && (forall id: nat :: OnceInv(s, id) && Count(s.paid, id) <= 1)
            && UniqueBurns(s.rows)
    decreases |es|
  {
    PayoutAccounting(es);
    if es != [] {
      var s0, e := Exec(Init, es[..|es| - 1]), es[|es| - 1];
      AtMostOncePerBurn(es[..|es| - 1]);
      PayoutAccounting(es[..|es| - 1]);
      forall id: nat ensures OnceInv(Apply(s0, e), id) {
        StepKeepsOnce(s0, e, id);
      }
    }
    var s := Exec(Init, es);
    forall id: nat ensures Count(s.paid, id) <= 1 {
      assert OnceInv(s, id);
    }
  }

  /** At every reconciliation the node shows every send that was requested for the withdrawal at hand. */
  ghost predicate AllShown(s: State, es: seq<Event>)
    requires IsRun(s, es)
  {
    es == [] ||
    var s0, e := Exec(s, es[..|es| - 1]), es[|es| - 1];
    && AllShown(s, es[..|es| - 1])
    && (e.Resolve? && Requests(s0, s0.pc.todo[0]) > 0 ==> Shown(s0.rows[s0.pc.todo[0]], e.seen))
  }

  lemma {:induction false} ShownRunsAreNotBlind(s: State, es: seq<Event>)
    requires IsRun(s, es) && AllShown(s, es)
    ensures NoBlindReset(s, es)
    decreases |es|
  {
    if es != [] {
      ShownRunsAreNotBlind(s, es[..|es| - 1]);
      if es[|es| - 1].Resolve? {
        VisibleSendIsNotBlind(Exec(s, es[..|es| - 1]), es[|es| - 1].seen);
      }
    }
  }

  /** What the reconciliation is for: if it is shown every requested send, no burn is ever paid twice. */
  lemma ShownOncePerBurn(es: seq<Event>)
    requires IsRun(Init, es) && AllShown(Init, es)
    ensures var s := Exec(Init, es); (forall id: nat :: Count(s.paid, id) <= 1) && UniqueBurns(s.rows)
  {
    ShownRunsAreNotBlind(Init, es);
    AtMostOncePerBurn(es);
  }

  /** A withdrawal in `sending` has the time of its attempt. */
  predicate Timed(s: State) {
    forall id | id in s.rows && s.rows[id].status.Sending? :: s.rows[id].intentAt.Some?
  }

  lemma StepKeepsTimed(s: State, e: Event)
    requires Timed(s) && Enabled(s, e)
    ensures Timed(Apply(s, e))
  {
  }

  /** A resolution takes a withdrawal back for another attempt only while its last attempt is recent. */
  lemma OnlyRecentIsReset(s: State, ev: Evidence)
    requires PcInv(s) && Timed(s) && Enabled(s, Resolve(ev))
    requires Apply(s, Resolve(ev)).rows[s.pc.todo[0]].status.Confirmed?
    ensures !ev.isOld && !Found(s.rows[s.pc.todo[0]], ev)
  {
    DecisionExact(s.rows[s.pc.todo[0]], ev);
  }

  /** At every reconciliation of a withdrawal for which a send was requested, the node shows that send or the
      attempt is more than 30 minutes old. */
  ghost predicate ShownOrOld(s: State, es: seq<Event>)
    requires IsRun(s, es)
  {
    es == [] ||
    var s0, e := Exec(s, es[..|es| - 1]), es[|es| - 1];
    && ShownOrOld(s, es[..|es| - 1])
    && (e.Resolve? && Requests(s0, s0.pc.todo[0]) > 0 ==> Shown(s0.rows[s0.pc.todo[0]], e.seen) || e.seen.isOld)
  }

  lemma OldIsNotBlind(s: State, ev: Evidence)
    requires PcInv(s) && Timed(s) && Enabled(s, Resolve(ev)) && ev.isOld
    ensures !BlindReset(s, Resolve(ev))
  {
  }

  lemma {:induction false} ShownOrOldIsNotBlind(es: seq<Event>)
    requires IsRun(Init, es) && ShownOrOld(Init, es)
    ensures NoBlindReset(Init, es) && Timed(Exec(Init, es))
    decreases |es|
  {
    if es != [] {
      var init, e := es[..|es| - 1], es[|es| - 1];
      ShownOrOldIsNotBlind(init);
      StepKeepsTimed(Exec(Init, init), e);
      if e.Resolve? {
        PayoutAccounting(init);
        if e.seen.isOld {
          OldIsNotBlind(Exec(Init, init), e.seen);
        } else {
          VisibleSendIsNotBlind(Exec(Init, init), e.seen);
        }
      }
    }
  }

  /** Waiting is enough: if every reconciliation of a requested send is shown that send or finds the attempt old, no
      burn is ever paid twice. */
  lemma OldOrShownOncePerBurn(es: seq<Event>)
    requires IsRun(Init, es) && ShownOrOld(Init, es)
    ensures var s := Exec(Init, es); (forall id: nat :: Count(s.paid, id) <= 1) && UniqueBurns(s.rows)
  {
    ShownOrOldIsNotBlind(es);
    AtMostOncePerBurn(es);
  }

  lemma {:induction false} ExecAppend(s: State, es: seq<Event>, e: Event)
    requires IsRun(s, es) && Enabled(Exec(s, es), e)
    ensures IsRun(s, es + [e]) && Exec(s, es + [e]) == Apply(Exec(s, es), e)
  {
    assert (es + [e])[..|es|] == es;
  }

  /** An idle process can send a confirmed withdrawal, whatever was sent for it before. */
  lemma SendAgain(s: State, es0: seq<Event>, id: nat) returns (es: seq<Event>)
    requires IsRun(s, es0) && Exec(s, es0).pc.Idle?
    requires id in Exec(s, es0).rows && Exec(s, es0).rows[id].status.Confirmed?
    ensures es0 <= es && IsRun(s, es)
    ensures Count(Exec(s, es).paid, id) == Count(Exec(s, es0).paid, id) + 1
    ensures Exec(s, es).inflight == Exec(s, es0).inflight && id in Exec(s, es).rows
  {
    es := es0;
    ExecAppend(s, es, BeginSends([id])); es := es + [BeginSends([id])];
    ExecAppend(s, es, Claim(0)); es := es + [Claim(0)];
    ExecAppend(s, es, SendReply("tx", 0)); es := es + [SendReply("tx", 0)];
  }

  /** The condition is exact: after any blind reset some continuation pays the burn a second time. */
  lemma BlindResetPaysTwice(s: State, ev: Evidence) returns (es: seq<Event>)
    requires Inv(s) && Enabled(s, Resolve(ev)) && BlindReset(s, Resolve(ev))
    ensures es != [] && es[0] == Resolve(ev) && IsRun(s, es)
    ensures Count(Exec(s, es).paid, s.pc.todo[0]) >= 2
  {
    var id := s.pc.todo[0];
    es := [];
    ExecAppend(s, es, Resolve(ev)); es := es + [Resolve(ev)];
    ExecAppend(s, es, Crash(false)); es := es + [Crash(false)];
    es := SendAgain(s, es, id);
    if Count(s.paid, id) == 0 {
      ExecAppend(s, es, Deliver(id, 0)); es := es + [Deliver(id, 0)];
    }
  }

  /** A send whose request reached the node and whose reply was lost. */
  lemma OneLost(burn: BurnId, amount: nat, address: string) returns (es: seq<Event>)
    ensures IsRun(Init, es)
    ensures var s := Exec(Init, es);
            && s.pc.Idle? && 0 in s.rows && s.rows[0].status.Sending? && s.rows[0].tentative.None?
            && s.inflight == map[][0 := 1] && s.paid == map[]
  {
    es := [];
    ExecAppend(Init, es, Insert(0, burn, amount, address)); es := es + [Insert(0, burn, amount, address)];
    ExecAppend(Init, es, Confirm(0)); es := es + [Confirm(0)];
    ExecAppend(Init, es, BeginSends([0])); es := es + [BeginSends([0])];
    ExecAppend(Init, es, Claim(0)); es := es + [Claim(0)];
    ExecAppend(Init, es, Crash(true)); es := es + [Crash(true)];
  }

  /** From empty tables to the second payment: the wallet history cannot be read in the pass that follows. */
  lemma PaidTwiceRun(burn: BurnId, amount: nat, address: string) returns (es: seq<Event>)
    ensures IsRun(Init, es) && Count(Exec(Init, es).paid, 0) == 2
  {
    es := OneLost(burn, amount, address);
    var blind := Evidence(false, None, false);
    ExecAppend(Init, es, BeginReconcile([0])); es := es + [BeginReconcile([0])];
    ExecAppend(Init, es, Resolve(blind)); es := es + [Resolve(blind)];
    ExecAppend(Init, es, Crash(false)); es := es + [Crash(false)];
    es := SendAgain(Init, es, 0);
    ExecAppend(Init, es, Deliver(0, 0)); es := es + [Deliver(0, 0)];
  }
}
