/** The mint loop and the token contract together: the token's own checks decide what the pool's transactions do,
so mint safety and the daily limit hold of one and the same log. The relayer is the only minter. */
module MintedToken {
  import opened StateDb
  import M = Mint
  import T = WrappedToken

  /** `clock` is the time of the latest block. */
  datatype State = State(bridge: M.State, token: T.Token, clock: nat)

  datatype Event =
    | Relay(step: M.Event)
    | MineAt(nonce: nat, now: nat)
    | Owner(call: T.Call)

  predicate Enabled(s: State, e: Event) {
    match e
    case Relay(step) => !step.Mine? && M.Enabled(s.bridge, step)
    case MineAt(n, now) => n in s.bridge.pool && n < |s.bridge.sent| && s.clock <= now
    case Owner(call) => !call.MintCall?
  }

  function Accepted(s: State, n: nat, now: nat): bool
    requires n < |s.bridge.sent|
  {
    T.Accepts(s.token, now, s.bridge.sent[n].key, s.bridge.sent[n].amount)
  }

  function Apply(s: State, e: Event): State
    requires Enabled(s, e)
  {
    match e
    case Relay(step) => s.(bridge := M.Apply(s.bridge, step))
    case MineAt(n, now) =>
      State(M.Apply(s.bridge, M.Mine(n, Accepted(s, n, now))),
            T.Mint(s.token, now, s.bridge.sent[n].key, s.bridge.sent[n].amount), now)
    case Owner(call) => s.(token := T.Apply(s.token, call))
  }

  function Init(start: nat, cap: nat, max: nat): State {
    State(M.Init, T.Deploy(start, cap, max), start)
  }

  predicate IsRun(s: State, es: seq<Event>)
    decreases |es|, 0
  {
    es == [] || (IsRun(s, es[..|es| - 1]) && Enabled(Exec(s, es[..|es| - 1]), es[|es| - 1]))
  }

  function Exec(s: State, es: seq<Event>): State
    requires IsRun(s, es)
    decreases |es|, 1
  {
    if es == [] then s else Apply(Exec(s, es[..|es| - 1]), es[|es| - 1])
  }

  predicate SameIssue(t: M.MintTx, i: T.Issue) {
    t.key == i.key && t.amount == i.amount
  }

  /** The relayer's view of the contract and the contract agree. */
  ghost predicate Agree(s: State) {
    && s.bridge.flags == s.token.flags && |s.bridge.log| == |s.token.log|
    && forall i | 0 <= i < |s.bridge.log| :: SameIssue(s.bridge.log[i], s.token.log[i])
  }

  ghost predicate Inv(s: State) {
    Agree(s) && M.ContractInv(s.bridge) && M.RowsInv(s.bridge) && T.Inv(s.token) && T.NotAfter(s.token, s.clock)
  }

  lemma StepKeepsAgree(s: State, e: Event)
    requires Agree(s) && Enabled(s, e)
    ensures Agree(Apply(s, e))
  {
  }

  lemma StepKeepsBridge(s: State, e: Event)
    requires M.ContractInv(s.bridge) && M.RowsInv(s.bridge) && Enabled(s, e)
    ensures M.ContractInv(Apply(s, e).bridge) && M.RowsInv(Apply(s, e).bridge)
  {
    if !e.Owner? {
      var step := if e.Relay? then e.step else M.Mine(e.nonce, Accepted(s, e.nonce, e.now));
      M.StepKeepsContract(s.bridge, step);
      M.StepKeepsRows(s.bridge, step);
    }
  }

  lemma StepKeepsToken(s: State, e: Event)
    requires T.Inv(s.token) && T.NotAfter(s.token, s.clock) && Enabled(s, e)
    ensures T.Inv(Apply(s, e).token) && T.NotAfter(Apply(s, e).token, Apply(s, e).clock)
  {
    match e
    case Relay(_) =>
    case Owner(call) => T.OwnerKeepsInv(s.token, call, s.clock);
    case MineAt(n, now) =>
      T.MintKeepsClock(s.token, s.clock, now, s.bridge.sent[n].key, s.bridge.sent[n].amount);
      T.MintKeepsInv(s.token, now, s.bridge.sent[n].key, s.bridge.sent[n].amount);
  }

  lemma {:induction false} SameTotal(log: seq<M.MintTx>, issues: seq<T.Issue>)
    requires |log| == |issues| && forall i | 0 <= i < |log| :: SameIssue(log[i], issues[i])
    ensures M.Issued(log) == T.Sum(issues)
    decreases |log|
  {
    if log != [] {
      SameTotal(log[1..], issues[1..]);
      T.SumSuffix(issues, 0, 1);
      assert issues[0..] == issues && issues[0..1] == [] + [issues[0]] && SameIssue(log[0], issues[0]);
      T.SumSnoc([], issues[0]);
    }
  }

  lemma {:induction false} InvHolds(start: nat, cap: nat, max: nat, es: seq<Event>)
    requires IsRun(Init(start, cap, max), es)
    ensures Inv(Exec(Init(start, cap, max), es))
    decreases |es|
  {
    if es != [] {
      var s, e := Exec(Init(start, cap, max), es[..|es| - 1]), es[|es| - 1];
      InvHolds(start, cap, max, es[..|es| - 1]);
      StepKeepsAgree(s, e);
      StepKeepsBridge(s, e);
      StepKeepsToken(s, e);
    }
  }

  /** In every run of relayer, pool and contract: no native transaction is minted twice, every mint is a recorded
      deposit's, all of them together are at most what was recorded, and any of them less than 24 hours apart
      are at most twice the greatest cap in force. */
  lemma BridgeSafety(start: nat, cap: nat, max: nat, es: seq<Event>)
    requires IsRun(Init(start, cap, max), es)
    ensures var s := Exec(Init(start, cap, max), es);
            && M.DistinctKeys(s.bridge.log) && (forall t | t in s.bridge.log :: M.Backed(s.bridge.rows, t))
            && Agree(s) && T.AllBounded(s.token.log, 2 * s.token.top)
            && T.Sum(s.token.log) == M.Issued(s.bridge.log) <= M.Recorded(s.bridge.rows)
  {
    InvHolds(start, cap, max, es);
    var s := Exec(Init(start, cap, max), es);
    M.IssuedAtMostRecorded(s.bridge.log, s.bridge.rows);
    SameTotal(s.bridge.log, s.token.log);
  }
}
