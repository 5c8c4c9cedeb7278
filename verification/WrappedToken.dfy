/** The wrapped-token contract's mint limits: replay flags, a per-deposit limit and a daily cap whose day
starts at the first mint after the last one ran out. */
module WrappedToken {
  const DAY: nat := 86400

  datatype Issue = Issue(time: nat, key: string, amount: nat)

  /** Contract storage; `log` is the event log, `mark` and `previous` are the log positions at which the
      present and the preceding counting period began, and `top` is the greatest cap ever in force. */
  datatype Token = Token(
    cap: nat, mintedToday: nat, lastReset: nat, maxPerDeposit: nat, flags: set<string>, paused: bool,
    log: seq<Issue>, mark: nat, previous: nat, top: nat)

  function Deploy(now: nat, cap: nat, maxPerDeposit: nat): Token {
    Token(cap, 0, now, maxPerDeposit, {}, false, [], 0, 0, cap)
  }

  function Reset(t: Token, now: nat): Token {
    if now >= t.lastReset + DAY then t.(mintedToday := 0, lastReset := now, previous := t.mark, mark := |t.log|) else t
  }

  predicate Accepts(t: Token, now: nat, key: string, amount: nat) {
    !t.paused && key !in t.flags && amount <= t.maxPerDeposit && Reset(t, now).mintedToday + amount <= t.cap
  }

  /** A mint call by the owner; a rejected call reverts every change. */
  function Mint(t: Token, now: nat, key: string, amount: nat): Token {
    if !Accepts(t, now, key, amount) then t
    else
      var r := Reset(t, now);
      r.(flags := r.flags + {key}, mintedToday := r.mintedToday + amount, log := r.log + [Issue(now, key, amount)])
  }

  /** The contract object; the caller is the owner. */
  class WrappedDil {
    var dailyMintCap: nat
    var mintedToday: nat
    var lastMintReset: nat
    var maxPerDeposit: nat
    var minted: set<string>
    var paused: bool
    ghost var log: seq<Issue>
    ghost var mark: nat
    ghost var previous: nat
    ghost var top: nat

    ghost function View(): Token
      reads this
    {
      Token(dailyMintCap, mintedToday, lastMintReset, maxPerDeposit, minted, paused, log, mark, previous, top)
    }

    constructor (now: nat, cap: nat, max: nat)
      ensures View() == Deploy(now, cap, max)
    {
      dailyMintCap, mintedToday, lastMintReset, maxPerDeposit, minted, paused := cap, 0, now, max, {}, false;
      log, mark, previous, top := [], 0, 0, cap;
    }

    method ResetDailyMint(now: nat)
      modifies this
      ensures View() == Reset(old(View()), now)
    {
      if now >= lastMintReset + DAY {
        mintedToday, lastMintReset := 0, now;
        previous, mark := mark, |log|;
      }
    }

    /** Checks in the order of the source; `ok` is false when a check reverts the call. */
    method MintTo(now: nat, key: string, amount: nat) returns (ok: bool)
      modifies this
      ensures ok <==> Accepts(old(View()), now, key, amount)
      ensures View() == Mint(old(View()), now, key, amount)
    {
      if paused || key in minted || amount > maxPerDeposit { return false; }
      var today, reset := mintedToday, lastMintReset;
      ghost var m, p := mark, previous;
      ResetDailyMint(now);
      if mintedToday + amount > dailyMintCap {
        mintedToday, lastMintReset := today, reset;
        mark, previous := m, p;
        return false;
      }
      minted := minted + {key};
      mintedToday := mintedToday + amount;
      log := log + [Issue(now, key, amount)];
      ok := true;
    }

    method SetDailyMintCap(cap: nat)
      modifies this
      ensures View() == old(View()).(cap := cap, top := if cap > old(top) then cap else old(top))
    {
      dailyMintCap := cap;
      if cap > top { top := cap; }
    }
  }

  // ---- Runs of calls ----

  datatype Call =
    | MintCall(now: nat, key: string, amount: nat)
    | SetCap(newCap: nat)
    | SetMax(newMax: nat)
    | Pause
    | Unpause

  function Apply(t: Token, c: Call): Token {
    match c
    case MintCall(now, key, amount) => Mint(t, now, key, amount)
    case SetCap(cap) => t.(cap := cap, top := if cap > t.top then cap else t.top)
    case SetMax(max) => t.(maxPerDeposit := max)
    case Pause => t.(paused := true)
    case Unpause => t.(paused := false)
  }

  function Run(t: Token, cs: seq<Call>): Token {
    if cs == [] then t else Apply(Run(t, cs[..|cs| - 1]), cs[|cs| - 1])
  }

  /** Block timestamps never decrease and start at deployment. */
  ghost predicate Timely(start: nat, cs: seq<Call>) {
    && (forall i | 0 <= i < |cs| && cs[i].MintCall? :: start <= cs[i].now)
    && (forall i, j | 0 <= i < j < |cs| && cs[i].MintCall? && cs[j].MintCall? :: cs[i].now <= cs[j].now)
  }

  function Sum(log: seq<Issue>): nat {
    if log == [] then 0 else Sum(log[..|log| - 1]) + log[|log| - 1].amount
  }

  /** If two mints are less than 24 hours apart, they and all between them issued at most `limit`. */
  ghost predicate Bounded(log: seq<Issue>, limit: nat, i: nat, j: nat)
    requires i <= j < |log|
  {
    log[j].time < log[i].time + DAY ==> Sum(log[i..j + 1]) <= limit
  }

  ghost predicate AllBounded(log: seq<Issue>, limit: nat) {
    forall i, j {:trigger Bounded(log, limit, i, j)} | 0 <= i <= j < |log| :: Bounded(log, limit, i, j)
  }

  /** What the present and the preceding period issued. */
  ghost predicate Counts(t: Token) {
    && t.previous <= t.mark <= |t.log| && t.cap <= t.top
    && Sum(t.log[t.mark..]) == t.mintedToday <= t.top
    && Sum(t.log[t.previous..t.mark]) <= t.top
  }

  /** When they issued it: a period ends before the next begins, and two periods back is a day back. */
  ghost predicate Times(t: Token) {
    && t.previous <= t.mark <= |t.log|
    && (forall i | 0 <= i < t.previous :: t.log[i].time + DAY <= t.lastReset)
    && (forall i | 0 <= i < t.mark :: t.log[i].time <= t.lastReset)
    && (forall i | t.mark <= i < |t.log| :: t.lastReset <= t.log[i].time)
  }

  ghost predicate Periods(t: Token) {
    Counts(t) && Times(t)
  }

  /** No key twice, and every key flagged. */
  ghost predicate Keys(log: seq<Issue>, flags: set<string>) {
    && (forall i, j | 0 <= i < j < |log| :: log[i].key != log[j].key)
    && (forall i | 0 <= i < |log| :: log[i].key in flags)
  }

  ghost predicate Inv(t: Token) {
    Periods(t) && AllBounded(t.log, 2 * t.top) && Keys(t.log, t.flags)
  }

  lemma {:induction false} SumAppend(a: seq<Issue>, b: seq<Issue>)
    ensures Sum(a + b) == Sum(a) + Sum(b)
    decreases |b|
  {
    if b == [] {
      assert a + b == a;
    } else {
      assert (a + b)[..|a + b| - 1] == a + b[..|b| - 1];
      SumAppend(a, b[..|b| - 1]);
    }
  }

  lemma SumSnoc(log: seq<Issue>, e: Issue)
    ensures Sum(log + [e]) == Sum(log) + e.amount
  {
    assert (log + [e])[..|log|] == log;
  }

  lemma SumSuffix(log: seq<Issue>, i: nat, j: nat)
    requires i <= j <= |log|
    ensures Sum(log[i..]) == Sum(log[i..j]) + Sum(log[j..])
  {
    assert log[i..] == log[i..j] + log[j..];
    SumAppend(log[i..j], log[j..]);
  }

  /** Where time stands after a run: no later than its last call. */
  ghost predicate NotAfter(t: Token, now: nat) {
    t.lastReset <= now && forall i | 0 <= i < |t.log| :: t.log[i].time <= now
  }

  lemma ResetKeepsPeriods(t: Token, now: nat)
    requires Periods(t) && NotAfter(t, now)
    ensures Periods(Reset(t, now))
  {
    if now >= t.lastReset + DAY {
      assert t.log[|t.log|..] == [];
      assert t.log[t.mark..|t.log|] == t.log[t.mark..];
    }
  }

  lemma IssueKeepsCounts(t: Token, e: Issue)
    requires Counts(t) && t.mintedToday + e.amount <= t.top
    ensures Counts(t.(mintedToday := t.mintedToday + e.amount, log := t.log + [e]))
  {
    var log := t.log + [e];
    assert log[t.mark..] == t.log[t.mark..] + [e];
    SumSnoc(t.log[t.mark..], e);
    assert log[t.previous..t.mark] == t.log[t.previous..t.mark];
  }

  lemma IssueKeepsPeriods(t: Token, e: Issue)
    requires Periods(t) && t.mintedToday + e.amount <= t.top && t.lastReset <= e.time
    ensures Periods(t.(mintedToday := t.mintedToday + e.amount, log := t.log + [e]))
  {
    IssueKeepsCounts(t, e);
  }

  /** A day that reaches back past the present period reaches into the preceding one only. */
  lemma LastDayBounded(t: Token, i: nat)
    requires Periods(t) && i < |t.log| && t.mark < |t.log|
    ensures LastBounded(t.log, 2 * t.top, i)
  {
    if t.log[|t.log| - 1].time < t.log[i].time + DAY {
      assert i >= t.previous;
      if i < t.mark {
        SumSuffix(t.log, t.previous, i);
        SumSuffix(t.log, i, t.mark);
        SumSuffix(t.log, t.previous, t.mark);
      } else {
        SumSuffix(t.log, t.mark, i);
      }
    }
  }

  /** The day that ends with the newest mint, from any mint `i` on. */
  ghost predicate LastBounded(log: seq<Issue>, limit: nat, i: nat)
    requires i < |log|
  {
    log[|log| - 1].time < log[i].time + DAY ==> Sum(log[i..]) <= limit
  }

  lemma BoundedGrows(log: seq<Issue>, e: Issue, limit: nat)
    requires AllBounded(log, limit)
    requires forall i {:trigger LastBounded(log + [e], limit, i)} | 0 <= i <= |log| :: LastBounded(log + [e], limit, i)
    ensures AllBounded(log + [e], limit)
  {
    var log' := log + [e];
    forall i, j | 0 <= i <= j < |log'| ensures Bounded(log', limit, i, j) {
      if j < |log| {
        assert Bounded(log, limit, i, j);
        assert log'[i..j + 1] == log[i..j + 1];
      } else {
        assert LastBounded(log', limit, i);
        assert log'[i..j + 1] == log'[i..];
      }
    }
  }

  lemma KeysGrow(log: seq<Issue>, flags: set<string>, e: Issue)
    requires Keys(log, flags) && e.key !in flags
    ensures Keys(log + [e], flags + {e.key})
  {
  }

  lemma FlaggingKeepsPeriods(t: Token, flags: set<string>)
    requires Periods(t)
    ensures Periods(t.(flags := flags))
  {
  }

  lemma MintKeepsInv(t: Token, now: nat, key: string, amount: nat)
    requires Inv(t) && NotAfter(t, now)
    ensures Inv(Mint(t, now, key, amount))
  {
    if Accepts(t, now, key, amount) {
      var r, e := Reset(t, now), Issue(now, key, amount);
      ResetKeepsPeriods(t, now);
      var r' := r.(mintedToday := r.mintedToday + amount, log := r.log + [e]);
      IssueKeepsPeriods(r, e);
      forall i | 0 <= i <= |t.log| ensures LastBounded(t.log + [e], 2 * t.top, i) {
        LastDayBounded(r', i);
      }
      BoundedGrows(t.log, e, 2 * t.top);
      KeysGrow(t.log, t.flags, e);
      FlaggingKeepsPeriods(r', t.flags + {key});
    }
  }

  lemma RaisingKeepsBounds(log: seq<Issue>, limit: nat, limit': nat)
    requires AllBounded(log, limit) && limit <= limit'
    ensures AllBounded(log, limit')
  {
    forall i, j | 0 <= i <= j < |log| ensures Bounded(log, limit', i, j) {
      assert Bounded(log, limit, i, j);
    }
  }

  lemma OwnerKeepsInv(t: Token, c: Call, now: nat)
    requires Inv(t) && NotAfter(t, now) && !c.MintCall?
    ensures Inv(Apply(t, c)) && NotAfter(Apply(t, c), now)
  {
    if c.SetCap? {
      RaisingKeepsBounds(t.log, 2 * t.top, 2 * Apply(t, c).top);
    }
  }

  lemma MintKeepsClock(t: Token, clock: nat, now: nat, key: string, amount: nat)
    requires NotAfter(t, clock) && clock <= now
    ensures NotAfter(t, now) && NotAfter(Mint(t, now, key, amount), now)
  {
  }

  lemma {:induction false} ClockHolds(start: nat, cap: nat, max: nat, cs: seq<Call>, now: nat)
    requires Timely(start, cs) && start <= now && forall i | 0 <= i < |cs| && cs[i].MintCall? :: cs[i].now <= now
    ensures NotAfter(Run(Deploy(start, cap, max), cs), now)
    decreases |cs|
  {
    if cs != [] {
      ClockHolds(start, cap, max, cs[..|cs| - 1], now);
    }
  }

  /** In every run: no key is minted twice, each counting period stays within the cap, and any mints less
      than 24 hours apart add up to at most twice the greatest cap in force. */
  lemma {:induction false} DailyLimit(start: nat, cap: nat, max: nat, cs: seq<Call>)
    requires Timely(start, cs)
    ensures Inv(Run(Deploy(start, cap, max), cs))
    decreases |cs|
  {
    if cs != [] {
      var init, c := cs[..|cs| - 1], cs[|cs| - 1];
      DailyLimit(start, cap, max, init);
      var t := Run(Deploy(start, cap, max), init);
      match c
      case MintCall(now, key, amount) =>
        ClockHolds(start, cap, max, init, now);
        MintKeepsInv(t, now, key, amount);
      case SetCap(newCap) => RaisingKeepsBounds(t.log, 2 * t.top, 2 * Apply(t, c).top);
      case _ =>
    }
  }

  // ---- The limits in force ----

  /** The per-deposit limit after the calls: the last one set. */
  function LimitIn(max: nat, cs: seq<Call>): nat {
    if cs == [] then max
    else if cs[|cs| - 1].SetMax? then cs[|cs| - 1].newMax
    else LimitIn(max, cs[..|cs| - 1])
  }

  function CapIn(cap: nat, cs: seq<Call>): nat {
    if cs == [] then cap
    else if cs[|cs| - 1].SetCap? then cs[|cs| - 1].newCap
    else CapIn(cap, cs[..|cs| - 1])
  }

  /** Paused after the calls, the contract starting unpaused. */
  predicate PausedIn(cs: seq<Call>) {
    cs != [] &&
    (cs[|cs| - 1].Pause? || (!cs[|cs| - 1].Unpause? && PausedIn(cs[..|cs| - 1])))
  }

  ghost predicate Issued(log: seq<Issue>, key: string) {
    exists i | 0 <= i < |log| :: log[i].key == key
  }

  lemma IssuedSnoc(log: seq<Issue>, e: Issue, key: string)
    ensures Issued(log + [e], key) <==> Issued(log, key) || e.key == key
  {
    if Issued(log, key) {
      var i :| 0 <= i < |log| && log[i].key == key;
      assert (log + [e])[i].key == key;
    }
    assert (log + [e])[|log|] == e;
  }

  lemma {:induction false} InForce(start: nat, cap: nat, max: nat, cs: seq<Call>)
    ensures var t := Run(Deploy(start, cap, max), cs);
            && t.maxPerDeposit == LimitIn(max, cs) && t.cap == CapIn(cap, cs) && (t.paused <==> PausedIn(cs))
            && forall key {:trigger key in t.flags} :: key in t.flags <==> Issued(t.log, key)
    decreases |cs|
  {
    if cs != [] {
      var init, c := cs[..|cs| - 1], cs[|cs| - 1];
      InForce(start, cap, max, init);
      if c.MintCall? {
        forall key ensures Issued(Run(Deploy(start, cap, max), init).log + [Issue(c.now, c.key, c.amount)], key) <==>
                           Issued(Run(Deploy(start, cap, max), init).log, key) || key == c.key
        {
          IssuedSnoc(Run(Deploy(start, cap, max), init).log, Issue(c.now, c.key, c.amount), key);
        }
      }
    }
  }

  /** Acceptance by the history alone: after any calls a mint goes through if and only if the last of the pauses and
      unpauses was no pause, its key was never issued, and it is within the limit last set and, with what its
      counting period has issued, within the cap last set. */
  lemma AcceptedExact(start: nat, cap: nat, max: nat, cs: seq<Call>, now: nat, key: string, amount: nat)
    requires Timely(start, cs)
    ensures var t := Run(Deploy(start, cap, max), cs);
            && t.mark <= |t.log|
            && var period := if now >= t.lastReset + DAY then [] else t.log[t.mark..];
               Accepts(t, now, key, amount) <==>
               && !PausedIn(cs) && !Issued(t.log, key) && amount <= LimitIn(max, cs)
               && Sum(period) + amount <= CapIn(cap, cs)
  {
    InForce(start, cap, max, cs);
    DailyLimit(start, cap, max, cs);
  }

  /** The call that made an issue: it was within the limit then in force and did not come while paused. */
  predicate MadeBy(max: nat, cs: seq<Call>, e: Issue, i: nat) {
    && i < |cs| && cs[i] == MintCall(e.time, e.key, e.amount)
    && e.amount <= LimitIn(max, cs[..i]) && !PausedIn(cs[..i])
  }

  /** In every run each issue was made by such a call. */
  lemma {:induction false} IssuesInForce(start: nat, cap: nat, max: nat, cs: seq<Call>, j: nat) returns (i: nat)
    requires j < |Run(Deploy(start, cap, max), cs).log|
    ensures MadeBy(max, cs, Run(Deploy(start, cap, max), cs).log[j], i)
    decreases |cs|
  {
    var init := cs[..|cs| - 1];
    var log := Run(Deploy(start, cap, max), init).log;
    if j < |log| {
      i := IssuesInForce(start, cap, max, init, j);
      assert cs[..i] == init[..i];
    } else {
      i := |init|;
      InForce(start, cap, max, init);
    }
  }

  // ---- Filling a period ----

  /** Mint calls only, all in the same block time. */
  predicate AllAt(cs: seq<Call>, now: nat) {
    forall i | 0 <= i < |cs| :: cs[i].MintCall? && cs[i].now == now
  }

  /** There is always a key that was never used. */
  lemma FreshKey(flags: set<string>) returns (key: string)
    ensures key !in flags
  {
    var todo: set<string>, n: nat := flags, 0;
    while todo != {}
      invariant todo <= flags && forall f | f in flags - todo :: |f| < n
      decreases |todo|
    {
      var f :| f in todo;
      if |f| >= n {
        n := |f| + 1;
      }
      todo := todo - {f};
    }
    key := seq(n, _ => 'x');
    assert flags - todo == flags;
  }

  /** What `m` units minted at `now` make of a token: a longer log and a higher count, nothing else. */
  ghost predicate Filled(t: Token, now: nat, m: nat, t': Token) {
    && t'.cap == t.cap && t'.top == t.top && t'.maxPerDeposit == t.maxPerDeposit && t'.paused == t.paused
    && Reset(t', now).mintedToday == Reset(t, now).mintedToday + m
    && Reset(t', now).lastReset == Reset(t, now).lastReset && (m > 0 ==> now < t'.lastReset + DAY)
    && |t'.log| == |t.log| + m && t'.log[..|t.log|] == t.log
    && forall i | |t.log| <= i < |t'.log| :: t'.log[i].time == now && t'.log[i].amount == 1
  }

  lemma UnitMint(t: Token, now: nat, key: string)
    requires !t.paused && t.maxPerDeposit >= 1 && key !in t.flags && Reset(t, now).mintedToday + 1 <= t.cap
    ensures Filled(t, now, 1, Mint(t, now, key, 1))
  {
    var t' := Mint(t, now, key, 1);
    assert t'.log == t.log + [Issue(now, key, 1)];
  }

  lemma FilledStep(t: Token, now: nat, m: nat, t1: Token, t2: Token)
    requires Filled(t, now, m, t1) && Filled(t1, now, 1, t2)
    ensures Filled(t, now, m + 1, t2)
  {
    assert t2.log[..|t.log|] == t2.log[..|t1.log|][..|t.log|];
    forall i | |t.log| <= i < |t2.log| ensures t2.log[i].time == now && t2.log[i].amount == 1 {
      assert i < |t1.log| ==> t2.log[i] == t2.log[..|t1.log|][i];
    }
  }

  lemma RunSnoc(t: Token, cs: seq<Call>, c: Call)
    ensures Run(t, cs + [c]) == Apply(Run(t, cs), c)
  {
    assert (cs + [c])[..|cs|] == cs;
  }

  /** Whatever the per-deposit limit, any amount up to the cap can be minted at one time. */
  lemma {:induction false} FillPeriod(t: Token, now: nat, m: nat) returns (cs: seq<Call>)
    requires !t.paused && t.maxPerDeposit >= 1 && Reset(t, now).mintedToday + m <= t.cap
    ensures AllAt(cs, now) && Filled(t, now, m, Run(t, cs))
    decreases m
  {
    if m == 0 {
      cs := [];
    } else {
      var cs0 := FillPeriod(t, now, m - 1);
      var t1 := Run(t, cs0);
      var key := FreshKey(t1.flags);
      UnitMint(t1, now, key);
      RunSnoc(t, cs0, MintCall(now, key, 1));
      cs := cs0 + [MintCall(now, key, 1)];
      FilledStep(t, now, m - 1, t1, Run(t, cs));
    }
  }

  lemma {:induction false} SumOnes(log: seq<Issue>)
    requires forall i | 0 <= i < |log| :: log[i].amount == 1
    ensures Sum(log) == |log|
  {
    if log != [] {
      SumOnes(log[..|log| - 1]);
    }
  }

  lemma FilledSum(t: Token, now: nat, m: nat, t': Token, i: nat)
    requires Filled(t, now, m, t') && i <= |t.log|
    ensures Sum(t'.log[i..]) == Sum(t.log[i..]) + m
  {
    var n := |t.log|;
    SumSuffix(t'.log, i, n);
    assert t'.log[i..n] == t'.log[..n][i..] == t.log[i..];
    SumOnes(t'.log[n..]);
  }

  lemma {:induction false} RunsAppend(t: Token, cs: seq<Call>, more: seq<Call>)
    ensures Run(t, cs + more) == Run(Run(t, cs), more)
    decreases |more|
  {
    if more == [] {
      assert cs + more == cs;
    } else {
      RunsAppend(t, cs, more[..|more| - 1]);
      assert (cs + more)[..|cs + more| - 1] == cs + more[..|more| - 1];
    }
  }

  /** The factor two is reached, for every cap and every positive per-deposit limit: a full cap before a period
      ends and another, less than 24 hours later, once it has ended. */
  lemma TwiceTheCap(start: nat, cap: nat, max: nat, before: nat, after: nat) returns (cs: seq<Call>)
    requires max >= 1 && start <= before < start + DAY <= after < before + DAY
    ensures Timely(start, cs)
    ensures var t := Run(Deploy(start, cap, max), cs);
            && t.top == cap && Sum(t.log) == 2 * cap
            && forall i | 0 <= i < |t.log| :: before <= t.log[i].time <= after
  {
    var t := Deploy(start, cap, max);
    if cap == 0 { return []; }
    var first := FillPeriod(t, before, cap);
    var t1 := Run(t, first);
    FilledSum(t, before, cap, t1, 0);
    assert t.log[0..] == [] && t1.log[0..] == t1.log;
    assert Reset(t1, after).mintedToday == 0;
    var second := FillPeriod(t1, after, cap);
    var t2 := Run(t1, second);
    FilledSum(t1, after, cap, t2, 0);
    assert t2.log[0..] == t2.log;
    RunsAppend(t, first, second);
    cs := first + second;
    forall i | 0 <= i < |t2.log| ensures before <= t2.log[i].time <= after {
      assert i < |t1.log| ==> t2.log[i] == t2.log[..|t1.log|][i];
    }
  }

  // ---- When one cap suffices ----

  /** A new period may start: it is no day since the last one, or a day since the last positive mint. */
  ghost predicate Spaced(t: Token, now: nat) {
    now >= t.lastReset + DAY ==> forall i | 0 <= i < |t.log| && t.log[i].amount > 0 :: t.log[i].time + DAY <= now
  }

  ghost predicate Ordered(log: seq<Issue>) {
    forall i, j | 0 <= i <= j < |log| :: log[i].time <= log[j].time
  }

  /** Every period so far started a day after the last positive mint before it. */
  ghost predicate Gap(t: Token) {
    t.mark <= |t.log| && forall i | 0 <= i < t.mark && t.log[i].amount > 0 :: t.log[i].time + DAY <= t.lastReset
  }

  /** What the comment on the cap promises: no 24 hours issue more than the greatest cap in force. */
  ghost predicate OneCap(t: Token) {
    Gap(t) && Ordered(t.log) && AllBounded(t.log, t.top)
  }

  lemma {:induction false} SumZero(log: seq<Issue>)
    requires forall i | 0 <= i < |log| :: log[i].amount == 0
    ensures Sum(log) == 0
  {
    if log != [] {
      SumZero(log[..|log| - 1]);
    }
  }

  /** In the last day, the mints before the present period are all zero. */
  lemma LastDayWithinCap(t: Token, i: nat)
    requires Periods(t) && Gap(t) && Ordered(t.log) && i < |t.log| && t.mark < |t.log|
    ensures LastBounded(t.log, t.top, i)
  {
    if t.log[|t.log| - 1].time < t.log[i].time + DAY {
      if i < t.mark {
        var earlier := t.log[i..t.mark];
        forall k | 0 <= k < |earlier| ensures earlier[k].amount == 0 {
          assert earlier[k] == t.log[i + k];
        }
        SumZero(earlier);
        SumSuffix(t.log, i, t.mark);
      } else {
        SumSuffix(t.log, t.mark, i);
      }
    }
  }

  lemma OrderedGrows(log: seq<Issue>, e: Issue)
    requires Ordered(log) && forall i | 0 <= i < |log| :: log[i].time <= e.time
    ensures Ordered(log + [e])
  {
  }

  lemma ResetKeepsGap(t: Token, now: nat)
    requires Gap(t) && Spaced(t, now)
    ensures Gap(Reset(t, now))
  {
  }

  lemma MintKeepsOneCap(t: Token, now: nat, key: string, amount: nat)
    requires Periods(t) && OneCap(t) && NotAfter(t, now) && Spaced(t, now)
    ensures OneCap(Mint(t, now, key, amount))
  {
    if Accepts(t, now, key, amount) {
      var r, e := Reset(t, now), Issue(now, key, amount);
      var r' := r.(mintedToday := r.mintedToday + amount, log := r.log + [e]);
      ResetKeepsPeriods(t, now);
      IssueKeepsPeriods(r, e);
      ResetKeepsGap(t, now);
      OrderedGrows(t.log, e);
      assert Gap(r');
      forall i | 0 <= i <= |t.log| ensures LastBounded(t.log + [e], t.top, i) {
        LastDayWithinCap(r', i);
      }
      BoundedGrows(t.log, e, t.top);
    }
  }

  lemma {:induction false} SumAtLeast(log: seq<Issue>, k: nat)
    requires k < |log|
    ensures Sum(log) >= log[k].amount
  {
    if k < |log| - 1 {
      SumAtLeast(log[..|log| - 1], k);
    }
  }

  /** A positive mint is itself within the cap, so the cap is positive. */
  lemma PositiveCap(t: Token, i: nat)
    requires AllBounded(t.log, t.top) && i < |t.log| && t.log[i].amount > 0
    ensures t.top >= 1
  {
    assert Bounded(t.log, t.top, i, i);
    SumAtLeast(t.log[i..i + 1], 0);
  }

  /** A cap filled at a badly spaced reset exceeds the cap together with the positive mint it follows. */
  lemma UnspacedExceeds(t: Token, now: nat) returns (cs: seq<Call>)
    requires OneCap(t) && !Spaced(t, now) && !t.paused && t.maxPerDeposit >= 1 && t.cap == t.top
    ensures AllAt(cs, now) && !AllBounded(Run(t, cs).log, t.top)
  {
    var i :| 0 <= i < |t.log| && t.log[i].amount > 0 && t.log[i].time + DAY > now;
    PositiveCap(t, i);
    cs := FillPeriod(t, now, t.cap);
    var t' := Run(t, cs);
    var n := |t'.log| - 1;
    FilledSum(t, now, t.cap, t', i);
    SumAtLeast(t.log[i..], 0);
    assert t'.log[i] == t'.log[..|t.log|][i] == t.log[i];
    assert t'.log[i..n + 1] == t'.log[i..];
    assert !Bounded(t'.log, t.top, i, n);
  }

  lemma MintKeepsSpaced(t: Token, now: nat, key: string, amount: nat)
    requires Spaced(t, now) && NotAfter(t, now)
    ensures Spaced(Mint(t, now, key, amount), now) && NotAfter(Mint(t, now, key, amount), now)
  {
  }

  lemma {:induction false} SpacedRuns(t: Token, now: nat, cs: seq<Call>)
    requires Inv(t) && OneCap(t) && NotAfter(t, now) && Spaced(t, now) && AllAt(cs, now)
    ensures var t' := Run(t, cs); Inv(t') && OneCap(t') && NotAfter(t', now) && Spaced(t', now) && t'.top == t.top
    decreases |cs|
  {
    if cs != [] {
      var init, c := cs[..|cs| - 1], cs[|cs| - 1];
      SpacedRuns(t, now, init);
      var t0 := Run(t, init);
      MintKeepsInv(t0, now, c.key, c.amount);
      MintKeepsOneCap(t0, now, c.key, c.amount);
      MintKeepsSpaced(t0, now, c.key, c.amount);
    }
  }

  /** Exactly when one cap bounds 24 hours: whatever is minted at `now`, in however many calls, the bound
      survives if and only if no period starts at `now` less than a day after a positive mint. */
  lemma OneCapExact(t: Token, now: nat)
    requires Inv(t) && OneCap(t) && NotAfter(t, now) && !t.paused && t.maxPerDeposit >= 1 && t.cap == t.top
    ensures (forall cs: seq<Call> | AllAt(cs, now) :: AllBounded(Run(t, cs).log, t.top)) <==> Spaced(t, now)
  {
    if Spaced(t, now) {
      forall cs: seq<Call> | AllAt(cs, now) ensures AllBounded(Run(t, cs).log, t.top) {
        SpacedRuns(t, now, cs);
      }
    } else {
      var cs := UnspacedExceeds(t, now);
      assert AllAt(cs, now);
    }
  }

  ghost predicate AllSpaced(t: Token, cs: seq<Call>) {
    cs == [] ||
    var init, c := cs[..|cs| - 1], cs[|cs| - 1];
    AllSpaced(t, init) && (c.MintCall? ==> Spaced(Run(t, init), c.now))
  }

  /** The promise over whole runs: with every reset a day after the last positive mint, no 24 hours issue
      more than the greatest cap in force. */
  lemma {:induction false} OneCapPerDay(start: nat, cap: nat, max: nat, cs: seq<Call>)
    requires Timely(start, cs) && AllSpaced(Deploy(start, cap, max), cs)
    ensures OneCap(Run(Deploy(start, cap, max), cs))
    decreases |cs|
  {
    if cs != [] {
      var init, c := cs[..|cs| - 1], cs[|cs| - 1];
      OneCapPerDay(start, cap, max, init);
      DailyLimit(start, cap, max, init);
      var t := Run(Deploy(start, cap, max), init);
      match c
      case MintCall(now, key, amount) =>
        ClockHolds(start, cap, max, init, now);
        MintKeepsOneCap(t, now, key, amount);
      case SetCap(newCap) => RaisingKeepsBounds(t.log, t.top, Apply(t, c).top);
      case _ =>
    }
  }
}
