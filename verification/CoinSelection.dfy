/** Choosing the inputs of a bridge deposit: largest first, then a fee for the inputs actually taken. */
module CoinSelection {
  import opened Sorting

  const INPUT_SIZE: int := 5400
  const OVERHEAD: int := 200
  const FEE_RATE: int := 6
  const OP_RETURN_VALUE: int := 50000
  const BUFFER: int := 1000

  datatype Utxo = Utxo(txid: string, vout: nat, amount: nat, address: string)

  /** `NoInput`: nothing was selected although nothing was needed; the program stops on an index error. */
  datatype Outcome =
    | Planned(selected: seq<Utxo>, fee: int, change: int)
    | Insufficient(have: int, need: int)
    | NoInput

  function Total(s: seq<Utxo>): nat {
    if s == [] then 0 else Total(s[..|s| - 1]) + s[|s| - 1].amount
  }

  // ---- Candidates, largest first ----

  function Candidates(utxos: seq<Utxo>, bridge: string): (r: seq<Utxo>)
    ensures multiset(r) <= multiset(utxos)
    ensures forall u :: u in r <==> u in utxos && u.address != bridge
  {
    if utxos == [] then []
    else
      var init, last := utxos[..|utxos| - 1], utxos[|utxos| - 1];
      assert utxos == init + [last];
      Candidates(init, bridge) + if last.address != bridge then [last] else []
  }

  function Amount(u: Utxo): int {
    u.amount
  }

  /** Largest first; outputs of equal amount keep their order. */
  function Sorted(s: seq<Utxo>): seq<Utxo> {
    Sort(Amount, s)
  }

  ghost predicate LargestFirst(s: seq<Utxo>) {
    forall i, j | 0 <= i < j < |s| :: s[i].amount >= s[j].amount
  }

  lemma SortedLargestFirst(s: seq<Utxo>)
    ensures LargestFirst(Sorted(s)) && multiset(Sorted(s)) == multiset(s)
  {
    Descends(Amount, s);
    var r := Sorted(s);
    forall i, j | 0 <= i < j < |r| ensures r[i].amount >= r[j].amount {
      assert Amount(r[i]) >= Amount(r[j]);
    }
    Permutes(Amount, s);
  }

  lemma SortedIsStable(s: seq<Utxo>, amount: nat)
    ensures Having(Amount, amount, Sorted(s)) == Having(Amount, amount, s)
  {
    Stable(Amount, amount, s);
  }

  lemma {:induction false} SortedAlready(s: seq<Utxo>)
    requires LargestFirst(s)
    ensures Sorted(s) == s
  {
    if s != [] {
      SortedAlready(s[..|s| - 1]);
    }
  }

  // ---- The selection ----

  function Fee(k: nat): int {
    (k * INPUT_SIZE + OVERHEAD) * FEE_RATE
  }

  function Goal(deposit: int, maxInputs: int): int {
    deposit + maxInputs * INPUT_SIZE * FEE_RATE + OP_RETURN_VALUE + BUFFER
  }

  function Limit(a: seq<Utxo>, maxInputs: int): (m: nat)
    ensures m <= |a|
  {
    if maxInputs < 0 then 0 else if maxInputs < |a| then maxInputs else |a|
  }

  /** How many of the inputs `a` are taken, when `k` have been and their sum is below the goal. */
  function StopFrom(a: seq<Utxo>, goal: int, m: nat, k: nat): (stop: nat)
    requires k <= m <= |a|
    ensures k <= stop <= m
    ensures stop < m ==> Total(a[..stop]) >= goal && stop > k
    ensures forall j | k < j < stop :: Total(a[..j]) < goal
    decreases m - k
  {
    if k == m then k else if Total(a[..k + 1]) >= goal then k + 1 else StopFrom(a, goal, m, k + 1)
  }

  function Stop(a: seq<Utxo>, deposit: int, maxInputs: int): (k: nat)
    ensures k <= Limit(a, maxInputs)
  {
    StopFrom(a, Goal(deposit, maxInputs), Limit(a, maxInputs), 0)
  }

  /** What is left of the first `k` inputs after the deposit, the marker output and the fee for `k` inputs. */
  function Surplus(a: seq<Utxo>, k: nat, deposit: int): int
    requires k <= |a|
  {
    Total(a[..k]) - deposit - OP_RETURN_VALUE - Fee(k)
  }

  function Plan(a: seq<Utxo>, deposit: int, maxInputs: int): Outcome {
    var k := Stop(a, deposit, maxInputs);
    if Surplus(a, k, deposit) < 0 then Insufficient(Total(a[..k]), deposit + Fee(k) + OP_RETURN_VALUE)
    else if k == 0 then NoInput
    else Planned(a[..k], Fee(k), Surplus(a, k, deposit))
  }

  /** The selection loop: take inputs until the goal is met or the limit is reached. */
  method TakeInputs(a: seq<Utxo>, needed: int, maxInputs: int) returns (selected: seq<Utxo>, total: nat)
    ensures selected == a[..StopFrom(a, needed, Limit(a, maxInputs), 0)] && total == Total(selected)
  {
    selected, total := [], 0;
    ghost var stop := StopFrom(a, needed, Limit(a, maxInputs), 0);
    for i := 0 to |a|
      invariant i <= Limit(a, maxInputs) && selected == a[..i] && total == Total(selected)
      invariant stop == StopFrom(a, needed, Limit(a, maxInputs), i)
    {
      if |selected| >= maxInputs { break; }
      assert a[..i + 1][..i] == a[..i];
      selected := selected + [a[i]];
      total := total + a[i].amount;
      if total >= needed { break; }
    }
  }

  /** Selection, then the funds check with the fee of the inputs taken. */
  method PlanFrom(a: seq<Utxo>, deposit: int, maxInputs: int) returns (r: Outcome)
    ensures r == Plan(a, deposit, maxInputs)
  {
    var estimate := maxInputs * INPUT_SIZE * FEE_RATE;
    var selected, total := TakeInputs(a, deposit + estimate + OP_RETURN_VALUE + BUFFER, maxInputs);
    var fee := (|selected| * INPUT_SIZE + OVERHEAD) * FEE_RATE;
    var needed := deposit + fee + OP_RETURN_VALUE;
    if total < needed { return Insufficient(total, needed); }
    if selected == [] { return NoInput; }
    r := Planned(selected, fee, total - deposit - OP_RETURN_VALUE - fee);
  }

  method SelectInputs(utxos: seq<Utxo>, bridge: string, deposit: int, maxInputs: int) returns (r: Outcome)
    ensures r == Plan(Sorted(Candidates(utxos, bridge)), deposit, maxInputs)
    ensures r.Planned? ==> Conserves(r, utxos, bridge, deposit, maxInputs)
  {
    r := PlanFrom(Sorted(Candidates(utxos, bridge)), deposit, maxInputs);
    if r.Planned? {
      PlanConserves(utxos, bridge, deposit, maxInputs);
    }
  }

  // ---- What a plan guarantees ----

  /** Inputs pay for deposit, marker output, fee and change; none is spent twice and none is the bridge's. */
  ghost predicate Conserves(p: Outcome, utxos: seq<Utxo>, bridge: string, deposit: int, maxInputs: int)
    requires p.Planned?
  {
    && Total(p.selected) == deposit + OP_RETURN_VALUE + p.fee + p.change
    && p.change >= 0 && p.fee == Fee(|p.selected|) && 1 <= |p.selected| <= maxInputs
    && multiset(p.selected) <= multiset(utxos)
    && forall u | u in p.selected :: u.address != bridge
  }

  lemma PlanFromConserves(a: seq<Utxo>, utxos: seq<Utxo>, bridge: string, deposit: int, maxInputs: int)
    requires multiset(a) <= multiset(utxos) && (forall u | u in a :: u.address != bridge)
    requires Plan(a, deposit, maxInputs).Planned?
    ensures Conserves(Plan(a, deposit, maxInputs), utxos, bridge, deposit, maxInputs)
  {
    var k := Stop(a, deposit, maxInputs);
    assert a == a[..k] + a[k..];
  }

  /** A plan conserves value, leaves no debt and spends only distinct inputs that are not the bridge's. */
  lemma PlanConserves(utxos: seq<Utxo>, bridge: string, deposit: int, maxInputs: int)
    requires Plan(Sorted(Candidates(utxos, bridge)), deposit, maxInputs).Planned?
    ensures Conserves(Plan(Sorted(Candidates(utxos, bridge)), deposit, maxInputs), utxos, bridge, deposit, maxInputs)
  {
    var c := Candidates(utxos, bridge);
    var a := Sorted(c);
    SortedLargestFirst(c);
    forall u | u in a ensures u.address != bridge {
      assert u in multiset(a);
    }
    PlanFromConserves(a, utxos, bridge, deposit, maxInputs);
  }

  // ---- Largest first is best ----

  lemma {:induction false} TotalAppend(a: seq<Utxo>, b: seq<Utxo>)
    ensures Total(a + b) == Total(a) + Total(b)
    decreases |b|
  {
    if b == [] {
      assert a + b == a;
    } else {
      assert (a + b)[..|a + b| - 1] == a + b[..|b| - 1];
      TotalAppend(a, b[..|b| - 1]);
    }
  }

  lemma TotalNext(a: seq<Utxo>, k: nat)
    requires k < |a|
    ensures Total(a[..k + 1]) == Total(a[..k]) + a[k].amount
  {
    assert a[..k + 1][..k] == a[..k];
  }

  lemma RemoveOne(x: seq<Utxo>, i: nat) returns (rest: seq<Utxo>)
    requires i < |x|
    ensures multiset(x) == multiset(rest) + multiset{x[i]} && |x| == |rest| + 1
    ensures Total(x) == Total(rest) + x[i].amount
  {
    rest := x[..i] + x[i + 1..];
    assert x == x[..i] + ([x[i]] + x[i + 1..]);
    TotalAppend(x[..i], [x[i]] + x[i + 1..]);
    TotalAppend([x[i]], x[i + 1..]);
    TotalAppend(x[..i], x[i + 1..]);
  }

  lemma DropBoth(x: multiset<Utxo>, a: multiset<Utxo>, u: Utxo)
    requires x + multiset{u} <= a + multiset{u}
    ensures x <= a
  {
    forall v ensures x[v] <= a[v] {
      assert (x + multiset{u})[v] <= (a + multiset{u})[v];
    }
  }

  lemma DropAbsent(x: multiset<Utxo>, a: multiset<Utxo>, u: Utxo)
    requires u !in x && x <= a + multiset{u}
    ensures x <= a
  {
    forall v ensures x[v] <= a[v] {
      assert x[v] <= (a + multiset{u})[v];
    }
  }

  lemma WithoutLast(a: seq<Utxo>, x: seq<Utxo>)
    requires a != [] && multiset(x) <= multiset(a) && a[|a| - 1] !in x
    ensures multiset(x) <= multiset(a[..|a| - 1])
  {
    MultisetSnoc(a);
    DropAbsent(multiset(x), multiset(a[..|a| - 1]), a[|a| - 1]);
  }

  lemma WithLast(a: seq<Utxo>, x: seq<Utxo>) returns (rest: seq<Utxo>)
    requires a != [] && multiset(x) <= multiset(a) && a[|a| - 1] in x
    ensures multiset(rest) <= multiset(a[..|a| - 1]) && |x| == |rest| + 1
    ensures Total(x) == Total(rest) + a[|a| - 1].amount
  {
    var i :| 0 <= i < |x| && x[i] == a[|a| - 1];
    rest := RemoveOne(x, i);
    MultisetSnoc(a);
    DropBoth(multiset(rest), multiset(a[..|a| - 1]), x[i]);
  }

  /** No other choice of as many inputs is worth more than the first ones. */
  lemma {:induction false} TopIsBest(a: seq<Utxo>, x: seq<Utxo>)
    requires LargestFirst(a) && multiset(x) <= multiset(a)
    ensures |x| <= |a| && Total(x) <= Total(a[..|x|])
    decreases |a|
  {
    if a == [] {
      assert multiset(x) == multiset{};
    } else {
      var init, last := a[..|a| - 1], a[|a| - 1];
      if last in x {
        var rest := WithLast(a, x);
        TopIsBest(init, rest);
        assert init[..|rest|] == a[..|rest|];
        TotalNext(a, |rest|);
      } else {
        WithoutLast(a, x);
        TopIsBest(init, x);
        assert init[..|x|] == a[..|x|];
      }
    }
  }

  lemma GreedyStop(a: seq<Utxo>, goal: int, m: nat, n: nat)
    requires 1 <= n <= m <= |a| && Total(a[..n]) >= goal
    ensures var k := StopFrom(a, goal, m, 0); Total(a[..k]) >= goal && k <= n
  {
    var k := StopFrom(a, goal, m, 0);
    assert k <= n;
    assert k == m ==> k == n;
  }

  /** The loop takes no more outputs than it must, and gives up only when it must: any choice of permitted
      size that reaches the goal has at least as many outputs as the loop takes, and the loop reaches it too. */
  lemma GreedyExact(cands: seq<Utxo>, x: seq<Utxo>, deposit: int, maxInputs: int)
    requires multiset(x) <= multiset(cands) && 1 <= |x| <= maxInputs && Total(x) >= Goal(deposit, maxInputs)
    ensures var a := Sorted(cands);
            var k := Stop(a, deposit, maxInputs);
            Total(a[..k]) >= Goal(deposit, maxInputs) && k <= |x|
  {
    var a := Sorted(cands);
    SortedLargestFirst(cands);
    TopIsBest(a, x);
    GreedyStop(a, Goal(deposit, maxInputs), Limit(a, maxInputs), |x|);
  }

  // ---- When is a deposit planned? ----

  ghost predicate Funds(cands: seq<Utxo>, x: seq<Utxo>, maxInputs: int, deposit: int) {
    multiset(x) <= multiset(cands) && 1 <= |x| <= maxInputs && Total(x) >= deposit + OP_RETURN_VALUE + Fee(|x|)
  }

  /** Some choice of at most `maxInputs` candidates pays for the deposit and its own fee. */
  ghost predicate Fundable(cands: seq<Utxo>, maxInputs: int, deposit: int) {
    exists x :: Funds(cands, x, maxInputs, deposit)
  }

  ghost predicate SomePrefixFunds(a: seq<Utxo>, m: nat, deposit: int)
    requires m <= |a|
  {
    exists k :: 1 <= k <= m && Surplus(a, k, deposit) >= 0
  }

  /** Only the largest inputs need to be considered. */
  lemma FundableExact(cands: seq<Utxo>, maxInputs: int, deposit: int)
    ensures var a := Sorted(cands);
            Fundable(cands, maxInputs, deposit) <==> SomePrefixFunds(a, Limit(a, maxInputs), deposit)
  {
    var a := Sorted(cands);
    SortedLargestFirst(cands);
    if Fundable(cands, maxInputs, deposit) {
      var x :| Funds(cands, x, maxInputs, deposit);
      TopIsBest(a, x);
      assert Surplus(a, |x|, deposit) >= 0;
    }
    if SomePrefixFunds(a, Limit(a, maxInputs), deposit) {
      var k :| 1 <= k <= Limit(a, maxInputs) && Surplus(a, k, deposit) >= 0;
      assert a == a[..k] + a[k..];
      assert Funds(cands, a[..k], maxInputs, deposit);
    }
  }

  /** The goal was met before the limit: then the fee is covered too. */
  lemma EarlyStopPays(a: seq<Utxo>, deposit: int, maxInputs: int)
    requires Stop(a, deposit, maxInputs) < Limit(a, maxInputs)
    ensures Plan(a, deposit, maxInputs).Planned?
  {
  }

  /** Meeting the goal only with the last permitted input can fall short: the buffer is 200 below the overhead's fee. */
  lemma LastInputGap(a: seq<Utxo>, deposit: int, maxInputs: int)
    requires maxInputs >= 1 && Stop(a, deposit, maxInputs) == maxInputs
    ensures Plan(a, deposit, maxInputs).Planned? <==> Total(a[..maxInputs]) >= Goal(deposit, maxInputs) + 200
  {
  }

  /** With no deposit yet, taking all permitted inputs is at least as good as any funded choice of fewer. */
  ghost predicate NoDust(a: seq<Utxo>, m: nat)
    requires m <= |a|
  {
    forall j | 1 <= j <= m && Surplus(a, j, 0) >= 0 :: Surplus(a, j, 0) <= Surplus(a, m, 0)
  }

  lemma NoDustPlans(a: seq<Utxo>, maxInputs: int, deposit: nat)
    requires NoDust(a, Limit(a, maxInputs)) && SomePrefixFunds(a, Limit(a, maxInputs), deposit)
    ensures Plan(a, deposit, maxInputs).Planned?
  {
    var m := Limit(a, maxInputs);
    var k :| 1 <= k <= m && Surplus(a, k, deposit) >= 0;
    assert Surplus(a, k, 0) == Surplus(a, k, deposit) + deposit;
    assert Surplus(a, m, 0) == Surplus(a, m, deposit) + deposit;
    if Stop(a, deposit, maxInputs) < m {
      EarlyStopPays(a, deposit, maxInputs);
    }
  }

  lemma {:induction false} BestPrefix(a: seq<Utxo>, m: nat) returns (b: nat)
    requires 1 <= m <= |a|
    ensures 1 <= b <= m && forall j | 1 <= j <= m :: Surplus(a, j, 0) <= Surplus(a, b, 0)
  {
    b := 1;
    for i := 1 to m
      invariant 1 <= b <= i && forall j | 1 <= j <= i :: Surplus(a, j, 0) <= Surplus(a, b, 0)
    {
      if Surplus(a, i + 1, 0) > Surplus(a, b, 0) {
        b := i + 1;
      }
    }
  }

  /** Otherwise the deposit that the best prefix can just pay is refused. */
  lemma DustRefuses(a: seq<Utxo>, maxInputs: int) returns (deposit: nat)
    requires !NoDust(a, Limit(a, maxInputs))
    ensures SomePrefixFunds(a, Limit(a, maxInputs), deposit) && Plan(a, deposit, maxInputs).Insufficient?
  {
    var m := Limit(a, maxInputs);
    var j :| 1 <= j <= m && Surplus(a, j, 0) >= 0 && Surplus(a, j, 0) > Surplus(a, m, 0);
    var b := BestPrefix(a, m);
    deposit := Surplus(a, b, 0);
    assert Surplus(a, b, deposit) >= 0;
    var k := Stop(a, deposit, maxInputs);
    assert k >= 1 ==> Surplus(a, k, 0) <= deposit;
    assert k == m;
  }

  /** Every deposit that could be funded is planned, exactly when the candidates carry no such dust. */
  lemma SelectionCompleteExact(cands: seq<Utxo>, maxInputs: int)
    ensures var a := Sorted(cands);
            (forall deposit: nat | Fundable(cands, maxInputs, deposit) :: Plan(a, deposit, maxInputs).Planned?)
            <==> NoDust(a, Limit(a, maxInputs))
  {
    var a := Sorted(cands);
    if NoDust(a, Limit(a, maxInputs)) {
      forall deposit: nat | Fundable(cands, maxInputs, deposit) ensures Plan(a, deposit, maxInputs).Planned? {
        FundableExact(cands, maxInputs, deposit);
        NoDustPlans(a, maxInputs, deposit);
      }
    } else {
      var deposit := DustRefuses(a, maxInputs);
      FundableExact(cands, maxInputs, deposit);
      assert Fundable(cands, maxInputs, deposit);
    }
  }

  /** Two inputs, the larger just enough by itself: the second adds 1 and costs 32400, so nothing is planned. */
  lemma DustExample()
    ensures var a := [Utxo("a", 0, 84600, "x"), Utxo("b", 0, 1, "x")];
            Sorted(a) == a && Fundable(a, 2, 1000) && Plan(a, 1000, 2).Insufficient?
  {
    var u, v := Utxo("a", 0, 84600, "x"), Utxo("b", 0, 1, "x");
    var a := [u, v];
    assert a[..1] == [u] && [u][..0] == [] && a[..2] == a;
    SortedAlready(a);
    assert Total([u]) == 84600 && Total(a) == 84601;
    assert StopFrom(a, Goal(1000, 2), 2, 0) == 2;
    assert a == [u] + [v];
    assert Funds(a, [u], 2, 1000);
  }

  /** A simple sufficient test: every permitted input is worth the fee it adds. */
  lemma {:induction false} WorthwhileInputsSuffice(a: seq<Utxo>, m: nat, j: nat)
    requires j <= m <= |a| && forall i | j <= i < m :: a[i].amount >= INPUT_SIZE * FEE_RATE
    ensures Surplus(a, j, 0) <= Surplus(a, m, 0)
    decreases m - j
  {
    if j < m {
      TotalNext(a, j);
      WorthwhileInputsSuffice(a, m, j + 1);
    }
  }
}
