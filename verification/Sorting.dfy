/** Stable descending order by a key, as a library sort gives it. */
module Sorting {
  ghost predicate Descending<T>(key: T -> int, s: seq<T>) {
    forall i, j | 0 <= i < j < |s| :: key(s[i]) >= key(s[j])
  }

  /** Puts `x` before the trailing run of smaller ones. */
  function Insert<T>(key: T -> int, x: T, s: seq<T>): seq<T> {
    if s == [] then [x]
    else if key(s[|s| - 1]) >= key(x) then s + [x]
    else Insert(key, x, s[..|s| - 1]) + [s[|s| - 1]]
  }

  function Sort<T>(key: T -> int, s: seq<T>): seq<T> {
    if s == [] then [] else Insert(key, s[|s| - 1], Sort(key, s[..|s| - 1]))
  }

  lemma MultisetSnoc<T>(s: seq<T>)
    requires s != []
    ensures multiset(s) == multiset(s[..|s| - 1]) + multiset{s[|s| - 1]}
  {
    assert s == s[..|s| - 1] + [s[|s| - 1]];
  }

  lemma {:induction false} InsertAdds<T>(key: T -> int, x: T, s: seq<T>)
    ensures multiset(Insert(key, x, s)) == multiset(s) + multiset{x}
    decreases |s|
  {
    if s != [] {
      InsertAdds(key, x, s[..|s| - 1]);
      MultisetSnoc(s);
    }
  }

  lemma {:induction false} InsertDescends<T>(key: T -> int, x: T, s: seq<T>)
    requires Descending(key, s)
    ensures var r := Insert(key, x, s); Descending(key, r) && forall i | 0 <= i < |r| :: r[i] == x || r[i] in s
    decreases |s|
  {
    if s != [] && key(s[|s| - 1]) < key(x) {
      InsertDescends(key, x, s[..|s| - 1]);
    }
  }

  lemma {:induction false} Descends<T>(key: T -> int, s: seq<T>)
    ensures Descending(key, Sort(key, s))
    decreases |s|
  {
    if s != [] {
      Descends(key, s[..|s| - 1]);
      InsertDescends(key, s[|s| - 1], Sort(key, s[..|s| - 1]));
    }
  }

  lemma {:induction false} Permutes<T>(key: T -> int, s: seq<T>)
    ensures multiset(Sort(key, s)) == multiset(s)
    decreases |s|
  {
    if s != [] {
      var init, last := s[..|s| - 1], s[|s| - 1];
      assert multiset(Sort(key, init)) == multiset(init) by { Permutes(key, init); }
      var t := Sort(key, init);
      assert Sort(key, s) == Insert(key, last, t);
      InsertAdds(key, last, t);
      MultisetSnoc(s);
    }
  }

  /** The elements with key `k`, in order. */
  function Having<T>(key: T -> int, k: int, s: seq<T>): seq<T> {
    if s == [] then []
    else Having(key, k, s[..|s| - 1]) + if key(s[|s| - 1]) == k then [s[|s| - 1]] else []
  }

  lemma HavingSnoc<T>(key: T -> int, k: int, s: seq<T>, x: T)
    ensures Having(key, k, s + [x]) == Having(key, k, s) + if key(x) == k then [x] else []
  {
    assert (s + [x])[..|s|] == s;
  }

  lemma {:induction false} InsertStable<T>(key: T -> int, k: int, x: T, s: seq<T>)
    ensures Having(key, k, Insert(key, x, s)) == Having(key, k, s) + if key(x) == k then [x] else []
    decreases |s|
  {
    if s == [] {
      HavingSnoc(key, k, [], x);
      assert [] + [x] == [x];
    } else if key(s[|s| - 1]) >= key(x) {
      HavingSnoc(key, k, s, x);
    } else {
      InsertStable(key, k, x, s[..|s| - 1]);
      HavingSnoc(key, k, Insert(key, x, s[..|s| - 1]), s[|s| - 1]);
    }
  }

  /** Elements with equal keys keep their order. */
  lemma {:induction false} Stable<T>(key: T -> int, k: int, s: seq<T>)
    ensures Having(key, k, Sort(key, s)) == Having(key, k, s)
    decreases |s|
  {
    if s != [] {
      Stable(key, k, s[..|s| - 1]);
      InsertStable(key, k, s[|s| - 1], Sort(key, s[..|s| - 1]));
    }
  }
}
