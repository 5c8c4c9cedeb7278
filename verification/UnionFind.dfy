/** The address-clustering union-find: union by rank with path compression, proved to compute the
equivalence closure of the unions made. */
module UnionFind {
  import opened Wrappers
  import opened Connectivity
  import opened Forest

  function Pow2(n: nat): nat {
    if n == 0 then 1 else 2 * Pow2(n - 1)
  }

  lemma {:induction false} Pow2Monotone(m: nat, n: nat)
    requires m <= n
    ensures 1 <= Pow2(m) <= Pow2(n)
    decreases n
  {
    if m < n {
      Pow2Monotone(m, n - 1);
    } else if n > 0 {
      Pow2Monotone(m - 1, n - 1);
    }
  }

  function Members(roots: Links, r: Name): set<Name> {
    set y | y in roots && roots[y] == r
  }

  /** A tree whose root has rank k has at least 2^k members. */
  ghost predicate Bushy(roots: Links, rank: Ranks) {
    forall r {:trigger Members(roots, r)} | r in roots && roots[r] == r ::
      r in rank && |Members(roots, r)| >= Pow2(rank[r])
  }

  lemma PlantBushy(roots: Links, rank: Ranks, x: Name)
    requires Bushy(roots, rank) && x !in roots && forall y | y in roots :: roots[y] in roots
    ensures Bushy(roots[x := x], rank[x := 0])
  {
    var roots' := roots[x := x];
    assert Members(roots', x) == {x};
    forall r | r in roots && roots[r] == r ensures Members(roots', r) == Members(roots, r) {
    }
  }

  /** A tie in rank doubles the tree. */
  lemma GraftBushy(roots: Links, rank: Ranks, a: Name, b: Name, k: nat)
    requires Bushy(roots, rank) && a in roots && b in roots && roots[a] == a && roots[b] == b && a != b
    requires a in rank && b in rank && rank[a] <= rank[b] && k == if rank[a] == rank[b] then rank[b] + 1 else rank[b]
    ensures Bushy(Merged(roots, a, b), rank[b := k])
  {
    var roots' := Merged(roots, a, b);
    var ma, mb := Members(roots, a), Members(roots, b);
    assert Members(roots', b) == ma + mb && ma !! mb;
    forall r | r in roots' && roots'[r] == r && r != b ensures Members(roots', r) == Members(roots, r) {
    }
  }

  lemma LinkKeeps(p: Links, rank: Ranks, bound: nat, roots: Links, unions: Pairs,
                  x: Name, y: Name, rx: Name, ry: Name, k: nat)
    requires WellFormed(p, rank, bound, roots) && Clusters(roots, unions) && Bushy(roots, rank)
    requires x in roots && y in roots && rx in p && ry in p && rx != ry
    requires (ry == roots[x] && rx == roots[y]) || (rx == roots[x] && ry == roots[y])
    requires rank[ry] <= rank[rx] && k == if rank[ry] == rank[rx] then rank[rx] + 1 else rank[rx]
    ensures WellFormed(p[ry := rx], rank[rx := k], bound + 1, Merged(roots, ry, rx))
    ensures Clusters(Merged(roots, ry, rx), unions + [(x, y)]) && Bushy(Merged(roots, ry, rx), rank[rx := k])
  {
    assert Node(p, rank, bound, roots, rx);
    GraftForest(p, rank, bound, roots, unions, x, y, ry, rx, k);
    GraftBushy(roots, rank, ry, rx, k);
  }

  function Reps(roots: Links, done: set<Name>): set<Name>
    requires done <= roots.Keys
  {
    set x | x in done :: roots[x]
  }

  function Part(roots: Links, done: set<Name>, r: Name): set<Name>
    requires done <= roots.Keys
  {
    set x | x in done && roots[x] == r
  }

  lemma PartIsCluster(roots: Links, unions: Pairs, x: Name)
    requires Clusters(roots, unions) && x in roots
    ensures forall a :: a in Part(roots, roots.Keys, roots[x]) <==> Connected(unions, x, a)
  {
    forall a | a !in roots ensures !Connected(unions, x, a) {
      Isolated(unions, a, x);
    }
  }

  /** The clusters of the names in `done`, by root. */
  function Grouped(roots: Links, done: set<Name>): map<Name, set<Name>>
    requires done <= roots.Keys
  {
    var reps := Reps(roots, done);
    map r | r in reps :: Part(roots, done, r)
  }

  lemma GroupedAdd(roots: Links, done: set<Name>, a: Name)
    requires done <= roots.Keys && a in roots
    ensures var g := Grouped(roots, done);
            Grouped(roots, done + {a}) == g[roots[a] := (if roots[a] in g then g[roots[a]] else {}) + {a}]
  {
    var g, g', r := Grouped(roots, done), Grouped(roots, done + {a}), roots[a];
    assert Reps(roots, done + {a}) == Reps(roots, done) + {r};
    forall k | k in g' ensures g'[k] == if k == r then (if r in g then g[r] else {}) + {a} else g[k] {
      assert Part(roots, done + {a}, k) == Part(roots, done, k) + if k == r then {a} else {};
      assert k !in g ==> Part(roots, done, k) == {};
    }
    assert g' == g[r := (if r in g then g[r] else {}) + {a}];
  }

  predicate Covered(clusters: map<Name, set<Name>>, x: Name) {
    exists r | r in clusters :: x in clusters[r]
  }

  /** Every name is in some cluster, clusters are non-empty, and two names are in one cluster exactly when
      the unions connect them. */
  ghost predicate IsPartition(clusters: map<Name, set<Name>>, names: set<Name>, unions: Pairs) {
    && (forall r | r in clusters :: clusters[r] != {} && clusters[r] <= names)
    && (forall x | x in names :: Covered(clusters, x))
    && (forall r, x, y {:trigger Connected(unions, x, y), clusters[r]}
          | r in clusters && x in clusters[r] && y in names ::
          y in clusters[r] <==> Connected(unions, x, y))
  }

  lemma GroupedIsPartition(roots: Links, unions: Pairs)
    requires Clusters(roots, unions)
    ensures IsPartition(Grouped(roots, roots.Keys), roots.Keys, unions)
  {
    var g := Grouped(roots, roots.Keys);
    forall r | r in g ensures g[r] != {} {
      assert r in Reps(roots, roots.Keys);
      var x :| x in roots.Keys && roots[x] == r;
      assert x in g[r];
    }
    forall x | x in roots.Keys ensures Covered(g, x) {
      assert roots[x] in g && x in g[roots[x]];
    }
  }

  class UnionFind {
    var parent: Links
    var rank: Ranks
    ghost var bound: nat
    ghost var roots: Links
    ghost var unions: Pairs

    ghost predicate Valid()
      reads this
    {
      WellFormed(parent, rank, bound, roots) && Clusters(roots, unions) && Bushy(roots, rank)
    }

    constructor ()
      ensures Valid() && parent == map[] && unions == []
    {
      parent, rank, bound, roots, unions := map[], map[], 0, map[], [];
    }

    method Add(x: Name)
      requires Valid() && x !in parent
      modifies this
      ensures Valid() && unions == old(unions) && roots == old(roots)[x := x]
      ensures parent.Keys == old(parent.Keys) + {x}
    {
      PlantForest(parent, rank, bound, roots, unions, x);
      PlantBushy(roots, rank, x);
      parent, rank, roots := parent[x := x], rank[x := 0], roots[x := x];
    }

    /** The representative of `x`, adding `x` if it is new; no other root changes. */
    method Find(x: Name) returns (r: Name)
      requires Valid()
      modifies this
      ensures Valid() && x in parent && r == roots[x] && unions == old(unions)
      ensures roots == if x in old(parent) then old(roots) else old(roots)[x := x]
      ensures parent.Keys == old(parent.Keys) + {x}
    {
      if x !in parent {
        Add(x);
      }
      r := Compress(x);
    }

    /** `Find` on a name that is already there. */
    method Compress(x: Name) returns (r: Name)
      requires Valid() && x in parent
      modifies this`parent
      ensures Valid() && x in roots && r == roots[x] && parent.Keys == old(parent.Keys)
      decreases bound - rank[x]
    {
      assert Node(parent, rank, bound, roots, x);
      if parent[x] == x {
        return x;
      }
      r := Compress(parent[x]);
      assert Node(parent, rank, bound, roots, x);
      Relink(parent, rank, bound, roots, x, r);
      parent := parent[x := r];
    }

    /** Merges two clusters; the unions made grow by the pair. */
    method Union(x: Name, y: Name)
      requires Valid()
      modifies this
      ensures Valid() && unions == old(unions) + [(x, y)]
      ensures parent.Keys == old(parent.Keys) + {x, y}
    {
      var rx := Find(x);
      var ry := Find(y);
      Join(x, y, rx, ry);
    }

    method Join(ghost x: Name, ghost y: Name, rx: Name, ry: Name)
      requires Valid() && x in roots && y in roots && rx == roots[x] && ry == roots[y]
      modifies this
      ensures Valid() && unions == old(unions) + [(x, y)] && parent.Keys == old(parent.Keys)
    {
      assert Node(parent, rank, bound, roots, x) && Node(parent, rank, bound, roots, y);
      if rx == ry {
        MergeWithin(roots, unions, x, y);
        unions := unions + [(x, y)];
      } else if rank[rx] < rank[ry] {
        Link(x, y, ry, rx);
      } else {
        Link(x, y, rx, ry);
      }
    }

    /** Hangs root `ry` under root `rx`. */
    method Link(ghost x: Name, ghost y: Name, rx: Name, ry: Name)
      requires Valid() && x in roots && y in roots && rx in parent && ry in parent && rx != ry
      requires (ry == roots[x] && rx == roots[y]) || (rx == roots[x] && ry == roots[y])
      requires rank[ry] <= rank[rx]
      modifies this
      ensures Valid() && unions == old(unions) + [(x, y)] && parent.Keys == old(parent.Keys)
    {
      ghost var k := if rank[ry] == rank[rx] then rank[rx] + 1 else rank[rx];
      LinkKeeps(parent, rank, bound, roots, unions, x, y, rx, ry, k);
      parent := parent[ry := rx];
      if rank[rx] == rank[ry] {
        rank := rank[rx := rank[rx] + 1];
      }
      assert rank == old(rank)[rx := k];
      bound, roots, unions := bound + 1, Merged(roots, ry, rx), unions + [(x, y)];
    }

    /** All names connected to `x` by the unions made so far. */
    method GetCluster(x: Name) returns (cluster: set<Name>)
      requires Valid()
      modifies this
      ensures Valid() && unions == old(unions) && parent.Keys == old(parent.Keys) + {x}
      ensures forall a :: a in cluster <==> Connected(unions, x, a)
    {
      var root := Find(x);
      cluster := Gather(root);
      PartIsCluster(roots, unions, x);
    }

    method Gather(root: Name) returns (cluster: set<Name>)
      requires Valid()
      modifies this`parent
      ensures Valid() && parent.Keys == old(parent.Keys) && cluster == Part(roots, roots.Keys, root)
    {
      cluster := {};
      var names, done := parent.Keys, {};
      assert roots.Keys == names;
      while done != names
        invariant Valid() && parent.Keys == names && done <= names
        invariant cluster == Part(roots, done, root)
        decreases |names - done|
      {
        var a :| a in names - done;
        var ra := Compress(a);
        if ra == root { cluster := cluster + {a}; }
        done := done + {a};
      }
    }

    /** Root by root, the partition of all names seen. */
    method AllClusters() returns (clusters: map<Name, set<Name>>)
      requires Valid()
      modifies this`parent
      ensures Valid() && parent.Keys == old(parent.Keys)
      ensures IsPartition(clusters, parent.Keys, unions)
    {
      clusters := map[];
      var names, done := parent.Keys, {};
      assert roots.Keys == names;
      while done != names
        invariant Valid() && parent.Keys == names && done <= names
        invariant clusters == Grouped(roots, done)
        decreases |names - done|
      {
        var a :| a in names - done;
        var r := Compress(a);
        GroupedAdd(roots, done, a);
        clusters := clusters[r := (if r in clusters then clusters[r] else {}) + {a}];
        done := done + {a};
      }
      assert clusters == Grouped(roots, roots.Keys);
      GroupedIsPartition(roots, unions);
    }

    /** The walk from any name to its representative is logarithmic in the number of names. */
    lemma LogarithmicDepth(x: Name)
      requires Valid() && x in parent
      ensures Pow2(Depth(parent, rank, bound, roots, x)) <= |parent|
    {
      var r := roots[x];
      assert Node(parent, rank, bound, roots, x);
      Pow2Monotone(Depth(parent, rank, bound, roots, x), rank[r]);
      SubsetSize(Members(roots, r), parent.Keys);
    }
  }
}
