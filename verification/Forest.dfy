/** Parent forests of disjoint-set structures, with a ghost map that gives every node's root. Ranks
strictly increase towards the root, so every walk along the links ends there. */
module Forest {
  import opened Connectivity

  type Links = map<Name, Name>
  type Ranks = map<Name, nat>

  /** What holds of a node, its parent and its root. */
  predicate Node(p: Links, rank: Ranks, bound: nat, roots: Links, x: Name) {
    && x in p && x in rank && x in roots && rank[x] <= bound
    && var q, r := p[x], roots[x];
    && q in p && q in rank && q in roots && roots[q] == r
    && r in p && r in rank && r in roots && p[r] == r && roots[r] == r
    && (if q == x then r == x else rank[x] < rank[q])
    && (x != r ==> rank[x] < rank[r])
  }

  predicate WellFormed(p: Links, rank: Ranks, bound: nat, roots: Links) {
    && (forall x {:trigger Node(p, rank, bound, roots, x)} | x in p :: Node(p, rank, bound, roots, x))
    && (forall x | x in p :: x in rank && x in roots)
    && (forall x | x in roots :: x in p)
  }

  /** Length of the walk to the root. */
  ghost function Depth(p: Links, rank: Ranks, bound: nat, roots: Links, x: Name): (d: nat)
    requires WellFormed(p, rank, bound, roots) && x in p
    ensures Node(p, rank, bound, roots, x) && rank[x] + d <= rank[roots[x]]
    decreases bound - rank[x]
  {
    assert Node(p, rank, bound, roots, x);
    if p[x] == x then 0 else 1 + Depth(p, rank, bound, roots, p[x])
  }

  /** Hanging a node under any higher node of its own tree changes no root: path compression and path
      halving are both of this kind. */
  lemma Relink(p: Links, rank: Ranks, bound: nat, roots: Links, x: Name, a: Name)
    requires WellFormed(p, rank, bound, roots) && x in p && a in p
    requires rank[x] < rank[a] && roots[a] == roots[x]
    ensures WellFormed(p[x := a], rank, bound, roots)
  {
    var p' := p[x := a];
    forall y | y in p' ensures Node(p', rank, bound, roots, y) {
      assert Node(p, rank, bound, roots, y) && Node(p, rank, bound, roots, x) && Node(p, rank, bound, roots, a);
    }
  }

  function Merged(roots: Links, a: Name, b: Name): Links {
    map y | y in roots :: if roots[y] == a then b else roots[y]
  }

  /** Hanging root `a` under root `b`, whose rank may rise to `k`, merges their trees and leaves all
      others alone. */
  lemma Graft(p: Links, rank: Ranks, bound: nat, roots: Links, a: Name, b: Name, k: nat)
    requires WellFormed(p, rank, bound, roots) && a in p && b in p && p[a] == a && p[b] == b && a != b
    requires rank[a] < k && rank[b] <= k <= bound + 1
    ensures WellFormed(p[a := b], rank[b := k], bound + 1, Merged(roots, a, b))
  {
    var p', rank', roots' := p[a := b], rank[b := k], Merged(roots, a, b);
    forall y | y in p' ensures Node(p', rank', bound + 1, roots', y) {
      assert Node(p, rank, bound, roots, y) && Node(p, rank, bound, roots, a) && Node(p, rank, bound, roots, b);
    }
  }

  /** Adding a fresh node as a tree of its own. */
  lemma Plant(p: Links, rank: Ranks, bound: nat, roots: Links, x: Name)
    requires WellFormed(p, rank, bound, roots) && x !in p
    ensures WellFormed(p[x := x], rank[x := 0], bound, roots[x := x])
  {
    var p', rank', roots' := p[x := x], rank[x := 0], roots[x := x];
    forall y | y in p' ensures Node(p', rank', bound, roots', y) {
      assert y != x ==> Node(p, rank, bound, roots, y);
    }
  }

  // ---- Roots against unions ----

  /** Two nodes share a root exactly when the unions connect them. */
  ghost predicate Clusters(roots: Links, unions: Pairs) {
    && (forall e | e in unions :: e.0 in roots && e.1 in roots)
    && forall x, y {:trigger Connected(unions, x, y)} | x in roots && y in roots ::
         roots[x] == roots[y] <==> Connected(unions, x, y)
  }

  /** Names that no union mentions are connected to themselves only. */
  lemma Isolated(unions: Pairs, x: Name, y: Name)
    requires forall e | e in unions :: e.0 != x && e.1 != x
    ensures Connected(unions, x, y) <==> x == y
    ensures Connected(unions, y, x) <==> x == y
  {
    Reflexive(unions, x);
    if Connected(unions, y, x) {
      Symmetric(unions, y, x);
    }
    if Connected(unions, x, y) {
      var path :| IsPath(unions, path, x, y);
      assert |path| > 1 ==> Adjacent(unions, path[0], path[0 + 1]);
    }
  }

  lemma PlantClusters(roots: Links, unions: Pairs, x: Name)
    requires Clusters(roots, unions) && x !in roots && forall y | y in roots :: roots[y] in roots
    ensures Clusters(roots[x := x], unions)
  {
    forall y ensures (Connected(unions, x, y) <==> x == y) && (Connected(unions, y, x) <==> x == y) {
      Isolated(unions, x, y);
    }
  }

  /** Merging the clusters of `x` and `y` is what the pair (x, y) adds to the unions. */
  lemma MergeClusters(roots: Links, unions: Pairs, x: Name, y: Name, a: Name, b: Name)
    requires Clusters(roots, unions) && x in roots && y in roots
    requires (a == roots[x] && b == roots[y]) || (b == roots[x] && a == roots[y])
    ensures Clusters(Merged(roots, a, b), unions + [(x, y)])
  {
    var roots', unions' := Merged(roots, a, b), unions + [(x, y)];
    forall u, v | u in roots' && v in roots'
      ensures roots'[u] == roots'[v] <==> Connected(unions', u, v)
    {
      AddPair(unions, x, y, u, v);
    }
  }

  /** A union inside one cluster adds nothing. */
  lemma MergeWithin(roots: Links, unions: Pairs, x: Name, y: Name)
    requires Clusters(roots, unions) && x in roots && y in roots && roots[x] == roots[y]
    ensures Clusters(roots, unions + [(x, y)])
  {
    MergeClusters(roots, unions, x, y, roots[x], roots[y]);
    assert Merged(roots, roots[x], roots[y]) == roots;
  }

  lemma PlantForest(p: Links, rank: Ranks, bound: nat, roots: Links, unions: Pairs, x: Name)
    requires WellFormed(p, rank, bound, roots) && Clusters(roots, unions) && x !in p
    ensures WellFormed(p[x := x], rank[x := 0], bound, roots[x := x]) && Clusters(roots[x := x], unions)
    ensures forall y | y in roots :: roots[y] in roots
  {
    Plant(p, rank, bound, roots, x);
    forall y | y in roots ensures roots[y] in roots {
      assert Node(p, rank, bound, roots, y);
    }
    PlantClusters(roots, unions, x);
  }

  /** A union of two clusters: one root is hung under the other. */
  lemma GraftForest(p: Links, rank: Ranks, bound: nat, roots: Links, unions: Pairs,
                    x: Name, y: Name, a: Name, b: Name, k: nat)
    requires WellFormed(p, rank, bound, roots) && Clusters(roots, unions) && x in roots && y in roots
    requires (a == roots[x] && b == roots[y]) || (b == roots[x] && a == roots[y])
    requires a != b && a in rank && b in rank && rank[a] < k && rank[b] <= k <= bound + 1
    ensures WellFormed(p[a := b], rank[b := k], bound + 1, Merged(roots, a, b))
    ensures Clusters(Merged(roots, a, b), unions + [(x, y)])
    ensures a in roots && b in roots && roots[a] == a && roots[b] == b
  {
    assert Node(p, rank, bound, roots, x) && Node(p, rank, bound, roots, y);
    Graft(p, rank, bound, roots, a, b, k);
    MergeClusters(roots, unions, x, y, a, b);
  }
}
