/** The equivalence closure of a list of pairs: two names are connected when a path of pairs, read in
either direction, leads from one to the other. */
module Connectivity {
  /** A node of the union: an address or a miner identity key. */
  datatype Name = Name(text: string)
  type Pairs = seq<(Name, Name)>

  predicate Adjacent(edges: Pairs, x: Name, y: Name) {
    (x, y) in edges || (y, x) in edges
  }

  predicate IsPath(edges: Pairs, path: seq<Name>, x: Name, y: Name) {
    && |path| > 0 && path[0] == x && path[|path| - 1] == y
    && forall i | 0 <= i < |path| - 1 :: Adjacent(edges, path[i], path[i + 1])
  }

  ghost predicate Connected(edges: Pairs, x: Name, y: Name) {
    exists path :: IsPath(edges, path, x, y)
  }

  lemma Reflexive(edges: Pairs, x: Name)
    ensures Connected(edges, x, x)
  {
    assert IsPath(edges, [x], x, x);
  }

  lemma {:induction false} Reversed(edges: Pairs, path: seq<Name>, x: Name, y: Name) returns (back: seq<Name>)
    requires IsPath(edges, path, x, y)
    ensures IsPath(edges, back, y, x)
    decreases |path|
  {
    if |path| == 1 {
      back := path;
    } else {
      var rest := Reversed(edges, path[1..], path[1], y);
      back := rest + [x];
    }
  }

  lemma Symmetric(edges: Pairs, x: Name, y: Name)
    requires Connected(edges, x, y)
    ensures Connected(edges, y, x)
  {
    var path :| IsPath(edges, path, x, y);
    var back := Reversed(edges, path, x, y);
  }

  lemma Transitive(edges: Pairs, x: Name, y: Name, z: Name)
    requires Connected(edges, x, y) && Connected(edges, y, z)
    ensures Connected(edges, x, z)
  {
    var p :| IsPath(edges, p, x, y);
    var q :| IsPath(edges, q, y, z);
    assert IsPath(edges, p + q[1..], x, z);
  }

  /** More pairs connect no less. */
  lemma Monotone(edges: Pairs, more: Pairs, x: Name, y: Name)
    requires Connected(edges, x, y) && forall e | e in edges :: e in more
    ensures Connected(more, x, y)
  {
    var path :| IsPath(edges, path, x, y);
    assert IsPath(more, path, x, y);
  }

  /** Joined by the pair (a, b) on top of `edges`. */
  ghost predicate Bridged(edges: Pairs, a: Name, b: Name, x: Name, y: Name) {
    || Connected(edges, x, y)
    || (Connected(edges, x, a) && Connected(edges, b, y))
    || (Connected(edges, x, b) && Connected(edges, a, y))
  }

  /** What one more pair connects, exactly. */
  lemma AddPair(edges: Pairs, a: Name, b: Name, x: Name, y: Name)
    ensures Connected(edges + [(a, b)], x, y) <==> Bridged(edges, a, b, x, y)
  {
    var more := edges + [(a, b)];
    if Connected(more, x, y) {
      var path :| IsPath(more, path, x, y);
      PathIsBridged(edges, a, b, path, x, y);
    }
    if Bridged(edges, a, b, x, y) {
      BridgedIsConnected(edges, a, b, x, y);
    }
  }

  lemma BridgedIsConnected(edges: Pairs, a: Name, b: Name, x: Name, y: Name)
    requires Bridged(edges, a, b, x, y)
    ensures Connected(edges + [(a, b)], x, y)
  {
    var more := edges + [(a, b)];
    assert (a, b) in more;
    assert IsPath(more, [a, b], a, b) && IsPath(more, [b, a], b, a);
    if Connected(edges, x, y) {
      Monotone(edges, more, x, y);
    } else if Connected(edges, x, a) && Connected(edges, b, y) {
      Monotone(edges, more, x, a);
      Monotone(edges, more, b, y);
      Transitive(more, x, a, b);
      Transitive(more, x, b, y);
    } else {
      Monotone(edges, more, x, b);
      Monotone(edges, more, a, y);
      Transitive(more, x, b, a);
      Transitive(more, x, a, y);
    }
  }

  lemma {:induction false} PathIsBridged(edges: Pairs, a: Name, b: Name, path: seq<Name>, x: Name, y: Name)
    requires IsPath(edges + [(a, b)], path, x, y)
    ensures Bridged(edges, a, b, x, y)
    decreases |path|
  {
    Reflexive(edges, x);
    if |path| > 1 {
      var z := path[1];
      assert Adjacent(edges + [(a, b)], path[0], path[0 + 1]);
      PathIsBridged(edges, a, b, path[1..], z, y);
      if Adjacent(edges, x, z) {
        assert IsPath(edges, [x, z], x, z);
        StepIsBridged(edges, a, b, x, z, y);
      }
    }
  }

  lemma StepIsBridged(edges: Pairs, a: Name, b: Name, x: Name, z: Name, y: Name)
    requires Connected(edges, x, z) && Bridged(edges, a, b, z, y)
    ensures Bridged(edges, a, b, x, y)
  {
    if Connected(edges, z, y) {
      Transitive(edges, x, z, y);
    } else if Connected(edges, z, a) && Connected(edges, b, y) {
      Transitive(edges, x, z, a);
    } else {
      Transitive(edges, x, z, b);
    }
  }
}
