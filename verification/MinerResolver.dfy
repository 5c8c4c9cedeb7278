/** Miner identity resolution: MIKs (miner identity keys) that share a payout address are merged with a
second disjoint-set structure, which halves paths and keeps no ranks; then blocks and addresses are
summed per operator. */
module MinerResolver {
  import opened Connectivity
  import opened Forest

  /** One row of the MIK distribution; an empty text is a row without a key. */
  datatype MikRow = MikRow(mik: Name, blocks: int, addresses: seq<Name>)

  datatype Operator = Operator(miks: seq<Name>, blocks: int, addrs: set<Name>)

  predicate Named(row: MikRow) {
    row.mik.text != ""
  }

  /** The pairs of key and payout address that the rows list. */
  function Uses(rows: seq<MikRow>): set<(Name, Name)> {
    set row, a | row in rows && Named(row) && a in row.addresses :: (row.mik, a)
  }

  predicate Shares(uses: set<(Name, Name)>, x: Name, y: Name) {
    exists u | u in uses :: u.0 == x && (y, u.1) in uses
  }

  /** A chain of keys in which each shares a payout address with the next. */
  predicate Chain(uses: set<(Name, Name)>, path: seq<Name>, x: Name, y: Name) {
    && |path| > 0 && path[0] == x && path[|path| - 1] == y
    && forall i | 0 <= i < |path| - 1 :: Shares(uses, path[i], path[i + 1])
  }

  ghost predicate Linked(uses: set<(Name, Name)>, x: Name, y: Name) {
    exists path :: Chain(uses, path, x, y)
  }

  // ---- What the union pass records ----

  predicate UnionShares(uses: set<(Name, Name)>, e: (Name, Name)) {
    Shares(uses, e.0, e.1) && Shares(uses, e.1, e.0)
  }

  ghost predicate UseOwned(owner: map<Name, Name>, unions: Pairs, u: (Name, Name)) {
    u.1 in owner && Connected(unions, u.0, owner[u.1])
  }

  predicate OwnerUses(uses: set<(Name, Name)>, owner: map<Name, Name>, a: Name) {
    a in owner && (owner[a], a) in uses
  }

  /** Every union joins two keys that share an address, and every use of an address is connected to the
      key that last used it. */
  ghost predicate Recorded(uses: set<(Name, Name)>, owner: map<Name, Name>, unions: Pairs) {
    && (forall e {:trigger UnionShares(uses, e)} | e in unions :: UnionShares(uses, e))
    && (forall u {:trigger UseOwned(owner, unions, u)} | u in uses :: UseOwned(owner, unions, u))
    && (forall a {:trigger OwnerUses(uses, owner, a)} | a in owner :: OwnerUses(uses, owner, a))
  }

  lemma SharesMonotone(uses: set<(Name, Name)>, more: set<(Name, Name)>, x: Name, y: Name)
    requires uses <= more && Shares(uses, x, y)
    ensures Shares(more, x, y)
  {
    var u :| u in uses && u.0 == x && (y, u.1) in uses;
    assert u in more;
  }

  lemma RecordUse(uses: set<(Name, Name)>, owner: map<Name, Name>, unions: Pairs, m: Name, a: Name)
    requires Recorded(uses, owner, unions)
    ensures var unions' := if a in owner then unions + [(m, owner[a])] else unions;
            Recorded(uses + {(m, a)}, owner[a := m], unions')
  {
    var uses', owner' := uses + {(m, a)}, owner[a := m];
    var unions' := if a in owner then unions + [(m, owner[a])] else unions;
    forall e | e in unions' ensures UnionShares(uses', e) {
      if e in unions {
        assert UnionShares(uses, e);
        SharesMonotone(uses, uses', e.0, e.1);
        SharesMonotone(uses, uses', e.1, e.0);
      } else {
        assert OwnerUses(uses, owner, a);
        assert (m, a) in uses' && (owner[a], a) in uses';
      }
    }
    forall u | u in uses' ensures UseOwned(owner', unions', u) {
      Reflexive(unions', m);
      if u in uses {
        assert UseOwned(owner, unions, u);
        Monotone(unions, unions', u.0, owner[u.1]);
        if u.1 == a {
          assert (m, owner[a]) in unions';
          assert IsPath(unions', [owner[a], m], owner[a], m);
          Transitive(unions', u.0, owner[a], m);
        }
      }
    }
    forall b | b in owner' ensures OwnerUses(uses', owner', b) {
      assert b != a ==> OwnerUses(uses, owner, b);
    }
  }

  /** The unions connect two keys exactly when a chain of shared addresses links them. */
  lemma ConnectedIsLinked(uses: set<(Name, Name)>, owner: map<Name, Name>, unions: Pairs, x: Name, y: Name)
    requires Recorded(uses, owner, unions)
    ensures Connected(unions, x, y) <==> Linked(uses, x, y)
  {
    if Connected(unions, x, y) {
      var path :| IsPath(unions, path, x, y);
      forall i | 0 <= i < |path| - 1 ensures Shares(uses, path[i], path[i + 1]) {
        assert Adjacent(unions, path[i], path[i + 1]);
        assert (path[i], path[i + 1]) in unions ==> UnionShares(uses, (path[i], path[i + 1]));
        assert (path[i + 1], path[i]) in unions ==> UnionShares(uses, (path[i + 1], path[i]));
      }
      assert Chain(uses, path, x, y);
    }
    if Linked(uses, x, y) {
      var path :| Chain(uses, path, x, y);
      ChainIsConnected(uses, owner, unions, path, x, y);
    }
  }

  lemma {:induction false} ChainIsConnected(uses: set<(Name, Name)>, owner: map<Name, Name>, unions: Pairs,
                                            path: seq<Name>, x: Name, y: Name)
    requires Recorded(uses, owner, unions) && Chain(uses, path, x, y)
    ensures Connected(unions, x, y)
    decreases |path|
  {
    Reflexive(unions, x);
    if |path| > 1 {
      var z := path[1];
      assert Shares(uses, path[0], path[0 + 1]);
      var u :| u in uses && u.0 == x && (z, u.1) in uses;
      assert UseOwned(owner, unions, u) && UseOwned(owner, unions, (z, u.1));
      var o := owner[u.1];
      Symmetric(unions, z, o);
      Transitive(unions, x, o, z);
      ChainIsConnected(uses, owner, unions, path[1..], z, y);
      Transitive(unions, x, z, y);
    }
  }

  // ---- The forest ----

  class MikForest {
    var parent: Links
    ghost var rank: Ranks
    ghost var bound: nat
    ghost var roots: Links
    ghost var unions: Pairs

    ghost predicate Valid()
      reads this
    {
      WellFormed(parent, rank, bound, roots) && Clusters(roots, unions)
    }

    constructor ()
      ensures Valid() && parent == map[] && unions == []
    {
      parent, rank, bound, roots, unions := map[], map[], 0, map[], [];
    }

    method SetDefault(x: Name)
      requires Valid()
      modifies this
      ensures Valid() && x in parent && unions == old(unions)
      ensures roots == if x in old(parent) then old(roots) else old(roots)[x := x]
      ensures parent.Keys == old(parent.Keys) + {x}
    {
      if x !in parent {
        PlantForest(parent, rank, bound, roots, unions, x);
        parent, rank, roots := parent[x := x], rank[x := 0], roots[x := x];
      }
    }

    /** The representative of `x`, adding `x` if it is new; no other root changes. */
    method Find(x: Name) returns (r: Name)
      requires Valid()
      modifies this
      ensures Valid() && x in roots && r == roots[x] && unions == old(unions)
      ensures roots == if x in old(parent) then old(roots) else old(roots)[x := x]
      ensures parent.Keys == old(parent.Keys) + {x}
    {
      SetDefault(x);
      r := Halve(x);
    }

    /** The path-halving loop; the ghost rank of the cursor rises with every turn, so it ends. */
    method Halve(start: Name) returns (x: Name)
      requires Valid() && start in parent
      modifies this`parent
      ensures Valid() && parent.Keys == old(parent.Keys) && start in roots && x == roots[start]
    {
      x := start;
      while parent[x] != x
        invariant Valid() && parent.Keys == old(parent.Keys) && x in parent && roots[x] == roots[start]
        decreases bound - rank[x]
      {
        var up := parent[parent[x]];
        assert Node(parent, rank, bound, roots, x) && Node(parent, rank, bound, roots, parent[x]);
        Relink(parent, rank, bound, roots, x, up);
        parent := parent[x := up];
        x := up;
      }
      assert Node(parent, rank, bound, roots, x);
    }

    method Union(a: Name, b: Name)
      requires Valid()
      modifies this
      ensures Valid() && parent.Keys == old(parent.Keys) + {a, b} && unions == old(unions) + [(a, b)]
    {
      var ra := Find(a);
      var rb := Find(b);
      Join(a, b, ra, rb);
    }

    method Join(ghost a: Name, ghost b: Name, ra: Name, rb: Name)
      requires Valid() && a in roots && b in roots && ra == roots[a] && rb == roots[b]
      modifies this
      ensures Valid() && parent.Keys == old(parent.Keys) && unions == old(unions) + [(a, b)]
    {
      assert Node(parent, rank, bound, roots, a) && Node(parent, rank, bound, roots, b);
      if ra != rb {
        ghost var k := if rank[rb] > rank[ra] then rank[rb] else rank[ra] + 1;
        assert Node(parent, rank, bound, roots, ra) && Node(parent, rank, bound, roots, rb);
        GraftForest(parent, rank, bound, roots, unions, a, b, ra, rb, k);
        parent := parent[ra := rb];
        rank, bound, roots := rank[rb := k], bound + 1, Merged(roots, ra, rb);
      } else {
        MergeWithin(roots, unions, a, b);
      }
      unions := unions + [(a, b)];
    }
  }

  // ---- The union pass ----

  function UsesOf(m: Name, addresses: seq<Name>): set<(Name, Name)> {
    set a | a in addresses :: (m, a)
  }

  lemma UsesStep(rows: seq<MikRow>, i: nat)
    requires i < |rows|
    ensures Uses(rows[..i + 1]) ==
            if Named(rows[i]) then Uses(rows[..i]) + UsesOf(rows[i].mik, rows[i].addresses) else Uses(rows[..i])
  {
    assert rows[..i + 1] == rows[..i] + [rows[i]];
  }

  lemma UsesOfStep(uses: set<(Name, Name)>, m: Name, addresses: seq<Name>, k: nat)
    requires k < |addresses|
    ensures uses + UsesOf(m, addresses[..k + 1]) == uses + UsesOf(m, addresses[..k]) + {(m, addresses[k])}
  {
    assert addresses[..k + 1] == addresses[..k] + [addresses[k]];
  }

  predicate OwnersIn(owner: map<Name, Name>, keys: set<Name>) {
    forall a | a in owner :: owner[a] in keys
  }

  /** Processes one address of one row; `owner` maps an address to the key that last used it. */
  method LinkAddress(f: MikForest, m: Name, a: Name, owner: map<Name, Name>, ghost uses: set<(Name, Name)>)
    returns (owner': map<Name, Name>)
    requires f.Valid() && m in f.parent && Recorded(uses, owner, f.unions) && OwnersIn(owner, f.parent.Keys)
    modifies f
    ensures f.Valid() && f.parent.Keys == old(f.parent.Keys) && OwnersIn(owner', f.parent.Keys)
    ensures Recorded(uses + {(m, a)}, owner', f.unions)
  {
    RecordUse(uses, owner, f.unions, m, a);
    if a in owner {
      f.Union(m, owner[a]);
    }
    owner' := owner[a := m];
  }

  method LinkRow(f: MikForest, row: MikRow, owner: map<Name, Name>, ghost uses: set<(Name, Name)>)
    returns (owner': map<Name, Name>)
    requires f.Valid() && Recorded(uses, owner, f.unions) && OwnersIn(owner, f.parent.Keys)
    modifies f
    ensures f.Valid() && Recorded(uses + UsesOf(row.mik, row.addresses), owner', f.unions)
    ensures OwnersIn(owner', f.parent.Keys) && f.parent.Keys == old(f.parent.Keys) + {row.mik}
  {
    owner' := owner;
    f.SetDefault(row.mik);
    ghost var keys := f.parent.Keys;
    assert uses + UsesOf(row.mik, row.addresses[..0]) == uses;
    for k := 0 to |row.addresses|
      invariant f.Valid() && f.parent.Keys == keys && OwnersIn(owner', keys)
      invariant Recorded(uses + UsesOf(row.mik, row.addresses[..k]), owner', f.unions)
    {
      var a := row.addresses[k];
      ghost var seen := uses + UsesOf(row.mik, row.addresses[..k]);
      UsesOfStep(uses, row.mik, row.addresses, k);
      owner' := LinkAddress(f, row.mik, a, owner', seen);
    }
    assert row.addresses[..|row.addresses|] == row.addresses;
  }

  method LinkKeys(f: MikForest, rows: seq<MikRow>) returns (owner: map<Name, Name>)
    requires f.Valid() && f.unions == []
    modifies f
    ensures f.Valid() && Recorded(Uses(rows), owner, f.unions)
    ensures forall j | 0 <= j < |rows| && Named(rows[j]) :: rows[j].mik in f.parent
  {
    owner := map[];
    for i := 0 to |rows|
      invariant f.Valid() && Recorded(Uses(rows[..i]), owner, f.unions) && OwnersIn(owner, f.parent.Keys)
      invariant forall j | 0 <= j < i && Named(rows[j]) :: rows[j].mik in f.parent.Keys
    {
      UsesStep(rows, i);
      if Named(rows[i]) {
        owner := LinkRow(f, rows[i], owner, Uses(rows[..i]));
      }
    }
    assert rows[..|rows|] == rows;
  }

  // ---- The summary per operator ----

  /** The rows of the operator with root `r`. */
  function RowsOf(rows: seq<MikRow>, roots: Links, r: Name): seq<MikRow> {
    if rows == [] then []
    else
      var row, rest := rows[|rows| - 1], RowsOf(rows[..|rows| - 1], roots, r);
      if Named(row) && row.mik in roots && roots[row.mik] == r then rest + [row] else rest
  }

  function Tally(rows: seq<MikRow>): Operator {
    if rows == [] then Operator([], 0, {})
    else
      var row, t := rows[|rows| - 1], Tally(rows[..|rows| - 1]);
      Operator(t.miks + [row.mik], t.blocks + row.blocks, t.addrs + set a | a in row.addresses)
  }

  function NamedBlocks(rows: seq<MikRow>): int {
    if rows == [] then 0
    else
      var row := rows[|rows| - 1];
      NamedBlocks(rows[..|rows| - 1]) + if Named(row) then row.blocks else 0
  }

  ghost function TotalBlocks(ops: map<Name, Operator>): int {
    if ops == map[] then 0
    else
      var r :| r in ops;
      ops[r].blocks + TotalBlocks(ops - {r})
  }

  lemma {:induction false} TotalSplit(ops: map<Name, Operator>, r: Name)
    requires r in ops
    ensures TotalBlocks(ops) == ops[r].blocks + TotalBlocks(ops - {r})
    decreases |ops|
  {
    var p :| p in ops && TotalBlocks(ops) == ops[p].blocks + TotalBlocks(ops - {p});
    if p != r {
      TotalSplit(ops - {p}, r);
      TotalSplit(ops - {r}, p);
      assert ops - {p} - {r} == ops - {r} - {p};
    }
  }

  lemma TotalUpdate(ops: map<Name, Operator>, r: Name, op: Operator)
    ensures TotalBlocks(ops[r := op]) == TotalBlocks(ops) + op.blocks - if r in ops then ops[r].blocks else 0
  {
    TotalSplit(ops[r := op], r);
    if r in ops {
      TotalSplit(ops, r);
      assert ops[r := op] - {r} == ops - {r};
    } else {
      assert ops[r := op] - {r} == ops;
    }
  }

  predicate SummedAt(ops: map<Name, Operator>, rows: seq<MikRow>, roots: Links, r: Name) {
    var mine := RowsOf(rows, roots, r);
    (r in ops <==> mine != []) && (r in ops ==> ops[r] == Tally(mine))
  }

  /** Each operator is the tally of its own rows, and operators are the roots that have rows. */
  ghost predicate Summed(ops: map<Name, Operator>, rows: seq<MikRow>, roots: Links) {
    forall r {:trigger SummedAt(ops, rows, roots, r)} :: SummedAt(ops, rows, roots, r)
  }

  function Extended(ops: map<Name, Operator>, r: Name, row: MikRow): map<Name, Operator> {
    var t := if r in ops then ops[r] else Operator([], 0, {});
    ops[r := Operator(t.miks + [row.mik], t.blocks + row.blocks, t.addrs + set a | a in row.addresses)]
  }

  lemma SumStep(ops: map<Name, Operator>, rows: seq<MikRow>, i: nat, roots: Links)
    requires i < |rows| && Summed(ops, rows[..i], roots)
    requires Named(rows[i]) ==> rows[i].mik in roots
    ensures Summed(if Named(rows[i]) then Extended(ops, roots[rows[i].mik], rows[i]) else ops, rows[..i + 1], roots)
  {
    var row, upTo := rows[i], rows[..i + 1];
    var ops' := if Named(row) then Extended(ops, roots[row.mik], row) else ops;
    assert upTo[..i] == rows[..i];
    forall r ensures SummedAt(ops', upTo, roots, r) {
      assert SummedAt(ops, rows[..i], roots, r);
      var mine := RowsOf(rows[..i], roots, r);
      assert (mine + [row])[..|mine|] == mine;
    }
  }

  lemma TotalStep(ops: map<Name, Operator>, r: Name, row: MikRow)
    ensures TotalBlocks(Extended(ops, r, row)) == TotalBlocks(ops) + row.blocks
  {
    TotalUpdate(ops, r, Extended(ops, r, row)[r]);
  }

  method Summarise(f: MikForest, rows: seq<MikRow>) returns (ops: map<Name, Operator>)
    requires f.Valid() && forall j | 0 <= j < |rows| && Named(rows[j]) :: rows[j].mik in f.parent
    modifies f
    ensures f.Valid() && f.roots == old(f.roots) && f.unions == old(f.unions) && f.parent.Keys == old(f.parent.Keys)
    ensures Summed(ops, rows, f.roots) && TotalBlocks(ops) == NamedBlocks(rows)
  {
    ops := map[];
    for i := 0 to |rows|
      invariant f.Valid() && f.parent.Keys == old(f.parent.Keys) && f.roots == old(f.roots) && f.unions == old(f.unions)
      invariant Summed(ops, rows[..i], f.roots) && TotalBlocks(ops) == NamedBlocks(rows[..i])
    {
      assert rows[..i + 1][..i] == rows[..i];
      SumStep(ops, rows, i, f.roots);
      if Named(rows[i]) {
        var root := f.Find(rows[i].mik);
        TotalStep(ops, root, rows[i]);
        ops := Extended(ops, root, rows[i]);
      }
    }
    assert rows[..|rows|] == rows;
  }

  // ---- What the operators are ----

  lemma {:induction false} RowsOfMembers(rows: seq<MikRow>, roots: Links, r: Name, row: MikRow)
    ensures row in RowsOf(rows, roots, r) <==> row in rows && Named(row) && row.mik in roots && roots[row.mik] == r
    decreases |rows|
  {
    if rows != [] {
      RowsOfMembers(rows[..|rows| - 1], roots, r, row);
      assert rows == rows[..|rows| - 1] + [rows[|rows| - 1]];
    }
  }

  lemma {:induction false} TallyMembers(rows: seq<MikRow>, x: Name)
    ensures x in Tally(rows).miks <==> exists row | row in rows :: row.mik == x
    ensures x in Tally(rows).addrs <==> exists row | row in rows :: x in row.addresses
    decreases |rows|
  {
    if rows != [] {
      TallyMembers(rows[..|rows| - 1], x);
      assert rows == rows[..|rows| - 1] + [rows[|rows| - 1]];
    }
  }

  predicate Together(ops: map<Name, Operator>, x: Name, y: Name) {
    exists r | r in ops :: x in ops[r].miks && y in ops[r].miks
  }

  predicate IsKey(rows: seq<MikRow>, m: Name) {
    exists row | row in rows :: Named(row) && row.mik == m
  }

  /** A key belongs to exactly the operator of its root. */
  lemma KeyOfOperator(ops: map<Name, Operator>, rows: seq<MikRow>, roots: Links, m: Name, r: Name)
    requires Summed(ops, rows, roots) && IsKey(rows, m) && m in roots
    ensures r in ops && m in ops[r].miks <==> roots[m] == r
  {
    assert SummedAt(ops, rows, roots, r);
    var mine := RowsOf(rows, roots, r);
    TallyMembers(mine, m);
    if roots[m] == r {
      var row :| row in rows && Named(row) && row.mik == m;
      RowsOfMembers(rows, roots, r, row);
    } else if r in ops && m in ops[r].miks {
      var row :| row in mine && row.mik == m;
      RowsOfMembers(rows, roots, r, row);
    }
  }

  /** An address of an operator was used by a key of that operator. */
  lemma AddressOfOperator(ops: map<Name, Operator>, rows: seq<MikRow>, roots: Links, a: Name, r: Name) returns (m: Name)
    requires Summed(ops, rows, roots) && r in ops && a in ops[r].addrs
    ensures (m, a) in Uses(rows) && m in roots && roots[m] == r
  {
    assert SummedAt(ops, rows, roots, r);
    TallyMembers(RowsOf(rows, roots, r), a);
    var row :| row in RowsOf(rows, roots, r) && a in row.addresses;
    RowsOfMembers(rows, roots, r, row);
    m := row.mik;
  }

  /** No payout address belongs to two operators. */
  lemma OperatorsDisjoint(ops: map<Name, Operator>, rows: seq<MikRow>, roots: Links, unions: Pairs,
                          owner: map<Name, Name>, r: Name, q: Name)
    requires Summed(ops, rows, roots) && Clusters(roots, unions) && Recorded(Uses(rows), owner, unions)
    requires r in ops && q in ops && r != q
    ensures ops[r].addrs !! ops[q].addrs
  {
    forall a | a in ops[r].addrs && a in ops[q].addrs ensures false {
      var m := AddressOfOperator(ops, rows, roots, a, r);
      var n := AddressOfOperator(ops, rows, roots, a, q);
      assert UseOwned(owner, unions, (m, a)) && UseOwned(owner, unions, (n, a));
      Symmetric(unions, n, owner[a]);
      Transitive(unions, m, owner[a], n);
    }
  }

  /** The rows whose key is one of `miks`. */
  function RowsWith(rows: seq<MikRow>, miks: seq<Name>): seq<MikRow> {
    if rows == [] then []
    else
      var row, rest := rows[|rows| - 1], RowsWith(rows[..|rows| - 1], miks);
      if Named(row) && row.mik in miks then rest + [row] else rest
  }

  lemma {:induction false} SameRows(rows: seq<MikRow>, roots: Links, r: Name, miks: seq<Name>)
    requires forall row | row in rows && Named(row) :: row.mik in roots && (row.mik in miks <==> roots[row.mik] == r)
    ensures RowsOf(rows, roots, r) == RowsWith(rows, miks)
    decreases |rows|
  {
    if rows != [] {
      assert rows[|rows| - 1] in rows;
      SameRows(rows[..|rows| - 1], roots, r, miks);
    }
  }

  /** An operator is the tally of all rows with its keys: no key, block or address is missing or foreign. */
  lemma OperatorIsTally(ops: map<Name, Operator>, rows: seq<MikRow>, roots: Links, r: Name)
    requires Summed(ops, rows, roots) && r in ops
    requires forall row | row in rows && Named(row) :: row.mik in roots
    ensures ops[r].miks != [] && ops[r] == Tally(RowsWith(rows, ops[r].miks))
  {
    assert SummedAt(ops, rows, roots, r);
    forall row | row in rows && Named(row) ensures row.mik in ops[r].miks <==> roots[row.mik] == r {
      KeyOfOperator(ops, rows, roots, row.mik, r);
    }
    SameRows(rows, roots, r, ops[r].miks);
  }

  lemma {:induction false} RowsWithAreNamed(rows: seq<MikRow>, miks: seq<Name>, row: MikRow)
    requires row in RowsWith(rows, miks)
    ensures row in rows && row.mik.text != ""
    decreases |rows|
  {
    if row in RowsWith(rows[..|rows| - 1], miks) {
      RowsWithAreNamed(rows[..|rows| - 1], miks, row);
    }
  }

  /** Every operator's keys are non-empty keys of the rows. */
  lemma OperatorKeyIsKey(ops: map<Name, Operator>, rows: seq<MikRow>, m: Name)
    requires forall r | r in ops :: ops[r] == Tally(RowsWith(rows, ops[r].miks))
    requires Together(ops, m, m)
    ensures exists row | row in rows :: row.mik == m && m.text != ""
  {
    var r :| r in ops && m in ops[r].miks;
    TallyMembers(RowsWith(rows, ops[r].miks), m);
    var row :| row in RowsWith(rows, ops[r].miks) && row.mik == m;
    RowsWithAreNamed(rows, ops[r].miks, row);
  }

  lemma OperatorsHoldKeys(ops: map<Name, Operator>, rows: seq<MikRow>, m: Name)
    requires forall r | r in ops :: ops[r] == Tally(RowsWith(rows, ops[r].miks))
    requires IsKey(rows, m) ==> (Together(ops, m, m) <==> Linked(Uses(rows), m, m))
    ensures Together(ops, m, m) <==> exists row | row in rows :: row.mik == m && m.text != ""
  {
    if Together(ops, m, m) {
      OperatorKeyIsKey(ops, rows, m);
    }
    if IsKey(rows, m) {
      assert Chain(Uses(rows), [m], m, m);
    }
  }

  /** The whole pass: a key is in some operator exactly when a row has it and it is not empty,
      two keys end in one operator exactly when a chain of shared payout addresses links them, each
      operator tallies exactly the rows of its keys, operators share no address, and their blocks add up to the
      blocks of all rows with a key. */
  method Resolve(rows: seq<MikRow>) returns (ops: map<Name, Operator>)
    ensures forall r | r in ops :: ops[r].miks != [] && ops[r] == Tally(RowsWith(rows, ops[r].miks))
    ensures forall x, y | IsKey(rows, x) && IsKey(rows, y) :: Together(ops, x, y) <==> Linked(Uses(rows), x, y)
    ensures forall r, q | r in ops && q in ops && r != q :: ops[r].addrs !! ops[q].addrs
    ensures TotalBlocks(ops) == NamedBlocks(rows)
    ensures forall m :: Together(ops, m, m) <==> exists row | row in rows :: row.mik == m && m.text != ""
  {
    var f := new MikForest();
    var owner := LinkKeys(f, rows);
    ops := Summarise(f, rows);
    forall x, y | IsKey(rows, x) && IsKey(rows, y) ensures Together(ops, x, y) <==> Linked(Uses(rows), x, y) {
      TogetherIsLinked(ops, rows, f.parent, f.roots, f.unions, owner, x, y);
    }
    forall r, q | r in ops && q in ops && r != q ensures ops[r].addrs !! ops[q].addrs {
      OperatorsDisjoint(ops, rows, f.roots, f.unions, owner, r, q);
    }
    forall row | row in rows && Named(row) ensures row.mik in f.roots {
      assert row.mik in f.parent;
    }
    forall r | r in ops ensures ops[r].miks != [] && ops[r] == Tally(RowsWith(rows, ops[r].miks)) {
      OperatorIsTally(ops, rows, f.roots, r);
    }
    forall m ensures Together(ops, m, m) <==> exists row | row in rows :: row.mik == m && m.text != "" {
      OperatorsHoldKeys(ops, rows, m);
    }
  }

  lemma TogetherIsLinked(ops: map<Name, Operator>, rows: seq<MikRow>, parent: Links, roots: Links, unions: Pairs,
                         owner: map<Name, Name>, x: Name, y: Name)
    requires Summed(ops, rows, roots) && Clusters(roots, unions) && Recorded(Uses(rows), owner, unions)
    requires IsKey(rows, x) && IsKey(rows, y) && forall k | k in parent :: k in roots
    requires forall j | 0 <= j < |rows| && Named(rows[j]) :: rows[j].mik in parent
    ensures Together(ops, x, y) <==> Linked(Uses(rows), x, y)
  {
    assert x in roots && y in roots;
    ConnectedIsLinked(Uses(rows), owner, unions, x, y);
    if Together(ops, x, y) {
      var r :| r in ops && x in ops[r].miks && y in ops[r].miks;
      KeyOfOperator(ops, rows, roots, x, r);
      KeyOfOperator(ops, rows, roots, y, r);
    }
    if roots[x] == roots[y] {
      KeyOfOperator(ops, rows, roots, x, roots[x]);
      KeyOfOperator(ops, rows, roots, y, roots[x]);
    }
  }
}
