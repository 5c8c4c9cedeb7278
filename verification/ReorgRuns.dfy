/** Runs from an empty database that reach each of the states in which a completed reorg check leaves a
deposit of a replaced block in play. Letters name chains, digits heights: A1 and B1 follow the same genesis. */
module ReorgRuns {
  import opened Wrappers
  import opened Blocks
  import opened StateDb
  import opened Reorg
  import opened ScanCoverage

  const G: Block := Genesis(0)
  const A1: Block := Child(G, 0)
  const A2: Block := Child(A1, 0)
  const A3: Block := Child(A2, 0)
  const B1: Block := Child(G, 1)
  const B2: Block := Child(B1, 0)
  const B3: Block := Child(B2, 0)

  /** A run from the empty database that ends in `s`. */
  ghost predicate Reaches(es: seq<Event>, s: State) {
    IsRun(0, Fresh(G), es) && Exec(0, Fresh(G), es) == s
  }

  /** A deposit that a completed check has left in play off the node's chain. */
  ghost predicate Stray(s: State, k: Outpoint) {
    s.verified && k in s.db.rows && Active(s.db.rows[k]) && !OnChain(s.db.rows[k].block, s.tip)
  }

  lemma Extend(es: seq<Event>, s: State, e: Event) returns (es': seq<Event>, s': State)
    requires Reaches(es, s) && Enabled(0, s, e)
    ensures es' == es + [e] && s' == Apply(0, s, e) && Reaches(es', s')
  {
    ExecAppend(0, Fresh(G), es, e);
    es', s' := es + [e], Apply(0, s, e);
  }

  /** The blocks read along a run from the empty database. */
  ghost function ReadIn(es: seq<Event>): set<Block>
    requires IsRun(0, Fresh(G), es)
  {
    ReadAlong(0, Fresh(G), es)
  }

  lemma ExtendReads(es: seq<Event>, s: State, e: Event)
    requires Reaches(es, s) && Enabled(0, s, e)
    ensures Reaches(es + [e], Apply(0, s, e)) && ReadIn(es + [e]) == ReadIn(es) + ReadBy(0, s, e)
  {
    ExecAppend(0, Fresh(G), es, e);
    assert (es + [e])[..|es|] == es;
  }

  lemma EmptyScan(s: State)
    requires !s.paused && s.db.sync.Some? && s.db.sync.value.height + 1 <= Height(s.tip)
    ensures Enabled(0, s, Scan([]))
    ensures var h := s.db.sync.value.height + 1;
            var b := AncestorAt(s.tip, h);
            Apply(0, s, Scan([])) == s.(db := Db(Some(Sync(h, Some(b))), s.db.hashes[h := b], s.db.rows))
  {
  }

  lemma RecordOne(rows: Deposits, f: Found, b: Block)
    requires !f.overLimit
    ensures RecordAll(rows, [f], b) == InsertDeposit(rows, f.key, Deposit(f.amount, f.base, Height(b), b, Pending))
  {
    assert [f][..0] == [];
    assert RecordAll(rows, [f], b) == RecordFound(RecordAll(rows, [], b), f, b);
  }

  lemma ScanOne(s: State, f: Found)
    requires !s.paused && s.db.sync.Some? && s.db.sync.value.height + 1 <= Height(s.tip) && !f.overLimit
    ensures Enabled(0, s, Scan([f]))
    ensures var h := s.db.sync.value.height + 1;
            var b := AncestorAt(s.tip, h);
            Apply(0, s, Scan([f])) ==
            s.(db := Db(Some(Sync(h, Some(b))), s.db.hashes[h := b],
                        InsertDeposit(s.db.rows, f.key, Deposit(f.amount, f.base, h, b, Pending))))
  {
    RecordOne(s.db.rows, f, AncestorAt(s.tip, s.db.sync.value.height + 1));
  }

  lemma CutOne(s: State, f: Found)
    requires !s.paused && s.db.sync.Some? && s.db.sync.value.height + 1 <= Height(s.tip) && !f.overLimit
    ensures Enabled(0, s, CutScan([f], true))
    ensures var h := s.db.sync.value.height + 1;
            var b := AncestorAt(s.tip, h);
            Apply(0, s, CutScan([f], true)) ==
            s.(db := Db(Some(Sync(h, Some(b))), s.db.hashes,
                        InsertDeposit(s.db.rows, f.key, Deposit(f.amount, f.base, h, b, Pending))))
  {
    RecordOne(s.db.rows, f, AncestorAt(s.tip, s.db.sync.value.height + 1));
  }

  lemma ResetTwice(s: State)
    requires !s.paused && s.db.sync.Some? && s.db.sync.value.height > Height(s.tip) + RESET_GAP
    ensures Enabled(0, s, Check(ChainReset(true)))
    ensures var s' := Apply(0, s, Check(ChainReset(true)));
            && s' == s.(db := s.db.(sync := Some(Sync(0, Some(AncestorAt(s.tip, 0))))))
            && Enabled(0, s', Check(Clean)) && Apply(0, s', Check(Clean)) == s'.(verified := true)
  {
  }

  lemma GenesisScanned() returns (es: seq<Event>, s: State)
    ensures Reaches(es, s) && s == State(Db(Some(Sync(0, Some(G))), map[0 := G], map[]), A1, true, false)
    ensures ReadIn(es) == {G}
  {
    ExtendReads([], Fresh(G), NewTip(A1));
    es, s := Extend([], Fresh(G), NewTip(A1));
    ExtendReads(es, s, Check(NoSync));
    es, s := Extend(es, s, Check(NoSync));
    assert Height(A1) == 1 && AncestorAt(A1, 0) == G;
    ExtendReads(es, s, Scan([]));
    es, s := Extend(es, s, Scan([]));
    assert map[][0 := G] == map[0 := G];
  }

  /** Two blocks scanned, one deposit recorded in the second. */
  lemma OneDeposit(f: Found) returns (es: seq<Event>, s: State)
    requires !f.overLimit
    ensures Reaches(es, s) && s.tip == A1 && s.verified && !s.paused && ReadIn(es) == {G, A1}
    ensures s.db == Db(Some(Sync(1, Some(A1))), map[0 := G][1 := A1],
                       map[][f.key := Deposit(f.amount, f.base, 1, A1, Pending)])
  {
    es, s := GenesisScanned();
    assert Height(A1) == 1;
    ScanOne(s, f);
    ExtendReads(es, s, Scan([f]));
    es, s := Extend(es, s, Scan([f]));
  }

  /** The check loses its node connection once and the scan of the same iteration does not. */
  lemma BlindScanRun(f: Found) returns (es: seq<Event>, s: State)
    requires !f.overLimit
    ensures Reaches(es, s) && Stray(s, f.key) && es[|es| - 1] == Check(Clean)
  {
    es, s := OneDeposit(f);
    es, s := Extend(es, s, NewTip(B2));
    es, s := Extend(es, s, Check(Unreachable));
    assert Height(B2) == 2;
    EmptyScan(s);
    es, s := Extend(es, s, Scan([]));
    es, s := Extend(es, s, Check(Clean));
  }

  /** The process stops inside a block, before the sync state is set. */
  lemma CutScanRun(f: Found, c: Found) returns (es: seq<Event>, s: State)
    requires !f.overLimit && !c.overLimit && f.key != c.key
    ensures Reaches(es, s) && Stray(s, c.key) && es[|es| - 1] == Check(Clean)
  {
    es, s := OneDeposit(f);
    es, s := Extend(es, s, NewTip(A2));
    assert Height(A2) == 2;
    es, s := Extend(es, s, Check(Clean));
    RecordOne(s.db.rows, c, A2);
    es, s := Extend(es, s, CutScan([c], false));
    es, s := Extend(es, s, NewTip(Child(A1, 1)));
    es, s := Extend(es, s, Check(Clean));
  }

  /** The node leaves chain a for chain b, which forks off right after the genesis block. */
  lemma SwitchToB(s: State, tip: Block)
    requires !s.paused && s.db.sync.Some? && s.db.sync.value.hash.Some? && 1 <= s.db.sync.value.height <= Height(tip)
    requires AncestorAt(tip, 0) == G && AncestorAt(tip, 1) == B1
    requires s.db.sync.value.hash != Some(AncestorAt(tip, s.db.sync.value.height)) && s.db.sync.value.height <= 2
    requires 0 in s.db.hashes && s.db.hashes[0] == G && 1 in s.db.hashes && s.db.hashes[1] == A1
    ensures var s1 := s.(tip := tip, verified := false);
            && Enabled(0, s1, Check(Handled(1, true)))
            && Apply(0, s1, Check(Handled(1, true))) ==
               State(Db(Some(Sync(1, Some(B1))), s.db.hashes, MarkReorged(s.db.rows, 1)), tip, true, AtRisk(s.db, 1))
  {
    assert MatchAt(s.db, tip, 0);
    assert !MatchAt(s.db, tip, 1);
  }

  lemma FailedDeposit(f: Found) returns (es: seq<Event>, s: State)
    requires !f.overLimit
    ensures Reaches(es, s) && !s.paused && s.db.sync == Some(Sync(1, Some(A1))) && s.db.hashes == map[0 := G][1 := A1]
    ensures s.db.rows.Keys == {f.key} && s.db.rows[f.key] == Deposit(f.amount, f.base, 1, A1, Failed)
  {
    es, s := OneDeposit(f);
    es, s := Extend(es, s, SetRow(f.key, Confirmed));
    es, s := Extend(es, s, SetRow(f.key, Failed));
  }

  /** A mint of the deposit failed before the reorg; the mint loop will try it again. */
  lemma FailedRowRun(f: Found) returns (es: seq<Event>, s: State)
    requires !f.overLimit
    ensures Reaches(es, s) && s.verified && !s.paused && es[|es| - 1] == Check(Handled(1, true))
    ensures f.key in s.db.rows && s.db.rows[f.key].status.Failed? && !OnChain(s.db.rows[f.key].block, s.tip)
  {
    es, s := FailedDeposit(f);
    assert !AtRisk(s.db, 1);
    SwitchToB(s, B2);
    es, s := Extend(es, s, NewTip(B2));
    es, s := Extend(es, s, Check(Handled(1, true)));
  }

  // ---- The stale hash ----

  lemma ScanNext(es: seq<Event>, s: State) returns (es': seq<Event>, s': State)
    requires Reaches(es, s) && !s.paused && s.db.sync.Some? && s.db.sync.value.height + 1 <= Height(s.tip)
    ensures Reaches(es', s') && s'.tip == s.tip && s'.verified == s.verified
    ensures var h := s.db.sync.value.height + 1;
            var b := AncestorAt(s.tip, h);
            && s'.db == Db(Some(Sync(h, Some(b))), s.db.hashes[h := b], s.db.rows) && !s'.paused
            && ReadIn(es') == ReadIn(es) + {b}
  {
    EmptyScan(s);
    ExtendReads(es, s, Scan([]));
    es', s' := Extend(es, s, Scan([]));
  }

  lemma NotReading(es: seq<Event>, s: State, e: Event) returns (es': seq<Event>, s': State)
    requires Reaches(es, s) && Enabled(0, s, e) && !Reads(e)
    ensures es' == es + [e] && Reaches(es', s') && s' == Apply(0, s, e) && ReadIn(es') == ReadIn(es)
  {
    ExtendReads(es, s, e);
    es', s' := Extend(es, s, e);
  }

  lemma BlocksOfB()
    ensures Height(B2) == 2 && AncestorAt(B2, 0) == G && AncestorAt(B2, 1) == B1 && AncestorAt(B2, 2) == B2
    ensures Height(B3) == 3 && AncestorAt(B3, 0) == G && AncestorAt(B3, 1) == B1
    ensures AncestorAt(B3, 2) == B2 && AncestorAt(B3, 3) == B3
  {
  }

  /** The switch as two events. */
  lemma Switched(es: seq<Event>, s: State, tip: Block) returns (es': seq<Event>, s': State)
    requires Reaches(es, s) && !s.paused && s.db.sync.Some? && s.db.sync.value.hash.Some?
    requires 1 <= s.db.sync.value.height <= Height(tip) && s.db.sync.value.height <= 2
    requires AncestorAt(tip, 0) == G && AncestorAt(tip, 1) == B1
    requires s.db.sync.value.hash != Some(AncestorAt(tip, s.db.sync.value.height))
    requires 0 in s.db.hashes && s.db.hashes[0] == G && 1 in s.db.hashes && s.db.hashes[1] == A1
    ensures Reaches(es', s') && ReadIn(es') == ReadIn(es)
    ensures s' == State(Db(Some(Sync(1, Some(B1))), s.db.hashes, MarkReorged(s.db.rows, 1)), tip, true, AtRisk(s.db, 1))
  {
    SwitchToB(s, tip);
    es', s' := NotReading(es, s, NewTip(tip));
    es', s' := NotReading(es', s', Check(Handled(1, true)));
  }

  /** The switch when the sync state could not be saved, and the scan after it. */
  lemma SwitchedUnsaved(es: seq<Event>, s: State, tip: Block) returns (es': seq<Event>, s': State)
    requires Reaches(es, s) && !s.paused && s.db.sync.Some? && s.db.sync.value.hash.Some? && !AtRisk(s.db, 1)
    requires 1 <= s.db.sync.value.height < Height(tip) && s.db.sync.value.height <= 2
    requires AncestorAt(tip, 0) == G && AncestorAt(tip, 1) == B1
    requires s.db.sync.value.hash != Some(AncestorAt(tip, s.db.sync.value.height))
    requires 0 in s.db.hashes && s.db.hashes[0] == G && 1 in s.db.hashes && s.db.hashes[1] == A1
    ensures Reaches(es', s') && s'.tip == tip && s'.verified
    ensures var h := s.db.sync.value.height + 1;
            var b := AncestorAt(tip, h);
            s'.db.sync == Some(Sync(h, Some(b))) && ReadIn(es') == ReadIn(es) + {b}
  {
    SwitchToB(s, tip);
    es', s' := NotReading(es, s, NewTip(tip));
    es', s' := NotReading(es', s', Check(Handled(1, false)));
    es', s' := ScanNext(es', s');
  }

  /** Chain a is scanned up to height 2. */
  lemma TwoOfA(f: Found) returns (es: seq<Event>, s: State)
    requires !f.overLimit
    ensures Reaches(es, s) && s.tip == A2 && s.verified && !s.paused && ReadIn(es) == {G, A1, A2}
    ensures s.db == Db(Some(Sync(2, Some(A2))), map[0 := G][1 := A1][2 := A2],
                       map[][f.key := Deposit(f.amount, f.base, 1, A1, Pending)])
  {
    es, s := OneDeposit(f);
    es, s := NotReading(es, s, NewTip(A2));
    assert Height(A2) == 2 && AncestorAt(A2, 2) == A2;
    es, s := NotReading(es, s, Check(Clean));
    es, s := ScanNext(es, s);
  }

  /** Then chain b replaces it: the hash of A2 stays behind. */
  lemma StaleHashLeft(f: Found) returns (es: seq<Event>, s: State)
    requires !f.overLimit
    ensures Reaches(es, s) && s.tip == B3 && s.verified && !s.paused
    ensures s.db.sync == Some(Sync(1, Some(B1))) && 2 in s.db.hashes && s.db.hashes[2] == A2
    ensures s.db.rows.Keys == {f.key}
  {
    es, s := TwoOfA(f);
    assert !AtRisk(s.db, 1);
    BlocksOfB();
    es, s := Switched(es, s, B3);
  }

  /** The process stops between setting the sync state of a block and storing its hash, then scans the next. */
  lemma CutThenScan(es: seq<Event>, s: State, c: Found) returns (es': seq<Event>, s': State)
    requires Reaches(es, s) && !s.paused && s.db.sync.Some? && s.db.sync.value.height + 2 <= Height(s.tip)
    requires !c.overLimit && c.key !in s.db.rows
    ensures Reaches(es', s') && s'.tip == s.tip && !s'.paused
    ensures var h := s.db.sync.value.height + 1;
            && s'.db.sync == Some(Sync(h + 1, Some(AncestorAt(s.tip, h + 1))))
            && (h in s.db.hashes ==> h in s'.db.hashes && s'.db.hashes[h] == s.db.hashes[h])
            && c.key in s'.db.rows
            && s'.db.rows[c.key] == Deposit(c.amount, c.base, h, AncestorAt(s.tip, h), Pending)
  {
    CutOne(s, c);
    es', s' := Extend(es, s, CutScan([c], true));
    EmptyScan(s');
    es', s' := Extend(es', s', Scan([]));
  }

  lemma ReturnToA(es: seq<Event>, s: State, c: Found) returns (es': seq<Event>, s': State)
    requires Reaches(es, s) && !s.paused && s.db.sync == Some(Sync(3, Some(B3)))
    requires 2 in s.db.hashes && s.db.hashes[2] == A2
    requires c.key in s.db.rows && s.db.rows[c.key] == Deposit(c.amount, c.base, 2, B2, Pending)
    ensures Reaches(es', s') && Stray(s', c.key) && es'[|es'| - 1] == Check(Handled(3, true))
  {
    es', s' := Extend(es, s, NewTip(A3));
    assert Height(A3) == 3 && AncestorAt(A3, 2) == A2 && MatchAt(s'.db, A3, 2);
    es', s' := Extend(es', s', Check(Handled(3, true)));
  }

  /** The node returns to chain a: the check takes the hash of A2 for the fork point and leaves B2's deposit. */
  lemma StaleHashRun(f: Found, c: Found) returns (es: seq<Event>, s: State)
    requires !f.overLimit && !c.overLimit && f.key != c.key
    ensures Reaches(es, s) && Stray(s, c.key) && es[|es| - 1] == Check(Handled(3, true))
  {
    es, s := StaleHashLeft(f);
    BlocksOfB();
    es, s := CutThenScan(es, s, c);
    es, s := ReturnToA(es, s, c);
  }

  // ---- The chain reset ----

  function Tower(b: Block, n: nat): Block {
    if n == 0 then b else Child(Tower(b, n - 1), 0)
  }

  lemma {:induction false} TowerStands(b: Block, n: nat)
    ensures Height(Tower(b, n)) == Height(b) + n && OnChain(b, Tower(b, n))
  {
    if n > 0 {
      TowerStands(b, n - 1);
    }
  }

  lemma {:induction false} EmptyScans(es: seq<Event>, s: State, n: nat) returns (es': seq<Event>, s': State)
    requires Reaches(es, s) && !s.paused && s.db.sync.Some? && s.db.sync.value.height + n <= Height(s.tip)
    ensures Reaches(es', s') && s'.tip == s.tip && !s'.paused && s'.db.rows == s.db.rows
    ensures s'.db.sync.Some? && s'.db.sync.value.height == s.db.sync.value.height + n
  {
    es', s' := es, s;
    for i := 0 to n
      invariant Reaches(es', s') && s'.tip == s.tip && !s'.paused && s'.db.rows == s.db.rows
      invariant s'.db.sync.Some? && s'.db.sync.value.height == s.db.sync.value.height + i
    {
      EmptyScan(s');
      es', s' := Extend(es', s', Scan([]));
    }
  }

  /** Another `n` blocks of chain a, without deposits. */
  lemma LongChain(f: Found, n: nat) returns (es: seq<Event>, s: State)
    requires !f.overLimit
    ensures Reaches(es, s) && !s.paused && s.db.rows == map[][f.key := Deposit(f.amount, f.base, 1, A1, Pending)]
    ensures s.db.sync.Some? && s.db.sync.value.height == 1 + n
  {
    es, s := OneDeposit(f);
    TowerStands(A1, n);
    es, s := Extend(es, s, NewTip(Tower(A1, n)));
    es, s := Extend(es, s, Check(Clean));
    es, s := EmptyScans(es, s, n);
  }

  /** More than 100 blocks later the node comes back with a chain of one block. */
  lemma ChainResetRun(f: Found) returns (es: seq<Event>, s: State)
    requires !f.overLimit
    ensures Reaches(es, s) && Stray(s, f.key) && es[|es| - 1] == Check(Clean) && Check(ChainReset(true)) in es
  {
    es, s := LongChain(f, RESET_GAP + 1);
    es, s := Extend(es, s, NewTip(B1));
    assert Height(B1) == 1;
    ResetTwice(s);
    es, s := Extend(es, s, Check(ChainReset(true)));
    es, s := Extend(es, s, Check(Clean));
  }

  // ---- Blocks that are never read ----

  /** The reorg is handled without any fault, and the new chain's block at the fork height is never read. */
  lemma SkippedBlockRun(f: Found) returns (es: seq<Event>, s: State)
    requires !f.overLimit
    ensures Reaches(es, s) && s.tip == B2 && s.verified && s.db.sync == Some(Sync(2, Some(B2)))
    ensures OnChain(B1, B2) && B1 !in ReadIn(es)
  {
    es, s := OneDeposit(f);
    assert !AtRisk(s.db, 1);
    BlocksOfB();
    es, s := Switched(es, s, B2);
    es, s := ScanNext(es, s);
  }

  lemma UnreadOfB(read: set<Block>)
    requires read == {G, A1, A2} + {B3}
    ensures OnChain(B1, B3) && OnChain(B2, B3) && B1 !in read && B2 !in read
  {
  }

  /** The sync state could not be set back to the fork: the scan goes on above the old height, and every block of
      the new chain from the fork to there is never read. */
  lemma SkippedRangeRun(f: Found) returns (es: seq<Event>, s: State)
    requires !f.overLimit
    ensures Reaches(es, s) && s.tip == B3 && s.verified && s.db.sync == Some(Sync(3, Some(B3)))
    ensures OnChain(B1, B3) && OnChain(B2, B3) && B1 !in ReadIn(es) && B2 !in ReadIn(es)
  {
    es, s := TwoOfA(f);
    assert !AtRisk(s.db, 1);
    BlocksOfB();
    es, s := SwitchedUnsaved(es, s, B3);
    UnreadOfB(ReadIn(es));
  }
}
