/** Which blocks the scanner has read: whether every block of the synced chain, from the bridge's start height
up, was read at some point of the run, and which steps break that. */
module ScanCoverage {
  import opened Wrappers
  import opened Blocks
  import opened StateDb
  import opened Reorg

  function NextBlock(start: nat, s: State): Block
    requires NextHeight(start, s.db, s.tip) <= Height(s.tip)
  {
    AncestorAt(s.tip, NextHeight(start, s.db, s.tip))
  }

  /** A step reads a block when the scan gets at least as far as setting the sync state. */
  predicate Reads(e: Event) {
    e.Scan? || (e.CutScan? && e.synced)
  }

  function ReadBy(start: nat, s: State, e: Event): set<Block>
    requires Enabled(start, s, e)
  {
    if Reads(e) then {NextBlock(start, s)} else {}
  }

  function ReadAlong(start: nat, s: State, es: seq<Event>): set<Block>
    requires IsRun(start, s, es)
  {
    if es == [] then {}
    else
      var init := es[..|es| - 1];
      ReadAlong(start, s, init) + ReadBy(start, Exec(start, s, init), es[|es| - 1])
  }

  /** `b` and all its ancestors from height `start` on have been read. */
  ghost predicate Covered(start: nat, read: set<Block>, b: Block) {
    forall h | start <= h <= Height(b) :: AncestorAt(b, h) in read
  }

  ghost predicate HashCovered(start: nat, read: set<Block>, hashes: map<nat, Block>, h: nat)
    requires h in hashes
  {
    Height(hashes[h]) == h && Covered(start, read, hashes[h])
  }

  /** The synced block and every stored hash are covered. */
  ghost predicate Complete(start: nat, read: set<Block>, db: Db) {
    && (forall h {:trigger HashCovered(start, read, db.hashes, h)} | h in db.hashes ::
          HashCovered(start, read, db.hashes, h))
    && (db.sync.Some? ==>
          && db.sync.value.hash.Some? && Height(db.sync.value.hash.value) == db.sync.value.height
          && Covered(start, read, db.sync.value.hash.value))
  }

  /** Height up to which the node's chain is the synced one. */
  function Shared(s: State): int {
    if s.db.sync.Some? && s.db.sync.value.hash.Some? then SharedHeight(s.db.sync.value.hash.value, s.tip) else -1
  }

  /** What a step must find for coverage to survive it. Setting the sync state back to the fork, or to the start
      after a chain reset, must name a block that was read before; a scan must follow blocks that were. */
  ghost predicate NoGap(start: nat, read: set<Block>, s: State, e: Event)
    requires Enabled(start, s, e)
  {
    if e.Check? && e.outcome.Handled? && e.outcome.synced then
      e.outcome.fork < start || AncestorAt(s.tip, e.outcome.fork) in read
    else if e.Check? && e.outcome.ChainReset? && e.outcome.saved then
      start <= Height(s.tip) && AncestorAt(s.tip, start) in read
    else if Reads(e) then
      GapRead(start, read, s)
    else true
  }

  /** The node's blocks between the shared height and the next block to scan have been read. */
  ghost predicate GapRead(start: nat, read: set<Block>, s: State)
    requires NextHeight(start, s.db, s.tip) <= Height(s.tip)
  {
    forall h | start <= h < NextHeight(start, s.db, s.tip) && h > Shared(s) :: AncestorAt(s.tip, h) in read
  }

  lemma CoveredGrows(start: nat, read: set<Block>, more: set<Block>, b: Block)
    requires Covered(start, read, b) && read <= more
    ensures Covered(start, more, b)
  {
  }

  lemma CompleteGrows(start: nat, read: set<Block>, more: set<Block>, db: Db)
    requires Complete(start, read, db) && read <= more
    ensures Complete(start, more, db)
  {
    forall h | h in db.hashes ensures HashCovered(start, more, db.hashes, h) {
      assert HashCovered(start, read, db.hashes, h);
    }
  }

  /** Up to the shared height two chains have the same blocks. */
  lemma SameUpTo(a: Block, b: Block, h: nat)
    requires h <= SharedHeight(a, b)
    ensures AncestorAt(a, h) == AncestorAt(b, h)
  {
    AncestorOfAncestor(a, h, h);
    ForkPointSplits(AncestorAt(a, h), a, b);
  }

  /** One more block on a chain whose lower part is covered. */
  lemma CoveredStep(start: nat, read: set<Block>, tip: Block, n: nat)
    requires n <= Height(tip) && (n > 0 ==> Covered(start, read, AncestorAt(tip, n - 1)))
    ensures Covered(start, read, AncestorAt(tip, n)) <==> n < start || AncestorAt(tip, n) in read
  {
    var b := AncestorAt(tip, n);
    assert AncestorAt(b, n) == b;
    forall h | start <= h < n ensures AncestorAt(b, h) in read {
      AncestorOfAncestor(tip, n, h);
      AncestorOfAncestor(tip, n - 1, h);
      assert AncestorAt(AncestorAt(tip, n - 1), h) in read;
    }
    if n < start || b in read {
      forall h | start <= h <= n ensures AncestorAt(b, h) in read {
      }
    }
  }

  lemma HandledExact(start: nat, read: set<Block>, s: State, fork: nat)
    requires Complete(start, read, s.db) && Enabled(start, s, Check(Handled(fork, true)))
    ensures Complete(start, read, Apply(start, s, Check(Handled(fork, true))).db)
       <==> fork < start || AncestorAt(s.tip, fork) in read
  {
    if fork > 0 {
      assert HashCovered(start, read, s.db.hashes, fork - 1);
    }
    CoveredStep(start, read, s.tip, fork);
    var db' := Apply(start, s, Check(Handled(fork, true))).db;
    assert db'.hashes == s.db.hashes && db'.sync == Some(Sync(fork, Some(AncestorAt(s.tip, fork))));
  }

  lemma ResetExact(start: nat, read: set<Block>, s: State)
    requires Complete(start, read, s.db) && Enabled(start, s, Check(ChainReset(true)))
    ensures Complete(start, read, Apply(start, s, Check(ChainReset(true))).db)
       <==> start <= Height(s.tip) && AncestorAt(s.tip, start) in read
  {
    if start <= Height(s.tip) {
      var b := AncestorAt(s.tip, start);
      assert Covered(start, read, b) <==> b in read by { assert AncestorAt(b, start) == b; }
    }
  }

  /** The block a scan reads is covered afterwards exactly when the node's blocks above the shared height were. */
  lemma NextCovered(start: nat, read: set<Block>, s: State)
    requires Complete(start, read, s.db) && NextHeight(start, s.db, s.tip) <= Height(s.tip)
    ensures var b := NextBlock(start, s);
            Covered(start, read + {b}, b) <==> GapRead(start, read, s)
  {
    var b := NextBlock(start, s);
    var n := NextHeight(start, s.db, s.tip);
    assert AncestorAt(b, n) == b;
    forall h | start <= h < n
      ensures AncestorAt(b, h) == AncestorAt(s.tip, h) && AncestorAt(b, h) != b
      ensures h <= Shared(s) ==> AncestorAt(b, h) in read
    {
      AncestorOfAncestor(s.tip, n, h);
      if h <= Shared(s) {
        SameUpTo(s.db.sync.value.hash.value, s.tip, h);
        assert AncestorAt(s.db.sync.value.hash.value, h) in read;
      }
    }
    if Covered(start, read + {b}, b) {
      forall h | start <= h < n && h > Shared(s) ensures AncestorAt(s.tip, h) in read {
        assert AncestorAt(b, h) in read + {b};
      }
    }
    if GapRead(start, read, s) {
      forall h | start <= h <= n ensures AncestorAt(b, h) in read + {b} {
        assert h < n && h > Shared(s) ==> AncestorAt(s.tip, h) in read;
      }
    }
  }

  lemma ReadExact(start: nat, read: set<Block>, s: State, e: Event)
    requires Complete(start, read, s.db) && Enabled(start, s, e) && Reads(e)
    ensures Complete(start, read + ReadBy(start, s, e), Apply(start, s, e).db) <==> NoGap(start, read, s, e)
  {
    var b := NextBlock(start, s);
    var more, db' := read + {b}, Apply(start, s, e).db;
    NextCovered(start, read, s);
    CompleteGrows(start, read, more, s.db);
    assert db'.sync == Some(Sync(Height(b), Some(b)));
    if Covered(start, more, b) {
      forall h | h in db'.hashes ensures HashCovered(start, more, db'.hashes, h) {
        if !(e.Scan? && h == Height(b)) {
          assert db'.hashes[h] == s.db.hashes[h];
          assert HashCovered(start, more, s.db.hashes, h);
        }
      }
    }
  }

  lemma PruneKeeps(start: nat, read: set<Block>, db: Db, top: nat)
    requires Complete(start, read, db)
    ensures Complete(start, read, db.(hashes := PruneHashes(db.hashes, top, KEEP_HASHES)))
  {
    var hashes' := PruneHashes(db.hashes, top, KEEP_HASHES);
    forall h | h in hashes' ensures HashCovered(start, read, hashes', h) {
      assert HashCovered(start, read, db.hashes, h);
    }
  }

  lemma OtherKeeps(start: nat, read: set<Block>, db: Db, db': Db)
    requires Complete(start, read, db) && db'.sync == db.sync && db'.hashes == db.hashes
    ensures Complete(start, read, db')
  {
    forall h | h in db'.hashes ensures HashCovered(start, read, db'.hashes, h) {
      assert HashCovered(start, read, db.hashes, h);
    }
  }

  /** Exactly the steps that skip a block break the coverage. */
  lemma StepCompleteExact(start: nat, read: set<Block>, s: State, e: Event)
    requires Complete(start, read, s.db) && Enabled(start, s, e)
    ensures Complete(start, read + ReadBy(start, s, e), Apply(start, s, e).db) <==> NoGap(start, read, s, e)
  {
    if Reads(e) {
      ReadExact(start, read, s, e);
    } else {
      assert read + ReadBy(start, s, e) == read;
      if e.Check? && e.outcome.Handled? && e.outcome.synced {
        HandledExact(start, read, s, e.outcome.fork);
      } else if e.Check? && e.outcome.ChainReset? && e.outcome.saved {
        ResetExact(start, read, s);
      } else if e.Prune? {
        PruneKeeps(start, read, s.db, e.top);
      } else {
        OtherKeeps(start, read, s.db, Apply(start, s, e).db);
      }
    }
  }

  /** No step of the run skips a block. */
  ghost predicate Gapless(start: nat, s: State, es: seq<Event>)
    requires IsRun(start, s, es)
  {
    es == [] ||
    var init := es[..|es| - 1];
    Gapless(start, s, init) && NoGap(start, ReadAlong(start, s, init), Exec(start, s, init), es[|es| - 1])
  }

  /** In every run without such a step, all blocks of the synced chain from the start height on were read. */
  lemma {:induction false} AllBlocksRead(start: nat, tip: Block, es: seq<Event>)
    requires IsRun(start, Fresh(tip), es) && Gapless(start, Fresh(tip), es)
    ensures Complete(start, ReadAlong(start, Fresh(tip), es), Exec(start, Fresh(tip), es).db)
    decreases |es|
  {
    if es != [] {
      var init := es[..|es| - 1];
      AllBlocksRead(start, tip, init);
      StepCompleteExact(start, ReadAlong(start, Fresh(tip), init), Exec(start, Fresh(tip), init), es[|es| - 1]);
    }
  }

  /** A scan goes on right above the synced block, or at the start height when that block is 100 or more above the
      node's tip; it is possible exactly when the bridge is not paused and the node has that block. */
  lemma ScanAdvances(start: nat, s: State, found: seq<Found>)
    requires s.db.sync.Some?
    ensures var next := if s.db.sync.value.height >= Height(s.tip) + 100 then start else s.db.sync.value.height + 1;
            && (Enabled(start, s, Scan(found)) <==> !s.paused && next <= Height(s.tip))
            && (Enabled(start, s, Scan(found)) ==>
                  Apply(start, s, Scan(found)).db.sync == Some(Sync(next, Some(AncestorAt(s.tip, next)))))
  {
  }

  lemma {:induction false} UnsyncedUntilRead(start: nat, tip: Block, es: seq<Event>)
    requires IsRun(start, Fresh(tip), es) && ReadAlong(start, Fresh(tip), es) == {}
    ensures Exec(start, Fresh(tip), es).db.sync.None?
    decreases |es|
  {
    if es != [] {
      var init := es[..|es| - 1];
      assert ReadAlong(start, Fresh(tip), init) <= ReadAlong(start, Fresh(tip), es);
      UnsyncedUntilRead(start, tip, init);
    }
  }

  /** The first block that a run from empty tables reads is the one at the start height. */
  lemma FirstReadIsStart(start: nat, tip: Block, es: seq<Event>, e: Event)
    requires IsRun(start, Fresh(tip), es) && ReadAlong(start, Fresh(tip), es) == {}
    requires Enabled(start, Exec(start, Fresh(tip), es), e) && Reads(e)
    ensures var s := Exec(start, Fresh(tip), es);
            start <= Height(s.tip) && ReadBy(start, s, e) == {AncestorAt(s.tip, start)}
  {
    UnsyncedUntilRead(start, tip, es);
  }

  /** The scans record what the blocks hold. */
  ghost predicate Truthful(start: nat, s: State, es: seq<Event>, contents: Block -> seq<Found>)
    requires IsRun(start, s, es)
  {
    es == [] ||
    var init, e := es[..|es| - 1], es[|es| - 1];
    Truthful(start, s, init, contents) && (Reads(e) ==> e.found == contents(NextBlock(start, Exec(start, s, init))))
  }

  lemma {:induction false} ReadBlocksHaveRows(start: nat, s: State, es: seq<Event>, contents: Block -> seq<Found>,
                                              b: Block, f: Found)
    requires IsRun(start, s, es) && Truthful(start, s, es, contents)
    requires b in ReadAlong(start, s, es) && f in contents(b)
    ensures f.key in Exec(start, s, es).db.rows
    decreases |es|
  {
    var init, e := es[..|es| - 1], es[|es| - 1];
    var s0 := Exec(start, s, init);
    if b in ReadAlong(start, s, init) {
      ReadBlocksHaveRows(start, s, init, contents, b, f);
      StepCarries(start, s0, e, f.key);
    } else {
      RecordAllHas(s0.db.rows, e.found, NextBlock(start, s0), f);
    }
  }

  /** Scan completeness: in every gapless run each payment in each block of the synced chain, from the start
      height on, has a row. */
  lemma ScanCompleteness(start: nat, tip: Block, es: seq<Event>, contents: Block -> seq<Found>, h: nat, f: Found)
    requires IsRun(start, Fresh(tip), es) && Gapless(start, Fresh(tip), es) && Truthful(start, Fresh(tip), es, contents)
    requires var sync := Exec(start, Fresh(tip), es).db.sync;
             && sync.Some? && sync.value.hash.Some? && start <= h <= Height(sync.value.hash.value)
             && f in contents(AncestorAt(sync.value.hash.value, h))
    ensures f.key in Exec(start, Fresh(tip), es).db.rows
  {
    AllBlocksRead(start, tip, es);
    var b := AncestorAt(Exec(start, Fresh(tip), es).db.sync.value.hash.value, h);
    ReadBlocksHaveRows(start, Fresh(tip), es, contents, b, f);
  }
}
