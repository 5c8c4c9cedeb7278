/** The polling iteration of the relayer on one native chain: the reorg check and the deposit scan as
loops over database commits and node calls that may fail at any time. Each method is tied to the
events of module `Reorg`. */
module BridgeScan {
  import opened Wrappers
  import opened Blocks
  import opened StateDb
  import opened Reorg

  /** A node call; None is a failed call. A height above the tip always fails. */
  method GetBlockHash(tip: Block, h: nat) returns (r: Option<Block>)
    ensures r.Some? ==> h <= Height(tip) && r.value == AncestorAt(tip, h)
  {
    var reachable: bool := *;
    r := if reachable && h <= Height(tip) then Some(AncestorAt(tip, h)) else None;
  }

  /** How the walkback ended: a node call failed, the bound was reached, or the reorg starts at `fork`. */
  datatype Walk = Aborted | Exhausted | ForkAt(fork: nat)

  class BridgeRelayer {
    const db: StateDB
    const start: nat
    var paused: bool

    constructor (db: StateDB, start: nat)
      ensures this.db == db && this.start == start && !paused
    {
      this.db, this.start, paused := db, start, false;
    }

    method CheckReorgs(tip: Block) returns (outcome: CheckOutcome)
      requires !paused
      modifies this, db
      ensures CheckEnabled(old(db.View()), tip, outcome)
      ensures db.View() == CheckDb(start, old(db.View()), tip, outcome)
      ensures paused == Pauses(old(db.View()), outcome)
    {
      if db.sync.None? { return NoSync; }
      var storedHeight, storedHash := db.sync.value.height, db.sync.value.hash;
      var reachable: bool := *;
      if !reachable { return Unreachable; }
      if storedHeight > Height(tip) + RESET_GAP {
        if start <= Height(tip) {
          var resetHash := GetBlockHash(tip, start);
          if resetHash.None? { return ChainReset(false); }
          db.SetSyncState(start, resetHash);
        } else {
          db.SetSyncState(start, None);
        }
        return ChainReset(true);
      }
      var currentHash := GetBlockHash(tip, storedHeight);
      if currentHash.None? { return Unreachable; }
      if currentHash == storedHash { return Clean; }

      var walk := WalkBack(tip, storedHeight);
      if walk.Aborted? { return WalkAborted; }
      if walk.Exhausted? {
        paused := true;
        return TooDeep;
      }
      var fork := walk.fork;
      if exists k | k in db.rows :: db.rows[k].status.Minted? && fork <= db.rows[k].height <= storedHeight {
        paused := true;
      }
      db.MarkDepositsReorged(fork);
      var forkHash := GetBlockHash(tip, fork);
      if forkHash.None? { return Handled(fork, false); }
      db.SetSyncState(fork, forkHash);
      return Handled(fork, true);
    }

    /** The walkback loop over the stored hashes below the synced height. */
    method WalkBack(tip: Block, storedHeight: nat) returns (r: Walk)
      requires db.sync.Some? && db.sync.value.height == storedHeight
      ensures r.ForkAt? ==> StopsAt(db.View(), tip, r.fork)
      ensures r.Exhausted? ==> NoMatch(db.View(), tip)
    {
      var fork: nat, walked: nat := storedHeight, 0;
      while fork > 0 && walked < MAX_WALKBACK
        invariant fork + walked == storedHeight && walked <= MAX_WALKBACK
        invariant forall h | fork <= h < storedHeight :: !MatchAt(db.View(), tip, h)
        decreases fork
      {
        fork, walked := fork - 1, walked + 1;
        var chainHash := GetBlockHash(tip, fork);
        if chainHash.None? { return Aborted; }
        if fork in db.hashes && db.hashes[fork] == chainHash.value {
          return ForkAt(fork + 1);
        }
      }
      r := if walked >= MAX_WALKBACK then Exhausted else ForkAt(fork);
    }

    /** Records the payments found in one block, then advances the sync state and the hash history. */
    method ScanOneBlock(b: Block, found: seq<Found>)
      modifies db
      ensures db.View() == ScanBlock(old(db.View()), b, found)
      ensures forall f | f in found :: f.key in db.rows && (f.overLimit ==> db.rows[f.key].status.OverLimit?)
    {
      for i := 0 to |found|
        invariant db.View() == old(db.View()).(rows := RecordAll(old(db.rows), found[..i], b))
      {
        assert found[..i + 1][..i] == found[..i];
        var f := found[i];
        var _ := db.InsertNew(f.key, Deposit(f.amount, f.base, Height(b), b, Pending));
        if f.overLimit {
          db.UpdateStatus(f.key, OverLimit);
        }
      }
      assert found[..|found|] == found;
      forall f | f in found ensures f.key in db.rows && (f.overLimit ==> db.rows[f.key].status.OverLimit?) {
        RecordedStatus(old(db.rows), found, b, f.key);
      }
      db.SetSyncState(Height(b), Some(b));
      db.StoreBlockHash(Height(b), b);
    }

    /** Scans up to the node's tip, stopping early at the first failed node call. */
    method ScanDeposits(tip: Block, contents: Block -> seq<Found>, ghost s: State) returns (ghost es: seq<Event>)
      requires !paused && s.db == db.View() && s.tip == tip && !s.paused
      modifies db
      ensures forall e | e in es :: e.Scan? || e.Prune?
      ensures IsRun(start, s, es) && Exec(start, s, es) == s.(db := db.View())
    {
      es := [];
      var reachable: bool := *;
      if !reachable { return; }
      var height := if db.sync.Some? then db.sync.value.height + 1 else start;
      if height > Height(tip) + RESET_GAP {
        height := start;
      }
      if height > Height(tip) { return; }
      while height <= Height(tip)
        invariant forall e | e in es :: e.Scan? || e.Prune?
        invariant IsRun(start, s, es) && Exec(start, s, es) == s.(db := db.View())
        invariant height <= Height(tip) ==> height == NextHeight(start, db.View(), tip)
      {
        var hash := GetBlockHash(tip, height);
        if hash.None? { break; }
        var found := contents(hash.value);
        ExecAppend(start, s, es, Scan(found));
        es := es + [Scan(found)];
        ScanOneBlock(hash.value, found);
        height := height + 1;
      }
      var top := db.PruneBlockHashes(KEEP_HASHES);
      ExecAppend(start, s, es, Prune(top));
      es := es + [Prune(top)];
    }

    /** One polling iteration: a scan follows unless the check paused the bridge. When the check
        completed, the iteration keeps the conditions under which `ReorgSoundness` holds. */
    method Poll(tip: Block, contents: Block -> seq<Found>, ghost s: State)
      returns (outcome: CheckOutcome, ghost es: seq<Event>)
      requires !paused && s.db == db.View() && s.tip == tip && !s.paused && StateInv(s)
      modifies this, db
      ensures |es| > 0 && es[0] == Check(outcome)
      ensures IsRun(start, s, es) && Exec(start, s, es).db == db.View()
      ensures Completed(outcome) ==>
                StateInv(Exec(start, s, es)) && AllOnChain(db.View(), tip)
    {
      outcome := CheckReorgs(tip);
      ExecAppend(start, s, [], Check(outcome));
      es := [] + [Check(outcome)];
      if !paused {
        ghost var s1 := Exec(start, s, es);
        ghost var more := ScanDeposits(tip, contents, s1);
        RunsCompose(start, s, es, more);
        es := es + more;
        if Completed(outcome) {
          StepKeepsInv(start, s, Check(outcome));
          ScansKeepInv(start, s1, more);
        }
      } else if Completed(outcome) {
        StepKeepsInv(start, s, Check(outcome));
      }
    }
  }

  lemma {:induction false} RunsCompose(start: nat, s: State, es: seq<Event>, more: seq<Event>)
    requires IsRun(start, s, es) && IsRun(start, Exec(start, s, es), more)
    ensures IsRun(start, s, es + more)
    ensures Exec(start, s, es + more) == Exec(start, Exec(start, s, es), more)
    decreases |more|
  {
    if more == [] {
      assert es + more == es;
    } else {
      var init := more[..|more| - 1];
      RunsCompose(start, s, es, init);
      assert (es + more)[..|es + more| - 1] == es + init;
    }
  }

  lemma {:induction false} ScansKeepInv(start: nat, s: State, es: seq<Event>)
    requires StateInv(s) && s.verified && IsRun(start, s, es)
    requires forall e | e in es :: e.Scan? || e.Prune?
    ensures StateInv(Exec(start, s, es)) && Exec(start, s, es).verified && Exec(start, s, es).tip == s.tip
    decreases |es|
  {
    if es != [] {
      ScansKeepInv(start, s, es[..|es| - 1]);
      assert es[|es| - 1] in es;
      StepKeepsInv(start, Exec(start, s, es[..|es| - 1]), es[|es| - 1]);
    }
  }
}
