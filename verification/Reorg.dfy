/** Reorg detection and deposit scanning as a state machine over the database commits of one native
chain. Between events the process may crash and restart and the node may switch to any other chain. */
module Reorg {
  import opened Wrappers
  import opened Blocks
  import opened StateDb

  const MAX_WALKBACK: nat := 100
  const RESET_GAP: nat := 100
  const KEEP_HASHES: nat := 200

  /** How one call of the reorg check ended. `saved` and `synced` tell whether the final update of the
      sync state was committed. */
  datatype CheckOutcome =
    | NoSync
    | Unreachable
    | ChainReset(saved: bool)
    | Clean
    | WalkAborted
    | TooDeep
    | Handled(fork: nat, synced: bool)

  datatype Event =
    | NewTip(tip: Block)
    | Check(outcome: CheckOutcome)
    | Scan(found: seq<Found>)
    | CutScan(found: seq<Found>, synced: bool)
    | Prune(top: nat)
    | SetRow(key: Outpoint, status: DepositStatus)
    | Crash

  /** `verified`: a reorg check has run to completion since the node's chain last changed. */
  datatype State = State(db: Db, tip: Block, verified: bool, paused: bool)

  // ---- The reorg check ----

  predicate MatchAt(db: Db, tip: Block, h: nat) {
    h <= Height(tip) && h in db.hashes && db.hashes[h] == AncestorAt(tip, h)
  }

  predicate Differs(db: Db, tip: Block) {
    db.sync.Some? && db.sync.value.height <= Height(tip)
    && db.sync.value.hash != Some(AncestorAt(tip, db.sync.value.height))
  }

  /** The walkback stops at `fork`: one above the highest matching stored hash among the
      `MAX_WALKBACK` heights below the synced one, or 0 when it reaches height 0 earlier. */
  predicate StopsAt(db: Db, tip: Block, fork: nat)
    requires db.sync.Some?
  {
    var sh := db.sync.value.height;
    && fork <= sh
    && (forall h | fork <= h < sh :: !MatchAt(db, tip, h))
    && if fork == 0 then sh < MAX_WALKBACK
       else MatchAt(db, tip, fork - 1) && sh - (fork - 1) <= MAX_WALKBACK
  }

  predicate NoMatch(db: Db, tip: Block)
    requires db.sync.Some?
  {
    var sh := db.sync.value.height;
    sh >= MAX_WALKBACK && forall h | sh - MAX_WALKBACK <= h < sh :: !MatchAt(db, tip, h)
  }

  predicate IsReset(db: Db, tip: Block) {
    db.sync.Some? && db.sync.value.height > Height(tip) + RESET_GAP
  }

  predicate CheckEnabled(db: Db, tip: Block, o: CheckOutcome) {
    match o
    case NoSync => db.sync.None?
    case Unreachable => db.sync.Some?
    case ChainReset(_) => IsReset(db, tip)
    case Clean => db.sync.Some? && db.sync.value.height <= Height(tip) && !Differs(db, tip)
    case WalkAborted => Differs(db, tip)
    case TooDeep => Differs(db, tip) && NoMatch(db, tip)
    case Handled(fork, _) => Differs(db, tip) && StopsAt(db, tip, fork)
  }

  function ReportedAt(tip: Block, h: nat): Option<Block> {
    if h <= Height(tip) then Some(AncestorAt(tip, h)) else None
  }

  function CheckDb(start: nat, db: Db, tip: Block, o: CheckOutcome): Db
    requires CheckEnabled(db, tip, o)
  {
    match o
    case ChainReset(saved) =>
      if saved then db.(sync := Some(Sync(start, ReportedAt(tip, start)))) else db
    case Handled(fork, synced) =>
      var marked := db.(rows := MarkReorged(db.rows, fork));
      if synced then marked.(sync := Some(Sync(fork, ReportedAt(tip, fork)))) else marked
    case _ => db
  }

  predicate Completed(o: CheckOutcome) {
    o.NoSync? || o.Clean? || o.Handled?
  }

  /** A minted deposit lies in the replaced range, so wrapped tokens may be unbacked. */
  predicate AtRisk(db: Db, fork: nat)
    requires db.sync.Some?
  {
    exists k | k in db.rows ::
      db.rows[k].status.Minted? && fork <= db.rows[k].height <= db.sync.value.height
  }

  predicate Pauses(db: Db, o: CheckOutcome)
    requires o.Handled? ==> db.sync.Some?
  {
    o.TooDeep? || (o.Handled? && AtRisk(db, o.fork))
  }

  // ---- The scan ----

  /** The height the next block scan reads: one above the synced height, or the bridge's start height
      when nothing is synced or the synced height is implausibly far ahead. */
  function NextHeight(start: nat, db: Db, tip: Block): nat {
    if db.sync.None? || db.sync.value.height + 1 > Height(tip) + RESET_GAP then start
    else db.sync.value.height + 1
  }

  function ScanBlock(db: Db, b: Block, found: seq<Found>): Db {
    Db(Some(Sync(Height(b), Some(b))), db.hashes[Height(b) := b], RecordAll(db.rows, found, b))
  }

  function CutScanBlock(db: Db, b: Block, found: seq<Found>, synced: bool): Db {
    var recorded := db.(rows := RecordAll(db.rows, found, b));
    if synced then recorded.(sync := Some(Sync(Height(b), Some(b)))) else recorded
  }

  // ---- The machine ----

  predicate Enabled(start: nat, s: State, e: Event) {
    match e
    case NewTip(_) => true
    case Check(o) => !s.paused && CheckEnabled(s.db, s.tip, o)
    case Scan(_) => !s.paused && NextHeight(start, s.db, s.tip) <= Height(s.tip)
    case CutScan(_, _) => !s.paused && NextHeight(start, s.db, s.tip) <= Height(s.tip)
    case Prune(_) => true
    // Confirmation, minting and refunding. A paused bridge still resolves refunds that it sent before.
    case SetRow(k, status) =>
      k in s.db.rows && Moves(s.db.rows[k], status) && (s.paused ==> s.db.rows[k].status.Refunding?)
    case Crash => true
  }

  function Apply(start: nat, s: State, e: Event): State
    requires Enabled(start, s, e)
  {
    match e
    case NewTip(tip) => s.(tip := tip, verified := false)
    case Check(o) =>
      State(CheckDb(start, s.db, s.tip, o), s.tip, s.verified || Completed(o), Pauses(s.db, o))
    case Scan(found) =>
      s.(db := ScanBlock(s.db, AncestorAt(s.tip, NextHeight(start, s.db, s.tip)), found))
    case CutScan(found, synced) =>
      s.(db := CutScanBlock(s.db, AncestorAt(s.tip, NextHeight(start, s.db, s.tip)), found, synced))
    case Prune(top) => s.(db := s.db.(hashes := PruneHashes(s.db.hashes, top, KEEP_HASHES)))
    case SetRow(k, status) => s.(db := s.db.(rows := SetStatus(s.db.rows, k, status)))
    case Crash => s.(paused := false)
  }

  predicate IsRun(start: nat, s: State, es: seq<Event>)
    decreases |es|, 0
  {
    es == [] ||
    var init := es[..|es| - 1];
    IsRun(start, s, init) && Enabled(start, Exec(start, s, init), es[|es| - 1])
  }

  function Exec(start: nat, s: State, es: seq<Event>): State
    requires IsRun(start, s, es)
    decreases |es|, 1
  {
    if es == [] then s else Apply(start, Exec(start, s, es[..|es| - 1]), es[|es| - 1])
  }

  /** The run never takes the chain-reset branch of the check, never stops inside a block scan, and
      scans blocks only after a reorg check completed on the chain it scans. */
  predicate Careful(start: nat, s: State, es: seq<Event>)
    requires IsRun(start, s, es)
  {
    es == [] ||
    var init, e := es[..|es| - 1], es[|es| - 1];
    && Careful(start, s, init)
    && !e.CutScan?
    && !(e.Check? && e.outcome.ChainReset?)
    && (e.Scan? ==> Exec(start, s, init).verified)
  }

  function Fresh(tip: Block): State {
    State(Db(None, map[], map[]), tip, false, false)
  }

  // ---- The invariant ----

  ghost predicate CoveredBy(rows: Deposits, b: Block) {
    forall k | k in rows && Active(rows[k]) && rows[k].height <= Height(b) :: OnChain(rows[k].block, b)
  }

  /** Every active deposit is an ancestor of the synced block, and every stored hash at or below the
      synced height has all active deposits up to its own height as ancestors, however stale it is. */
  ghost predicate Inv(db: Db) {
    && (forall h | h in db.hashes :: Height(db.hashes[h]) == h)
    && (forall k | k in db.rows && Active(db.rows[k]) :: db.rows[k].height == Height(db.rows[k].block))
    && match db.sync
       case None =>
         db.hashes == map[] && forall k | k in db.rows :: !Active(db.rows[k])
       case Some(sy) =>
         && sy.hash.Some? && Height(sy.hash.value) == sy.height
         && (forall k | k in db.rows && Active(db.rows[k]) :: db.rows[k].height <= sy.height)
         && CoveredBy(db.rows, sy.hash.value)
         && forall h | h in db.hashes && h <= sy.height :: CoveredBy(db.rows, db.hashes[h])
  }

  /** The property the reorg check is for. */
  ghost predicate AllOnChain(db: Db, tip: Block) {
    forall k | k in db.rows && Active(db.rows[k]) :: OnChain(db.rows[k].block, tip)
  }

  ghost predicate StateInv(s: State) {
    && Inv(s.db)
    && (s.verified ==> AllOnChain(s.db, s.tip) && (s.db.sync.Some? ==> s.db.sync.value.height <= Height(s.tip)))
  }

  /** Marking from a fork point leaves only deposits of the node's chain active. */
  lemma MarkingLeavesOnChain(db: Db, tip: Block, fork: nat)
    requires Inv(db) && db.sync.Some? && StopsAt(db, tip, fork)
    ensures AllOnChain(db.(rows := MarkReorged(db.rows, fork)), tip)
  {
    var rows' := MarkReorged(db.rows, fork);
    forall k | k in rows' && Active(rows'[k]) ensures OnChain(rows'[k].block, tip) {
      assert rows'[k] == db.rows[k] && db.rows[k].height < fork;
      OnChainTransitive(db.rows[k].block, db.hashes[fork - 1], tip);
    }
  }

  lemma MarkingKeepsInv(db: Db, fork: nat)
    requires Inv(db) && db.sync.Some?
    ensures Inv(db.(rows := MarkReorged(db.rows, fork)))
  {
    var rows' := MarkReorged(db.rows, fork);
    assert forall k | k in rows' && Active(rows'[k]) :: rows'[k] == db.rows[k];
  }

  /** The stored hashes from the last shared height up to the synced one are those of the synced chain. */
  ghost predicate HistoryKept(db: Db, tip: Block)
    requires db.sync.Some? && db.sync.value.hash.Some?
  {
    var shared := SharedHeight(db.sync.value.hash.value, tip);
    && 0 <= shared && db.sync.value.height - shared <= MAX_WALKBACK
    && forall h | shared <= h < db.sync.value.height ::
         h in db.hashes && Height(db.hashes[h]) == h && OnChain(db.hashes[h], db.sync.value.hash.value)
  }

  /** With such a history the walkback stops right above the last block that both chains share, and nowhere else. */
  lemma WalkbackExact(db: Db, tip: Block, fork: nat)
    requires Differs(db, tip) && db.sync.value.hash.Some? && Height(db.sync.value.hash.value) == db.sync.value.height
    requires HistoryKept(db, tip)
    ensures StopsAt(db, tip, fork) <==> fork == SharedHeight(db.sync.value.hash.value, tip) + 1
  {
    var b := db.sync.value.hash.value;
    forall h | SharedHeight(b, tip) <= h < db.sync.value.height
      ensures MatchAt(db, tip, h) <==> h == SharedHeight(b, tip)
    {
      ForkPointSplits(db.hashes[h], b, tip);
    }
    ForkPointSplits(b, b, tip);
    var shared: nat := SharedHeight(b, tip);
    assert shared < db.sync.value.height && MatchAt(db, tip, shared);
    if StopsAt(db, tip, fork) {
      assert fork > 0 ==> MatchAt(db, tip, fork - 1);
    }
  }

  /** Then the marks are exact: of the active deposits, those and only those that left the node's chain are marked,
      and no other row changes. */
  lemma MarkedExact(start: nat, s: State, fork: nat, synced: bool, k: Outpoint)
    requires Inv(s.db) && Enabled(start, s, Check(Handled(fork, synced))) && HistoryKept(s.db, s.tip)
    requires k in s.db.rows
    ensures var rows' := Apply(start, s, Check(Handled(fork, synced))).db.rows;
            && k in rows'
            && rows'[k] == if Active(s.db.rows[k]) && !OnChain(s.db.rows[k].block, s.tip)
                           then s.db.rows[k].(status := Reorged) else s.db.rows[k]
  {
    WalkbackExact(s.db, s.tip, fork);
    if Active(s.db.rows[k]) {
      ForkPointSplits(s.db.rows[k].block, s.db.sync.value.hash.value, s.tip);
    }
  }

  /** A failed call leaves the check without an outcome. */
  predicate Decided(o: CheckOutcome) {
    !o.Unreachable? && !o.WalkAborted?
  }

  /** If the synced height is above the node's tip, and not so far that a reset is due, the check has to wait;
      otherwise it always comes to an outcome. */
  lemma OutcomeExists(db: Db, tip: Block) returns (o: CheckOutcome)
    requires db.sync.Some? ==> db.sync.value.height <= Height(tip) || db.sync.value.height > Height(tip) + 100
    ensures Decided(o) && CheckEnabled(db, tip, o)
  {
    if db.sync.None? {
      return NoSync;
    }
    var sh := db.sync.value.height;
    if sh > Height(tip) {
      return ChainReset(true);
    }
    if !Differs(db, tip) {
      return Clean;
    }
    var h: nat, walked: nat := sh, 0;
    while h > 0 && walked < MAX_WALKBACK
      invariant h + walked == sh && walked <= MAX_WALKBACK && forall j | h <= j < sh :: !MatchAt(db, tip, j)
      decreases h
    {
      if MatchAt(db, tip, h - 1) {
        return Handled(h, true);
      }
      h, walked := h - 1, walked + 1;
    }
    o := if walked == MAX_WALKBACK then TooDeep else Handled(0, true);
  }

  /** Tables and chain determine that outcome, up to whether its last commit went through. */
  lemma OutcomeUnique(db: Db, tip: Block, o: CheckOutcome, o': CheckOutcome)
    requires CheckEnabled(db, tip, o) && CheckEnabled(db, tip, o') && Decided(o) && Decided(o')
    ensures o == o' || (o.ChainReset? && o'.ChainReset?) || (o.Handled? && o'.Handled? && o.fork == o'.fork)
    ensures o.ChainReset? ==> db.sync.value.height > Height(tip) + 100
    ensures o.Clean? ==> db.sync.value.hash == Some(AncestorAt(tip, db.sync.value.height))
  {
    if o.Handled? && o'.Handled? {
      assert o.fork > 0 ==> MatchAt(db, tip, o.fork - 1);
      assert o'.fork > 0 ==> MatchAt(db, tip, o'.fork - 1);
    }
  }

  /** Moving the sync pointer back to the fork point keeps the invariant. */
  lemma RewindKeepsInv(db: Db, tip: Block, fork: nat)
    requires Inv(db) && db.sync.Some? && fork <= db.sync.value.height && fork <= Height(tip)
    requires AllOnChain(db, tip)
    requires forall k | k in db.rows && Active(db.rows[k]) :: db.rows[k].height < fork
    ensures Inv(db.(sync := Some(Sync(fork, Some(AncestorAt(tip, fork))))))
  {
    var fb := AncestorAt(tip, fork);
    AncestorOfAncestor(tip, fork, fork);
    forall k | k in db.rows && Active(db.rows[k]) ensures OnChain(db.rows[k].block, fb) {
      OnChainOrdered(db.rows[k].block, fb, tip);
    }
  }

  lemma CheckKeepsInv(start: nat, db: Db, tip: Block, o: CheckOutcome)
    requires Inv(db) && CheckEnabled(db, tip, o) && !o.ChainReset?
    ensures Inv(CheckDb(start, db, tip, o))
    ensures Completed(o) ==> AllOnChain(CheckDb(start, db, tip, o), tip)
  {
    if o.Clean? {
      forall k | k in db.rows && Active(db.rows[k]) ensures OnChain(db.rows[k].block, tip) {
        OnChainTransitive(db.rows[k].block, db.sync.value.hash.value, tip);
      }
    } else if o.Handled? {
      var marked := db.(rows := MarkReorged(db.rows, o.fork));
      MarkingLeavesOnChain(db, tip, o.fork);
      MarkingKeepsInv(db, o.fork);
      if o.synced {
        RewindKeepsInv(marked, tip, o.fork);
      }
    }
  }

  lemma ScanKeepsInv(db: Db, tip: Block, b: Block, found: seq<Found>)
    requires Inv(db) && AllOnChain(db, tip) && OnChain(b, tip)
    requires db.sync.Some? ==> Height(b) == db.sync.value.height + 1
    ensures Inv(ScanBlock(db, b, found)) && AllOnChain(ScanBlock(db, b, found), tip)
  {
    var db' := ScanBlock(db, b, found);
    forall k | k in db'.rows && Active(db'.rows[k])
      ensures OnChain(db'.rows[k].block, b) && OnChain(db'.rows[k].block, tip)
      ensures db'.rows[k].height == Height(db'.rows[k].block) <= Height(b)
      ensures k in db.rows ==> db'.rows[k] == db.rows[k]
      ensures k !in db.rows ==> db'.rows[k].height == Height(b)
    {
      RecordAllActive(db.rows, found, b, k);
      if k in db.rows {
        OnChainOrdered(db.rows[k].block, b, tip);
      }
    }
    forall h | h in db'.hashes && h <= Height(b) ensures CoveredBy(db'.rows, db'.hashes[h]) {
      if h != Height(b) {
        assert CoveredBy(db.rows, db.hashes[h]);
      }
    }
  }

  lemma SetRowKeepsInv(db: Db, tip: Block, k: Outpoint, status: DepositStatus)
    requires Inv(db) && k in db.rows && (status.Confirmed? ==> db.rows[k].status.Pending?) && !status.Pending?
    ensures var db' := db.(rows := SetStatus(db.rows, k, status));
            Inv(db') && (AllOnChain(db, tip) ==> AllOnChain(db', tip))
  {
    var rows' := SetStatus(db.rows, k, status);
    assert forall j | j in rows' && Active(rows'[j]) ::
      Active(db.rows[j]) && rows'[j].block == db.rows[j].block && rows'[j].height == db.rows[j].height;
  }

  lemma PruneKeepsInv(db: Db, top: nat)
    requires Inv(db)
    ensures Inv(db.(hashes := PruneHashes(db.hashes, top, KEEP_HASHES)))
  {
  }

  lemma StepKeepsInv(start: nat, s: State, e: Event)
    requires StateInv(s) && Enabled(start, s, e)
    requires !e.CutScan? && !(e.Check? && e.outcome.ChainReset?) && (e.Scan? ==> s.verified)
    ensures StateInv(Apply(start, s, e))
  {
    match e
    case Check(o) => CheckKeepsInv(start, s.db, s.tip, o);
    case Scan(found) => ScanKeepsInv(s.db, s.tip, AncestorAt(s.tip, NextHeight(start, s.db, s.tip)), found);
    case SetRow(k, status) => SetRowKeepsInv(s.db, s.tip, k, status);
    case Prune(top) => PruneKeepsInv(s.db, top);
    case _ =>
  }

  /** Reorg soundness over whole runs: whenever a reorg check has completed on the node's present
      chain, every deposit that is still pending or confirmed has its block on that chain. */
  lemma {:induction false} ReorgSoundness(start: nat, tip: Block, es: seq<Event>)
    requires IsRun(start, Fresh(tip), es) && Careful(start, Fresh(tip), es)
    ensures StateInv(Exec(start, Fresh(tip), es))
    ensures var s := Exec(start, Fresh(tip), es); s.verified ==> AllOnChain(s.db, s.tip)
    decreases |es|
  {
    if es != [] {
      ReorgSoundness(start, tip, es[..|es| - 1]);
      StepKeepsInv(start, Exec(start, Fresh(tip), es[..|es| - 1]), es[|es| - 1]);
    }
  }

  // ---- Where soundness stops ----

  lemma {:induction false} ExecAppend(start: nat, s: State, es: seq<Event>, e: Event)
    requires IsRun(start, s, es) && Enabled(start, Exec(start, s, es), e)
    ensures IsRun(start, s, es + [e])
    ensures Exec(start, s, es + [e]) == Apply(start, Exec(start, s, es), e)
  {
    assert (es + [e])[..|es|] == es;
  }

  /** All active deposits are on the node's chain exactly when none lies above the fork point of the
      synced block and the node's tip. */
  lemma OnChainExactlyBelowFork(db: Db, tip: Block)
    requires Inv(db) && db.sync.Some?
    ensures AllOnChain(db, tip) <==>
            forall k | k in db.rows && Active(db.rows[k]) ::
              db.rows[k].height <= SharedHeight(db.sync.value.hash.value, tip)
  {
    forall k | k in db.rows && Active(db.rows[k])
      ensures OnChain(db.rows[k].block, tip) <==> db.rows[k].height <= SharedHeight(db.sync.value.hash.value, tip)
    {
      ForkPointSplits(db.rows[k].block, db.sync.value.hash.value, tip);
    }
  }

  /** A block scan without a completed check on the node's chain hides the reorg: the next check is
      clean, and it is right exactly when no deposit active after the scan lay above the fork point. */
  lemma BlindScanExact(start: nat, s: State, found: seq<Found>)
    requires Inv(s.db) && Enabled(start, s, Scan(found))
    requires s.db.sync.Some? && s.db.sync.value.height < Height(s.tip)
    ensures var s' := Apply(start, s, Scan(found));
            && Enabled(start, s', Check(Clean))
            && (AllOnChain(s'.db, s.tip) <==>
                forall k | k in s.db.rows && k in s'.db.rows && Active(s'.db.rows[k]) ::
                  s.db.rows[k].height <= SharedHeight(s.db.sync.value.hash.value, s.tip))
  {
    var sb := s.db.sync.value.hash.value;
    var b := AncestorAt(s.tip, s.db.sync.value.height + 1);
    var rows' := RecordAll(s.db.rows, found, b);
    forall k | k in rows' && Active(rows'[k])
      ensures if k in s.db.rows then rows'[k] == s.db.rows[k] else OnChain(rows'[k].block, s.tip)
      ensures k in s.db.rows ==>
                (OnChain(rows'[k].block, s.tip) <==> s.db.rows[k].height <= SharedHeight(sb, s.tip))
    {
      RecordAllActive(s.db.rows, found, b, k);
      if k in s.db.rows {
        ForkPointSplits(s.db.rows[k].block, sb, s.tip);
      }
    }
  }

  /** The chain-reset branch marks nothing: the next check is clean, and it is right exactly when no
      active deposit lies above the fork point of the old synced block and the node's tip. */
  lemma ChainResetExact(start: nat, s: State)
    requires Inv(s.db) && Enabled(start, s, Check(ChainReset(true))) && start <= Height(s.tip)
    ensures var s' := Apply(start, s, Check(ChainReset(true)));
            && Enabled(start, s', Check(Clean))
            && (AllOnChain(s'.db, s.tip) <==>
                forall k | k in s.db.rows && Active(s.db.rows[k]) ::
                  s.db.rows[k].height <= SharedHeight(s.db.sync.value.hash.value, s.tip))
  {
    OnChainExactlyBelowFork(s.db, s.tip);
  }

  /** A block scan cut short before the sync state was set leaves rows that the next check does not
      see: if the node keeps the synced block, that check is clean, and it is right exactly when the
      half-scanned block stayed on the chain or none of its rows is active. */
  lemma CutScanExact(start: nat, s: State, found: seq<Found>, tip: Block)
    requires StateInv(s) && s.verified && Enabled(start, s, CutScan(found, false)) && s.db.sync.Some?
    requires OnChain(s.db.sync.value.hash.value, tip)
    ensures var b := AncestorAt(s.tip, s.db.sync.value.height + 1);
            var s' := Apply(start, Apply(start, s, CutScan(found, false)), NewTip(tip));
            && Enabled(start, s', Check(Clean))
            && (AllOnChain(s'.db, tip) <==>
                OnChain(b, tip) || forall k | k in s'.db.rows && k !in s.db.rows :: !Active(s'.db.rows[k]))
  {
    var b := AncestorAt(s.tip, s.db.sync.value.height + 1);
    var rows' := RecordAll(s.db.rows, found, b);
    forall k | k in rows' && Active(rows'[k])
      ensures if k in s.db.rows then OnChain(rows'[k].block, tip) else rows'[k].block == b
    {
      RecordAllActive(s.db.rows, found, b, k);
      if k in s.db.rows {
        OnChainTransitive(s.db.rows[k].block, s.db.sync.value.hash.value, tip);
      }
    }
  }

  /** A handled reorg marks no failed deposit, and the mint loop retries those: every deposit that may
      still be minted is on the node's chain exactly when every failed one already was. */
  lemma FailedRowsExact(start: nat, s: State, fork: nat, synced: bool)
    requires Inv(s.db) && Enabled(start, s, Check(Handled(fork, synced)))
    ensures var rows' := Apply(start, s, Check(Handled(fork, synced))).db.rows;
            (forall k | k in rows' && (Active(rows'[k]) || rows'[k].status.Failed?) :: OnChain(rows'[k].block, s.tip))
            <==> (forall k | k in s.db.rows && s.db.rows[k].status.Failed? :: OnChain(s.db.rows[k].block, s.tip))
  {
    MarkingLeavesOnChain(s.db, s.tip, fork);
    var rows' := MarkReorged(s.db.rows, fork);
    assert forall k | k in s.db.rows && s.db.rows[k].status.Failed? :: rows'[k] == s.db.rows[k];
    assert forall k | k in rows' && rows'[k].status.Failed? :: s.db.rows[k].status.Failed?;
  }

  /** Every active deposit lies on the chain of `tip`, at its block's height. */
  ghost predicate RowsOn(rows: Deposits, tip: Block) {
    forall k | k in rows && Active(rows[k]) :: OnChain(rows[k].block, tip) && rows[k].height == Height(rows[k].block)
  }

  lemma RecordingStaysOn(rows: Deposits, tip: Block, b: Block, found: seq<Found>)
    requires OnChain(b, tip) && RowsOn(rows, tip)
    ensures RowsOn(RecordAll(rows, found, b), tip)
  {
    var rows' := RecordAll(rows, found, b);
    forall k | k in rows' && Active(rows'[k])
      ensures OnChain(rows'[k].block, tip) && rows'[k].height == Height(rows'[k].block)
    {
      RecordAllActive(rows, found, b, k);
    }
  }

  lemma MarkedSplit(rows: Deposits, was: Block, tip: Block, fork: nat)
    requires RowsOn(rows, was)
    ensures var rows' := MarkReorged(rows, fork);
            (forall k | k in rows' && Active(rows'[k]) :: OnChain(rows'[k].block, tip)) <==>
            (forall k | k in rows' && Active(rows'[k]) :: rows'[k].height <= SharedHeight(was, tip))
  {
    var rows' := MarkReorged(rows, fork);
    forall k | k in rows' && Active(rows'[k])
      ensures OnChain(rows'[k].block, tip) <==> rows'[k].height <= SharedHeight(was, tip)
    {
      assert rows'[k] == rows[k];
      ForkPointSplits(rows[k].block, was, tip);
    }
  }

  /** The process stops between setting the sync state and storing the block's hash at height `h`, scans one
      more block after the restart, and the node then returns to the chain whose hash it still stores at `h`. */
  function StaleState(start: nat, s: State, found: seq<Found>, more: seq<Found>, tip: Block): State
    requires !s.paused && s.db.sync.Some? && s.db.sync.value.height + 1 < Height(s.tip)
  {
    var s1 := Apply(start, s, CutScan(found, true));
    Apply(start, Apply(start, s1, Scan(more)), NewTip(tip))
  }

  /** A hash of another chain is stored at the next height, and `tip` is on that other chain. */
  predicate StaleAt(s: State, h: nat, tip: Block) {
    && h <= Height(s.tip) && h in s.db.hashes && s.db.hashes[h] != AncestorAt(s.tip, h)
    && Height(s.db.hashes[h]) == h < Height(tip) && OnChain(s.db.hashes[h], tip)
  }

  lemma StaleStateIs(start: nat, s: State, found: seq<Found>, more: seq<Found>, tip: Block)
    requires !s.paused && s.db.sync.Some? && s.db.sync.value.height + 1 < Height(s.tip)
    ensures var h := s.db.sync.value.height + 1;
            var b, b2 := AncestorAt(s.tip, h), AncestorAt(s.tip, h + 1);
            StaleState(start, s, found, more, tip) ==
            State(Db(Some(Sync(h + 1, Some(b2))), s.db.hashes[h + 1 := b2],
                     RecordAll(RecordAll(s.db.rows, found, b), more, b2)), tip, false, false)
  {
  }

  lemma StaleStops(s: State, h: nat, tip: Block, db: Db)
    requires StaleAt(s, h, tip) && h + 1 <= Height(s.tip)
    requires db.sync == Some(Sync(h + 1, Some(AncestorAt(s.tip, h + 1))))
    requires h in db.hashes && db.hashes[h] == s.db.hashes[h]
    ensures Differs(db, tip) && StopsAt(db, tip, h + 1)
  {
    AncestorOfAncestor(s.tip, h + 1, h);
    AncestorOfAncestor(tip, h + 1, h);
    assert MatchAt(db, tip, h);
  }

  /** The next check takes the stale hash for the fork point: it marks from above `h` only, and all active
      deposits are then on the node's chain exactly when none lies above the real fork point. */
  lemma StaleHashExact(start: nat, s: State, found: seq<Found>, more: seq<Found>, tip: Block, synced: bool)
    requires StateInv(s) && s.verified && !s.paused && s.db.sync.Some? && s.db.sync.value.height + 1 < Height(s.tip)
    requires StaleAt(s, s.db.sync.value.height + 1, tip)
    ensures var h := s.db.sync.value.height + 1;
            var s' := StaleState(start, s, found, more, tip);
            && Enabled(start, s', Check(Handled(h + 1, synced)))
            && var db' := Apply(start, s', Check(Handled(h + 1, synced))).db;
               AllOnChain(db', tip) <==>
               forall k | k in db'.rows && Active(db'.rows[k]) :: db'.rows[k].height <= SharedHeight(s.tip, tip)
  {
    var h := s.db.sync.value.height + 1;
    var b, b2 := AncestorAt(s.tip, h), AncestorAt(s.tip, h + 1);
    StaleStateIs(start, s, found, more, tip);
    StaleStops(s, h, tip, StaleState(start, s, found, more, tip).db);
    RecordingStaysOn(s.db.rows, s.tip, b, found);
    RecordingStaysOn(RecordAll(s.db.rows, found, b), s.tip, b2, more);
    MarkedSplit(RecordAll(RecordAll(s.db.rows, found, b), more, b2), s.tip, tip, h + 1);
  }

  /** The node's chain only grows along the run: every new tip extends the one before. */
  predicate Grows(start: nat, s: State, es: seq<Event>)
    requires IsRun(start, s, es)
  {
    es == [] ||
    var init, e := es[..|es| - 1], es[|es| - 1];
    Grows(start, s, init) && (e.NewTip? ==> OnChain(Exec(start, s, init).tip, e.tip))
  }

  /** The sync state names a block of the node's chain at or above `fork`, so the next scan reads above it. */
  predicate PastFork(start: nat, s: State, fork: nat) {
    && s.db.sync.Some? && fork <= s.db.sync.value.height <= Height(s.tip)
    && s.db.sync.value.hash == Some(AncestorAt(s.tip, s.db.sync.value.height))
    && NextHeight(start, s.db, s.tip) > fork
  }

  lemma StepKeepsPastFork(start: nat, s: State, e: Event, fork: nat)
    requires PastFork(start, s, fork) && Enabled(start, s, e) && (e.NewTip? ==> OnChain(s.tip, e.tip))
    ensures PastFork(start, Apply(start, s, e), fork)
  {
    if e.NewTip? {
      AncestorOfAncestor(e.tip, Height(s.tip), s.db.sync.value.height);
    }
  }

  /** After a handled reorg the sync state names the fork height itself, so the new chain's block at that
      height is skipped: as long as the chain only grows, every scan, cut short or not, reads above it. */
  lemma {:induction false} ForkBlockSkipped(start: nat, s: State, fork: nat, es: seq<Event>)
    requires Enabled(start, s, Check(Handled(fork, true)))
    requires var s1 := Apply(start, s, Check(Handled(fork, true))); IsRun(start, s1, es) && Grows(start, s1, es)
    ensures var s1 := Apply(start, s, Check(Handled(fork, true))); PastFork(start, Exec(start, s1, es), fork)
    decreases |es|
  {
    if es != [] {
      var s1 := Apply(start, s, Check(Handled(fork, true)));
      ForkBlockSkipped(start, s, fork, es[..|es| - 1]);
      StepKeepsPastFork(start, Exec(start, s1, es[..|es| - 1]), es[|es| - 1], fork);
    }
  }

  // ---- Completeness of the scan ----

  /** Rows are never removed and keep their block, amount and recipient, and an inactive row stays inactive:
      a transaction mined again after its row was marked is not recorded a second time. */
  predicate Carries(rows: Deposits, rows': Deposits, k: Outpoint) {
    && k in rows && k in rows' && rows'[k] == rows[k].(status := rows'[k].status)
    && (Active(rows'[k]) ==> Active(rows[k]))
  }

  lemma StepCarries(start: nat, s: State, e: Event, k: Outpoint)
    requires Enabled(start, s, e) && k in s.db.rows
    ensures Carries(s.db.rows, Apply(start, s, e).db.rows, k)
  {
    if e.Scan? || e.CutScan? {
      RecordAllCarries(s.db.rows, e.found, AncestorAt(s.tip, NextHeight(start, s.db, s.tip)), k);
    }
  }

  lemma {:induction false} RecordAllCarries(rows: Deposits, found: seq<Found>, b: Block, k: Outpoint)
    requires k in rows
    ensures Carries(rows, RecordAll(rows, found, b), k)
    decreases |found|
  {
    if found != [] {
      RecordAllCarries(rows, found[..|found| - 1], b, k);
    }
  }

  lemma {:induction false} RowsStay(start: nat, s: State, es: seq<Event>, k: Outpoint)
    requires IsRun(start, s, es) && k in s.db.rows
    ensures Carries(s.db.rows, Exec(start, s, es).db.rows, k)
    decreases |es|
  {
    if es != [] {
      RowsStay(start, s, es[..|es| - 1], k);
      StepCarries(start, Exec(start, s, es[..|es| - 1]), es[|es| - 1], k);
    }
  }

  lemma {:induction false} RecordAllHas(rows: Deposits, found: seq<Found>, b: Block, f: Found)
    requires f in found
    ensures f.key in RecordAll(rows, found, b)
    decreases |found|
  {
    var rest := found[..|found| - 1];
    if f in rest {
      RecordAllHas(rows, rest, b, f);
    } else {
      assert found == rest + [found[|found| - 1]];
    }
  }

  /** Every payment in a block that a run has scanned has a row at the end of the run. */
  lemma {:induction false} ScannedHaveRows(start: nat, s: State, es: seq<Event>, i: nat, f: Found)
    requires IsRun(start, s, es) && i < |es| && (es[i].Scan? || es[i].CutScan?) && f in es[i].found
    ensures f.key in Exec(start, s, es).db.rows
    decreases |es|
  {
    var init := es[..|es| - 1];
    var s0 := Exec(start, s, init);
    if i < |init| {
      ScannedHaveRows(start, s, init, i, f);
      StepCarries(start, s0, es[|es| - 1], f.key);
    } else {
      RecordAllHas(s0.db.rows, es[i].found, AncestorAt(s0.tip, NextHeight(start, s0.db, s0.tip)), f);
    }
  }
}
