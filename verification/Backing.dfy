/** What the pause of the bridge is for: as long as no reorg check pauses it, every minted deposit lies on the node's
chain, so that the coins behind the wrapped tokens are there. Failed deposits, which no check marks and which are
minted later, are the exception. */
module Backing {
  import opened Wrappers
  import opened Blocks
  import opened StateDb
  import opened Reorg
  import opened ReorgRuns

  /** Every minted deposit lies on the chain of `tip`. */
  ghost predicate Backed(rows: Deposits, tip: Block) {
    forall k | k in rows && rows[k].status.Minted? :: OnChain(rows[k].block, tip)
  }

  ghost predicate LiveOnChain(rows: Deposits, tip: Block) {
    forall k | k in rows && Live(rows[k]) :: OnChain(rows[k].block, tip)
  }

  /** The tables as if no deposit had gone on from confirmed to failed or minted. */
  function AsActive(rows: Deposits): Deposits {
    map k | k in rows ::
      if rows[k].status.Minted? || rows[k].status.Failed? then rows[k].(status := Confirmed) else rows[k]
  }

  function MaskedDb(db: Db): Db {
    db.(rows := AsActive(db.rows))
  }

  function Masked(s: State): State {
    s.(db := MaskedDb(s.db))
  }

  /** The invariant of active deposits, extended to failed and minted ones. */
  ghost predicate LiveInv(s: State) {
    StateInv(Masked(s))
  }

  lemma LiveIsActive(rows: Deposits, tip: Block)
    ensures LiveOnChain(rows, tip) <==>
            forall k | k in AsActive(rows) && Active(AsActive(rows)[k]) :: OnChain(AsActive(rows)[k].block, tip)
  {
    assert AsActive(rows).Keys == rows.Keys;
    assert forall k | k in rows :: Live(rows[k]) <==> Active(AsActive(rows)[k]);
    assert forall k | k in rows :: rows[k].block == AsActive(rows)[k].block;
  }

  /** Minted and failed deposits are below the height. */
  ghost predicate SettledBelow(rows: Deposits, h: nat) {
    forall k | k in rows && (rows[k].status.Minted? || rows[k].status.Failed?) :: rows[k].height < h
  }

  lemma MaskedMarking(rows: Deposits, fork: nat)
    requires SettledBelow(rows, fork)
    ensures AsActive(MarkReorged(rows, fork)) == MarkReorged(AsActive(rows), fork)
  {
  }

  lemma {:induction false} MaskedRecording(rows: Deposits, found: seq<Found>, b: Block)
    ensures AsActive(RecordAll(rows, found, b)) == RecordAll(AsActive(rows), found, b)
    decreases |found|
  {
    if found != [] {
      var rest, f := found[..|found| - 1], found[|found| - 1];
      MaskedRecording(rows, rest, b);
      var mid := RecordAll(rows, rest, b);
      assert AsActive(RecordFound(mid, f, b)) == RecordFound(AsActive(mid), f, b);
    }
  }

  // ---- One check ----

  lemma LiveIsSynced(s: State, k: Outpoint)
    requires LiveInv(s) && s.db.sync.Some? && k in s.db.rows && Live(s.db.rows[k])
    ensures s.db.rows[k].height <= s.db.sync.value.height && s.db.rows[k].height == Height(s.db.rows[k].block)
    ensures s.db.sync.value.hash.Some? && OnChain(s.db.rows[k].block, s.db.sync.value.hash.value)
  {
    var d := AsActive(s.db.rows)[k];
    assert Active(d) && d.block == s.db.rows[k].block;
  }

  /** A row below the fork at which the walkback stops is on the node's chain. */
  lemma BelowForkOnChain(s: State, fork: nat, k: Outpoint)
    requires LiveInv(s) && s.db.sync.Some? && StopsAt(s.db, s.tip, fork)
    requires k in s.db.rows && Live(s.db.rows[k]) && s.db.rows[k].height < fork
    ensures OnChain(s.db.rows[k].block, s.tip)
  {
    var d := AsActive(s.db.rows)[k];
    assert Active(d) && d.block == s.db.rows[k].block && d.height == s.db.rows[k].height;
    assert CoveredBy(AsActive(s.db.rows), s.db.hashes[fork - 1]);
    OnChainTransitive(d.block, s.db.hashes[fork - 1], s.tip);
  }

  lemma MarkedOnChain(s: State, fork: nat, k: Outpoint)
    requires LiveInv(s) && s.db.sync.Some? && StopsAt(s.db, s.tip, fork) && !AtRisk(s.db, fork)
    requires var rows' := MarkReorged(s.db.rows, fork); k in rows' && Live(rows'[k]) && !rows'[k].status.Failed?
    ensures OnChain(MarkReorged(s.db.rows, fork)[k].block, s.tip)
  {
    LiveIsSynced(s, k);
    BelowForkOnChain(s, fork, k);
  }

  lemma MarkingKeepsFailed(rows: Deposits, fork: nat)
    ensures var rows' := MarkReorged(rows, fork);
            forall k | k in rows && (rows[k].status.Failed? || rows'[k].status.Failed?) :: rows'[k] == rows[k]
  {
  }

  /** A handled reorg that does not pause the bridge leaves every minted deposit on the node's chain, and every
      deposit that was minted or still may be exactly when all failed ones are there. */
  lemma UnpausedIsBacked(start: nat, s: State, fork: nat, synced: bool)
    requires LiveInv(s) && Enabled(start, s, Check(Handled(fork, synced)))
    requires !Apply(start, s, Check(Handled(fork, synced))).paused
    ensures var rows' := Apply(start, s, Check(Handled(fork, synced))).db.rows;
            && Backed(rows', s.tip)
            && (LiveOnChain(rows', s.tip) <==>
                forall k | k in s.db.rows && s.db.rows[k].status.Failed? :: OnChain(s.db.rows[k].block, s.tip))
  {
    var rows' := Apply(start, s, Check(Handled(fork, synced))).db.rows;
    assert rows' == MarkReorged(s.db.rows, fork);
    forall k | k in rows' && Live(rows'[k]) && !rows'[k].status.Failed? ensures OnChain(rows'[k].block, s.tip) {
      MarkedOnChain(s, fork, k);
    }
    MarkingKeepsFailed(s.db.rows, fork);
  }

  /** Where the stored hashes reach back to the last shared block, the pause is exact: it comes if and only if a
      minted deposit has left the chain. */
  lemma PauseExact(start: nat, s: State, fork: nat, synced: bool)
    requires LiveInv(s) && Enabled(start, s, Check(Handled(fork, synced))) && HistoryKept(s.db, s.tip)
    ensures Apply(start, s, Check(Handled(fork, synced))).paused <==> !Backed(s.db.rows, s.tip)
  {
    WalkbackExact(s.db, s.tip, fork);
    forall k | k in s.db.rows && s.db.rows[k].status.Minted?
      ensures s.db.rows[k].height <= s.db.sync.value.height
      ensures OnChain(s.db.rows[k].block, s.tip) <==> s.db.rows[k].height < fork
    {
      LiveIsSynced(s, k);
      ForkPointSplits(s.db.rows[k].block, s.db.sync.value.hash.value, s.tip);
    }
  }

  /** A reorg that is too deep always pauses the bridge; without minted deposits nothing else does. */
  lemma PauseCauses(start: nat, s: State, o: CheckOutcome)
    requires Enabled(start, s, Check(o))
    ensures o.TooDeep? ==> Apply(start, s, Check(o)).paused
    ensures (forall k | k in s.db.rows :: !s.db.rows[k].status.Minted?) ==>
              (Apply(start, s, Check(o)).paused <==> o.TooDeep?)
  {
  }

  /** Until the restart, a paused bridge mints nothing, confirms nothing and reads no block. */
  lemma {:induction false} PausedMintsNothing(start: nat, s: State, es: seq<Event>, k: Outpoint)
    requires s.paused && IsRun(start, s, es) && Crash !in es && k in s.db.rows
    ensures var s' := Exec(start, s, es);
            && s'.paused && s'.db.sync == s.db.sync && s'.db.rows.Keys == s.db.rows.Keys
            && (Live(s.db.rows[k]) || Live(s'.db.rows[k]) ==> s'.db.rows[k] == s.db.rows[k])
    decreases |es|
  {
    if es != [] {
      PausedMintsNothing(start, s, es[..|es| - 1], k);
      assert es[|es| - 1] in es;
    }
  }

  // ---- Whole runs ----

  /** The step does not pause the bridge, no failed deposit lies in the range that a handled reorg replaces, and no
      over-limit deposit is marked failed for being too small to refund. */
  predicate Spares(s: State, e: Event)
    requires e.Check? && e.outcome.Handled? ==> s.db.sync.Some?
  {
    match e
    case Check(o) =>
      !Pauses(s.db, o) &&
      (o.Handled? ==> forall k | k in s.db.rows && s.db.rows[k].status.Failed? :: s.db.rows[k].height < o.fork)
    case SetRow(k, status) => status.Failed? && k in s.db.rows ==> Live(s.db.rows[k])
    case _ => true
  }

  predicate Spared(start: nat, s: State, es: seq<Event>)
    requires IsRun(start, s, es)
  {
    es == [] || (Spared(start, s, es[..|es| - 1]) && Spares(Exec(start, s, es[..|es| - 1]), es[|es| - 1]))
  }

  lemma MaskedOutcome(db: Db, tip: Block, o: CheckOutcome)
    requires CheckEnabled(db, tip, o)
    ensures CheckEnabled(MaskedDb(db), tip, o) && (Pauses(MaskedDb(db), o) <==> o.TooDeep?)
  {
    assert forall h: nat :: MatchAt(MaskedDb(db), tip, h) <==> MatchAt(db, tip, h);
  }

  lemma MaskedHandled(start: nat, db: Db, tip: Block, fork: nat, synced: bool)
    requires CheckEnabled(db, tip, Handled(fork, synced)) && CheckEnabled(MaskedDb(db), tip, Handled(fork, synced))
    requires SettledBelow(db.rows, fork)
    ensures MaskedDb(CheckDb(start, db, tip, Handled(fork, synced))) ==
            CheckDb(start, MaskedDb(db), tip, Handled(fork, synced))
  {
    MaskedMarking(db.rows, fork);
  }

  /** The check does the same to the masked tables. */
  lemma MaskedCheck(start: nat, s: State, o: CheckOutcome)
    requires LiveInv(s) && Enabled(start, s, Check(o)) && Spares(s, Check(o))
    ensures Enabled(start, Masked(s), Check(o))
    ensures Masked(Apply(start, s, Check(o))) == Apply(start, Masked(s), Check(o))
  {
    MaskedOutcome(s.db, s.tip, o);
    if o.Handled? {
      forall k | k in s.db.rows && s.db.rows[k].status.Minted? ensures s.db.rows[k].height < o.fork {
        LiveIsSynced(s, k);
      }
      MaskedHandled(start, s.db, s.tip, o.fork, o.synced);
    }
  }

  lemma MaskedSetRow(rows: Deposits, k: Outpoint, status: DepositStatus)
    requires k in rows && Moves(rows[k], status) && (status.Failed? ==> Live(rows[k]))
    ensures if status.Minted? || status.Failed? then AsActive(SetStatus(rows, k, status)) == AsActive(rows)
            else Moves(AsActive(rows)[k], status)
                 && AsActive(SetStatus(rows, k, status)) == SetStatus(AsActive(rows), k, status)
  {
  }

  lemma StepKeepsLive(start: nat, s: State, e: Event)
    requires LiveInv(s) && Enabled(start, s, e) && Spares(s, e)
    requires !e.CutScan? && !(e.Check? && e.outcome.ChainReset?) && (e.Scan? ==> s.verified)
    ensures LiveInv(Apply(start, s, e))
  {
    match e
    case Check(o) =>
      MaskedCheck(start, s, o);
      StepKeepsInv(start, Masked(s), e);
    case Scan(found) =>
      MaskedRecording(s.db.rows, found, AncestorAt(s.tip, NextHeight(start, s.db, s.tip)));
      StepKeepsInv(start, Masked(s), e);
    case SetRow(k, status) =>
      MaskedSetRow(s.db.rows, k, status);
      if !status.Minted? && !status.Failed? {
        StepKeepsInv(start, Masked(s), e);
      }
    case _ => StepKeepsInv(start, Masked(s), e);
  }

  /** Backing over whole runs: in every careful run whose checks never pause the bridge and replace no failed
      deposit, once a check has completed on the node's present chain, every minted deposit lies on that chain. */
  lemma {:induction false} BackingSoundness(start: nat, tip: Block, es: seq<Event>)
    requires IsRun(start, Fresh(tip), es) && Careful(start, Fresh(tip), es) && Spared(start, Fresh(tip), es)
    ensures var s := Exec(start, Fresh(tip), es);
            LiveInv(s) && (s.verified ==> LiveOnChain(s.db.rows, s.tip) && Backed(s.db.rows, s.tip))
    decreases |es|
  {
    if es != [] {
      BackingSoundness(start, tip, es[..|es| - 1]);
      StepKeepsLive(start, Exec(start, Fresh(tip), es[..|es| - 1]), es[|es| - 1]);
    }
    var s := Exec(start, Fresh(tip), es);
    LiveIsActive(s.db.rows, s.tip);
  }

  // ---- Runs from empty tables ----

  lemma OneMinted(f: Found) returns (es: seq<Event>, s: State)
    requires !f.overLimit
    ensures Reaches(es, s) && !s.paused && s.db.sync == Some(Sync(1, Some(A1))) && s.db.hashes == map[0 := G][1 := A1]
    ensures f.key in s.db.rows && s.db.rows[f.key] == Deposit(f.amount, f.base, 1, A1, Minted)
  {
    es, s := OneDeposit(f);
    es, s := Extend(es, s, SetRow(f.key, Confirmed));
    es, s := Extend(es, s, SetRow(f.key, Minted));
  }

  /** The block of a minted deposit is replaced: the check pauses the bridge. */
  lemma PausedRun(f: Found) returns (es: seq<Event>, s: State)
    requires !f.overLimit
    ensures Reaches(es, s) && s.paused && es[|es| - 1] == Check(Handled(1, true))
    ensures f.key in s.db.rows && s.db.rows[f.key].status.Minted? && !OnChain(s.db.rows[f.key].block, s.tip)
  {
    es, s := OneMinted(f);
    BlocksOfB();
    assert AtRisk(s.db, 1);
    SwitchToB(s, B2);
    es, s := Extend(es, s, NewTip(B2));
    es, s := Extend(es, s, Check(Handled(1, true)));
  }

  /** The exception is real: a failed deposit of a replaced block is minted on a bridge that never paused. */
  lemma UnbackedRun(f: Found) returns (es: seq<Event>, s: State)
    requires !f.overLimit
    ensures Reaches(es, s) && s.verified && !s.paused
    ensures f.key in s.db.rows && s.db.rows[f.key].status.Minted? && !OnChain(s.db.rows[f.key].block, s.tip)
  {
    es, s := FailedRowRun(f);
    es, s := Extend(es, s, SetRow(f.key, Minted));
  }
}
