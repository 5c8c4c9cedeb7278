/** Payments above the per-deposit limit: they are recorded for a refund and stay out of the mint loop's reach. Two
properties stop short: a payment worth no more than the refund fee comes back as a failed mint, and a payment that is
scanned again is refunded again. */
module OverLimits {
  import opened Wrappers
  import opened Blocks
  import opened StateDb
  import opened Reorg
  import opened ReorgRuns

  /** Recorded, out of the mint loop's reach, and worth refunding. */
  predicate SetAside(rows: Deposits, k: Outpoint) {
    k in rows && !Live(rows[k]) && rows[k].amount > REFUND_FEE
  }

  lemma StepKeepsAside(start: nat, s: State, e: Event, k: Outpoint)
    requires Enabled(start, s, e) && SetAside(s.db.rows, k)
    ensures SetAside(Apply(start, s, e).db.rows, k)
  {
    StepCarries(start, s, e, k);
    if e.Scan? || e.CutScan? {
      RecordedStatus(s.db.rows, e.found, AncestorAt(s.tip, NextHeight(start, s.db, s.tip)), k);
    }
  }

  /** In every run, a payment that a scan recorded as over the limit is at the end neither waiting for its mint, nor
      minted, nor up for a retry, provided it is worth more than the refund fee. */
  lemma {:induction false} OverLimitStaysOut(start: nat, s: State, es: seq<Event>, i: nat, f: Found)
    requires IsRun(start, s, es) && i < |es| && (es[i].Scan? || es[i].CutScan?) && f in es[i].found && f.overLimit
    requires f.key in Exec(start, s, es).db.rows ==> Exec(start, s, es).db.rows[f.key].amount > REFUND_FEE
    ensures SetAside(Exec(start, s, es).db.rows, f.key)
    decreases |es|
  {
    var init, e := es[..|es| - 1], es[|es| - 1];
    var s0 := Exec(start, s, init);
    ScannedHaveRows(start, s, es, i, f);
    if i < |init| {
      ScannedHaveRows(start, s, init, i, f);
      StepCarries(start, s0, e, f.key);
      OverLimitStaysOut(start, s, init, i, f);
      StepKeepsAside(start, s0, e, f.key);
    } else {
      RecordedStatus(s0.db.rows, e.found, AncestorAt(s0.tip, NextHeight(start, s0.db, s0.tip)), f.key);
    }
  }

  /** The condition is exact: an over-limit deposit worth no more than the fee is marked failed by the refund loop,
      and the mint loop retries failed deposits. */
  lemma SmallRefundIsMinted(start: nat, s: State, k: Outpoint)
    requires !s.paused && k in s.db.rows && s.db.rows[k].status.OverLimit? && s.db.rows[k].amount <= REFUND_FEE
    ensures var es := [SetRow(k, Failed), SetRow(k, Minted)];
            && IsRun(start, s, es)
            && var rows' := Exec(start, s, es).db.rows; k in rows' && rows'[k].status.Minted?
  {
    ExecAppend(start, s, [], SetRow(k, Failed));
    ExecAppend(start, s, [] + [SetRow(k, Failed)], SetRow(k, Minted));
    assert [] + [SetRow(k, Failed)] + [SetRow(k, Minted)] == [SetRow(k, Failed), SetRow(k, Minted)];
  }

  /** A refunded deposit stays refunded exactly until a scan meets its payment again. */
  lemma RefundedExact(start: nat, s: State, e: Event, k: Outpoint)
    requires Enabled(start, s, e) && k in s.db.rows && s.db.rows[k].status.Refunded?
    ensures var rows' := Apply(start, s, e).db.rows;
            && k in rows'
            && (rows'[k].status.Refunded? <==> !((e.Scan? || e.CutScan?) && PaysOver(e.found, k)))
            && (!rows'[k].status.Refunded? ==> rows'[k].status.OverLimit?)
  {
    if e.Scan? || e.CutScan? {
      RecordedStatus(s.db.rows, e.found, AncestorAt(s.tip, NextHeight(start, s.db, s.tip)), k);
    }
  }

  // ---- Runs from empty tables ----

  lemma ScanOver(s: State, f: Found)
    requires !s.paused && s.db.sync.Some? && s.db.sync.value.height + 1 <= Height(s.tip) && f.overLimit
    ensures Enabled(0, s, Scan([f]))
    ensures var h := s.db.sync.value.height + 1;
            var b := AncestorAt(s.tip, h);
            var rows := InsertDeposit(s.db.rows, f.key, Deposit(f.amount, f.base, h, b, Pending));
            Apply(0, s, Scan([f])) ==
            s.(db := Db(Some(Sync(h, Some(b))), s.db.hashes[h := b], SetStatus(rows, f.key, OverLimit)))
  {
    var b := AncestorAt(s.tip, s.db.sync.value.height + 1);
    assert [f][..0] == [];
    assert RecordAll(s.db.rows, [f], b) == RecordFound(RecordAll(s.db.rows, [], b), f, b);
  }

  lemma OneOver(f: Found) returns (es: seq<Event>, s: State)
    requires f.overLimit
    ensures Reaches(es, s) && !s.paused && s.db.sync == Some(Sync(1, Some(A1))) && s.db.hashes == map[0 := G][1 := A1]
    ensures s.db.rows == map[][f.key := Deposit(f.amount, f.base, 1, A1, OverLimit)]
  {
    es, s := GenesisScanned();
    assert Height(A1) == 1 && AncestorAt(A1, 1) == A1;
    ScanOver(s, f);
    es, s := Extend(es, s, Scan([f]));
  }

  /** An over-limit payment within the refund fee ends up minted. */
  lemma SmallRefundRun(f: Found) returns (es: seq<Event>, s: State)
    requires f.overLimit && f.amount <= REFUND_FEE
    ensures Reaches(es, s) && f.key in s.db.rows && s.db.rows[f.key].status.Minted?
  {
    es, s := OneOver(f);
    es, s := Extend(es, s, SetRow(f.key, Failed));
    es, s := Extend(es, s, SetRow(f.key, Minted));
  }

  lemma RefundedOnce(f: Found) returns (es: seq<Event>, s: State)
    requires f.overLimit
    ensures Reaches(es, s) && !s.paused && s.db.sync == Some(Sync(1, Some(A1))) && s.db.hashes == map[0 := G][1 := A1]
    ensures s.db.rows == map[][f.key := Deposit(f.amount, f.base, 1, A1, Refunded)]
    ensures es != [] && es[|es| - 1] == SetRow(f.key, Refunded)
  {
    es, s := OneOver(f);
    es, s := Extend(es, s, SetRow(f.key, Refunding));
    es, s := Extend(es, s, SetRow(f.key, Refunded));
  }

  lemma SwitchKept(es: seq<Event>, s: State) returns (es': seq<Event>, s': State)
    requires Reaches(es, s) && !s.paused && s.db.sync == Some(Sync(1, Some(A1))) && s.db.hashes == map[0 := G][1 := A1]
    requires forall j | j in s.db.rows :: !s.db.rows[j].status.Minted?
    ensures Reaches(es', s') && !s'.paused && es <= es' && s'.tip == B2
    ensures s'.db.sync == Some(Sync(1, Some(B1))) && s'.db.rows == MarkReorged(s.db.rows, 1)
  {
    BlocksOfB();
    assert !AtRisk(s.db, 1);
    SwitchToB(s, B2);
    es', s' := Extend(es, s, NewTip(B2));
    es', s' := Extend(es', s', Check(Handled(1, true)));
  }

  /** The transaction of a refunded payment is mined again after a reorg: the payment is up for a second refund. */
  lemma RefundedAgainRun(f: Found) returns (es: seq<Event>, s: State)
    requires f.overLimit
    ensures Reaches(es, s) && SetRow(f.key, Refunded) in es
    ensures f.key in s.db.rows && s.db.rows[f.key].status.OverLimit?
  {
    es, s := RefundedOnce(f);
    assert SetRow(f.key, Refunded) in es;
    BlocksOfB();
    es, s := SwitchKept(es, s);
    ScanOver(s, f);
    es, s := Extend(es, s, Scan([f]));
  }
}
