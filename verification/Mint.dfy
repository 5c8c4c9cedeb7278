/** Minting on Base: the relayer's mint loop, the wrapped-token contract and the transactions between
them as one state machine. Submitted transactions may be mined late, reverted or dropped, receipts may
be lost, failed deposits are retried, and the process may crash between any two steps. The relayer is
the only minter. */
module Mint {
  import opened StateDb

  const KEY_DIGITS: nat := 64

  /** The contract's replay key: the txid cut or zero-padded to 32 bytes, in hex digits. */
  function ReplayKey(txid: string): string {
    if |txid| >= KEY_DIGITS then txid[..KEY_DIGITS] else txid + seq(KEY_DIGITS - |txid|, _ => '0')
  }

  datatype MintTx = MintTx(key: string, to: string, amount: nat)

  datatype Pc =
    | Idle
    | Queue(todo: seq<Outpoint>)
    | Unminted(row: Outpoint, todo: seq<Outpoint>)
    | Waiting(row: Outpoint, nonce: nat, todo: seq<Outpoint>)
    | Marking(row: Outpoint)

  /** `flags` and `log` are the contract's replay flags and mint events; `sent` lists all submitted
      transactions, `pool` those not yet mined, and `receipts` the outcome of the mined ones. `retired` are the
      rows recorded for payments to a retired bridge address. */
  datatype State = State(
    rows: Deposits, retired: set<Outpoint>, pc: Pc, flags: set<string>, log: seq<MintTx>,
    sent: seq<MintTx>, pool: set<nat>, receipts: map<nat, bool>)

  datatype Event =
    | Insert(key: Outpoint, deposit: Deposit)
    | InsertRetired(key: Outpoint, deposit: Deposit)
    | MarkRetired(mark: DepositStatus)
    | SetRow(key: Outpoint, status: DepositStatus)
    | BeginMints(work: seq<Outpoint>)
    | SkipRow
    | AlreadyMinted
    | NotMinted
    | Submit
    | Mine(nonce: nat, accepted: bool)
    | DropTx(nonce: nat)
    | ReceiptOk
    | ReceiptReverted
    | MintFailed
    | EndLoop
    | Crash

  function TxOf(rows: Deposits, k: Outpoint): MintTx
    requires k in rows
  {
    MintTx(ReplayKey(k.txid), rows[k].base, rows[k].amount)
  }

  predicate HasReceipt(s: State, ok: bool) {
    s.pc.Waiting? && s.pc.nonce in s.receipts && s.receipts[s.pc.nonce] == ok
  }

  /** Status updates outside the mint loop: the scanner's over-limit mark, which it sets whatever the row was before,
      the mark of a reorg, confirmation and refunds. */
  predicate OutsideMints(d: Deposit, status: DepositStatus) {
    || status.OverLimit?
    || (status.Reorged? && Active(d))
    || (Moves(d, status) && !status.Minted? && !status.RetiredPending? && (status.Failed? ==> d.status.OverLimit?))
  }

  predicate Enabled(s: State, e: Event) {
    match e
    // The scanner records one output of a transaction, the last one that pays the bridge.
    case Insert(k, d) =>
      s.pc.Idle? && d.status.Pending? && forall j | j in s.rows && j.txid == k.txid && j !in s.retired :: j == k
    case InsertRetired(_, d) => s.pc.Idle? && d.status.Pending?
    case MarkRetired(status) => s.pc.Marking? && (status.RetiredPending? || status.OverLimit?)
    case SetRow(k, status) => s.pc.Idle? && k in s.rows && OutsideMints(s.rows[k], status)
    case BeginMints(work) =>
      s.pc.Idle? && forall k | k in work :: k in s.rows && (s.rows[k].status.Confirmed? || s.rows[k].status.Failed?)
    case SkipRow => s.pc.Queue? && s.pc.todo != []
    case AlreadyMinted => s.pc.Queue? && s.pc.todo != [] && ReplayKey(s.pc.todo[0].txid) in s.flags
    case NotMinted => s.pc.Queue? && s.pc.todo != [] && ReplayKey(s.pc.todo[0].txid) !in s.flags
    case Submit => s.pc.Unminted? && s.pc.row in s.rows
    case Mine(n, _) => n in s.pool && n < |s.sent|
    case DropTx(n) => n in s.pool
    case ReceiptOk => HasReceipt(s, true)
    case ReceiptReverted => HasReceipt(s, false)
    case MintFailed => s.pc.Unminted? || s.pc.Waiting?
    case EndLoop => s.pc.Queue? && s.pc.todo == []
    case Crash => true
  }

  /** The contract's mint call; `accepted` is false when a cap, limit, pause or gas check fails. */
  function MineTx(s: State, n: nat, accepted: bool): State
    requires n < |s.sent|
  {
    var t := s.sent[n];
    var ok := accepted && t.key !in s.flags;
    s.(flags := if ok then s.flags + {t.key} else s.flags,
       log := if ok then s.log + [t] else s.log,
       pool := s.pool - {n}, receipts := s.receipts[n := ok])
  }

  function Apply(s: State, e: Event): State
    requires Enabled(s, e)
  {
    match e
    case Insert(k, d) => s.(rows := InsertDeposit(s.rows, k, d))
    // A payment to a retired address is committed as pending first and marked by a second commit.
    case InsertRetired(k, d) =>
      if k in s.rows then s else s.(rows := s.rows[k := d], retired := s.retired + {k}, pc := Marking(k))
    case MarkRetired(status) => s.(rows := SetStatus(s.rows, s.pc.row, status), pc := Idle)
    case SetRow(k, status) => s.(rows := SetStatus(s.rows, k, status))
    case BeginMints(work) => s.(pc := Queue(work))
    case SkipRow => s.(pc := Queue(s.pc.todo[1..]))
    case AlreadyMinted =>
      s.(rows := SetStatus(s.rows, s.pc.todo[0], Minted), pc := Queue(s.pc.todo[1..]))
    case NotMinted => s.(pc := Unminted(s.pc.todo[0], s.pc.todo[1..]))
    case Submit =>
      s.(sent := s.sent + [TxOf(s.rows, s.pc.row)], pool := s.pool + {|s.sent|},
         pc := Waiting(s.pc.row, |s.sent|, s.pc.todo))
    case Mine(n, accepted) => MineTx(s, n, accepted)
    case DropTx(n) => s.(pool := s.pool - {n})
    case ReceiptOk => s.(rows := SetStatus(s.rows, s.pc.row, Minted), pc := Queue(s.pc.todo))
    case ReceiptReverted => s.(rows := SetStatus(s.rows, s.pc.row, Failed), pc := Queue(s.pc.todo))
    case MintFailed => s.(rows := SetStatus(s.rows, s.pc.row, Failed), pc := Queue(s.pc.todo))
    case EndLoop => s.(pc := Idle)
    case Crash => s.(pc := Idle)
  }

  const Init: State := State(map[], {}, Idle, {}, [], [], {}, map[])

  predicate IsRun(s: State, es: seq<Event>)
    decreases |es|, 0
  {
    es == [] || (IsRun(s, es[..|es| - 1]) && Enabled(Exec(s, es[..|es| - 1]), es[|es| - 1]))
  }

  function Exec(s: State, es: seq<Event>): State
    requires IsRun(s, es)
    decreases |es|, 1
  {
    if es == [] then s else Apply(Exec(s, es[..|es| - 1]), es[|es| - 1])
  }

  // ---- Safety ----

  /** Some recorded deposit of that transaction has exactly this amount and recipient. */
  ghost predicate Backed(rows: Deposits, t: MintTx) {
    exists k {:trigger k in rows} :: k in rows && TxOf(rows, k) == t
  }

  predicate DistinctKeys(log: seq<MintTx>) {
    forall i, j | 0 <= i < j < |log| :: log[i].key != log[j].key
  }

  ghost predicate ContractInv(s: State) {
    && DistinctKeys(s.log)
    && (forall t | t in s.log :: t.key in s.flags && t in s.sent)
    && (forall f | f in s.flags :: exists t :: t in s.log && t.key == f)
    && (forall n | n in s.pool :: n < |s.sent|)
    && (forall n | n in s.receipts && s.receipts[n] :: n < |s.sent| && s.sent[n].key in s.flags)
  }

  ghost predicate RowsInv(s: State) {
    && (forall t | t in s.sent :: Backed(s.rows, t))
    && (forall k | k in s.rows && s.rows[k].status.Minted? :: ReplayKey(k.txid) in s.flags)
    && (s.pc.Waiting? ==> s.pc.nonce < |s.sent| && s.sent[s.pc.nonce].key == ReplayKey(s.pc.row.txid))
  }

  lemma StepKeepsContract(s: State, e: Event)
    requires ContractInv(s) && Enabled(s, e)
    ensures ContractInv(Apply(s, e))
  {
    var s' := Apply(s, e);
    if e.Mine? {
      assert s.sent[e.nonce] in s.sent;
      forall f | f in s'.flags ensures exists t :: t in s'.log && t.key == f {
        if f in s.flags {
          var t :| t in s.log && t.key == f;
          assert t in s'.log;
        } else {
          assert s.sent[e.nonce] in s'.log;
        }
      }
    }
  }

  /** Rows are never removed and never change amount or recipient. */
  lemma StepKeepsBacking(s: State, e: Event, t: MintTx)
    requires Enabled(s, e) && Backed(s.rows, t)
    ensures Backed(Apply(s, e).rows, t)
  {
    var k :| k in s.rows && TxOf(s.rows, k) == t;
    assert k in Apply(s, e).rows && TxOf(Apply(s, e).rows, k) == t;
  }

  lemma StepKeepsRows(s: State, e: Event)
    requires ContractInv(s) && RowsInv(s) && Enabled(s, e)
    ensures RowsInv(Apply(s, e))
  {
    var s' := Apply(s, e);
    forall t | t in s'.sent ensures Backed(s'.rows, t) {
      if t in s.sent {
        StepKeepsBacking(s, e, t);
      } else {
        assert s.pc.row in s'.rows && TxOf(s'.rows, s.pc.row) == t;
      }
    }
  }

  lemma {:induction false} RunKeepsInv(s: State, es: seq<Event>)
    requires ContractInv(s) && RowsInv(s) && IsRun(s, es)
    ensures ContractInv(Exec(s, es)) && RowsInv(Exec(s, es))
    decreases |es|
  {
    if es != [] {
      var s0, e := Exec(s, es[..|es| - 1]), es[|es| - 1];
      RunKeepsInv(s, es[..|es| - 1]);
      StepKeepsContract(s0, e);
      StepKeepsRows(s0, e);
    }
  }

  // ---- Conservation ----

  ghost function Recorded(rows: Deposits): nat {
    if rows == map[] then 0
    else
      var k :| k in rows;
      rows[k].amount + Recorded(rows - {k})
  }

  function Issued(log: seq<MintTx>): nat {
    if log == [] then 0 else log[0].amount + Issued(log[1..])
  }

  lemma {:induction false} RecordedSplit(rows: Deposits, k: Outpoint)
    requires k in rows
    ensures Recorded(rows) == rows[k].amount + Recorded(rows - {k})
    decreases |rows|
  {
    var p :| p in rows && Recorded(rows) == rows[p].amount + Recorded(rows - {p});
    if p != k {
      RecordedSplit(rows - {p}, k);
      RecordedSplit(rows - {k}, p);
      assert rows - {p} - {k} == rows - {k} - {p};
    }
  }

  /** Mints with different replay keys are backed by different rows, so they cannot add up to more than
      what was recorded. */
  lemma {:induction false} IssuedAtMostRecorded(log: seq<MintTx>, rows: Deposits)
    requires DistinctKeys(log) && forall t | t in log :: Backed(rows, t)
    ensures Issued(log) <= Recorded(rows)
    decreases |log|
  {
    if log != [] {
      assert log[0] in log;
      var k :| k in rows && TxOf(rows, k) == log[0];
      var rest := rows - {k};
      forall t | t in log[1..] ensures Backed(rest, t) {
        var i :| 0 <= i < |log[1..]| && log[1..][i] == t;
        assert log[i + 1] == t && t in log;
        var j :| j in rows && TxOf(rows, j) == t;
        assert j in rest && TxOf(rest, j) == t;
      }
      RecordedSplit(rows, k);
      IssuedAtMostRecorded(log[1..], rest);
    }
  }

  /** Mint safety over every run: no native transaction is minted twice, every mint went to the recipient
      and in the amount of a recorded deposit of that transaction, every row marked minted has its
      contract flag set, and the total minted never exceeds the total recorded. */
  lemma MintSafety(es: seq<Event>)
    requires IsRun(Init, es)
    ensures var s := Exec(Init, es);
            && ContractInv(s) && RowsInv(s)
            && DistinctKeys(s.log)
            && (forall t | t in s.log :: Backed(s.rows, t))
            && (forall k | k in s.rows && s.rows[k].status.Minted? :: ReplayKey(k.txid) in s.flags)
            && Issued(s.log) <= Recorded(s.rows)
  {
    RunKeepsInv(Init, es);
    IssuedAtMostRecorded(Exec(Init, es).log, Exec(Init, es).rows);
  }

  /** A row marked minted was itself paid out, in full and to its own recipient, unless another row
      shares its replay key with a different amount or recipient. */
  lemma MintedRowWasPaid(es: seq<Event>, k: Outpoint)
    requires IsRun(Init, es)
    requires var rows := Exec(Init, es).rows;
             && k in rows && rows[k].status.Minted?
             && forall j | j in rows && ReplayKey(j.txid) == ReplayKey(k.txid) :: TxOf(rows, j) == TxOf(rows, k)
    ensures TxOf(Exec(Init, es).rows, k) in Exec(Init, es).log
  {
    MintSafety(es);
    var s := Exec(Init, es);
    var t :| t in s.log && t.key == ReplayKey(k.txid);
    assert Backed(s.rows, t);
    var j :| j in s.rows && TxOf(s.rows, j) == t;
  }

  lemma ExecAppend(s: State, es: seq<Event>, e: Event)
    requires IsRun(s, es) && Enabled(Exec(s, es), e)
    ensures IsRun(s, es + [e]) && Exec(s, es + [e]) == Apply(Exec(s, es), e)
  {
    assert (es + [e])[..|es|] == es;
  }

  /** An idle process mints row `j` and still has row `k` of the same batch to do. */
  lemma MintFirst(s: State, j: Outpoint, k: Outpoint) returns (es: seq<Event>)
    requires s.pc.Idle? && j in s.rows && k in s.rows && s.rows[j].status.Confirmed? && s.rows[k].status.Confirmed?
    requires ReplayKey(j.txid) !in s.flags
    ensures IsRun(s, es)
    ensures var s' := Exec(s, es);
            && s'.pc == Waiting(j, |s.sent|, [k]) && s'.rows == s.rows && s'.log == s.log + [TxOf(s.rows, j)]
            && s'.flags == s.flags + {ReplayKey(j.txid)} && HasReceipt(s', true)
  {
    es := [];
    ExecAppend(s, es, BeginMints([j, k])); es := es + [BeginMints([j, k])];
    ExecAppend(s, es, NotMinted); es := es + [NotMinted];
    assert [j, k][1..] == [k];
    ExecAppend(s, es, Submit); es := es + [Submit];
    ExecAppend(s, es, Mine(|s.sent|, true)); es := es + [Mine(|s.sent|, true)];
  }

  /** The exception is real: of two confirmed rows with one replay key and different mints, the second
      can always end up marked minted although its own mint never happened. */
  lemma SharedKeyUnpaid(s: State, j: Outpoint, k: Outpoint) returns (es: seq<Event>)
    requires ContractInv(s) && s.pc.Idle?
    requires j in s.rows && k in s.rows && s.rows[j].status.Confirmed? && s.rows[k].status.Confirmed?
    requires ReplayKey(j.txid) == ReplayKey(k.txid) && ReplayKey(k.txid) !in s.flags
    requires TxOf(s.rows, j) != TxOf(s.rows, k)
    ensures IsRun(s, es)
    ensures k in Exec(s, es).rows && Exec(s, es).rows[k].status.Minted? && TxOf(Exec(s, es).rows, k) !in Exec(s, es).log
  {
    es := MintFirst(s, j, k);
    ExecAppend(s, es, ReceiptOk); es := es + [ReceiptOk];
    ExecAppend(s, es, AlreadyMinted); es := es + [AlreadyMinted];
  }

  lemma {:induction false} RunsCompose(s: State, es: seq<Event>, more: seq<Event>)
    requires IsRun(s, es) && IsRun(Exec(s, es), more)
    ensures IsRun(s, es + more) && Exec(s, es + more) == Exec(Exec(s, es), more)
    decreases |more|
  {
    if more == [] {
      assert es + more == es;
    } else {
      var init, e := more[..|more| - 1], more[|more| - 1];
      RunsCompose(s, es, init);
      ExecAppend(s, es + init, e);
      assert es + more == es + init + [e];
    }
  }

  // ---- What becomes of a row ----

  /** The steps of the mint loop and of the chain it talks to. */
  predicate Minting(e: Event) {
    !e.Insert? && !e.InsertRetired? && !e.MarkRetired? && !e.SetRow?
  }

  /** Left alone, failed, or minted. */
  predicate Settled(d: Deposit, d': Deposit) {
    d' == d || d' == d.(status := Failed) || d' == d.(status := Minted)
  }

  /** The row that the loop has in hand. */
  predicate InHand(s: State, k: Outpoint) {
    match s.pc
    case Queue(todo) => todo != [] && todo[0] == k
    case Unminted(row, _) => row == k
    case Waiting(row, _, _) => row == k
    case _ => false
  }

  /** The mint loop changes the row in hand alone, and only to failed or minted. */
  lemma MintingSettles(s: State, e: Event, k: Outpoint)
    requires Enabled(s, e) && Minting(e) && k in s.rows
    ensures var s' := Apply(s, e);
            k in s'.rows && Settled(s.rows[k], s'.rows[k]) && (!InHand(s, k) ==> s'.rows[k] == s.rows[k])
  {
  }

  /** The steps at which the loop is done with a row that it did not skip. */
  predicate Releases(e: Event) {
    e.AlreadyMinted? || e.ReceiptOk? || e.ReceiptReverted? || e.MintFailed?
  }

  /** It lets go of such a row as minted exactly on the contract's flag or a good receipt, and as failed otherwise. */
  lemma ReleasedExact(s: State, e: Event, k: Outpoint)
    requires Enabled(s, e) && Releases(e) && InHand(s, k) && k in s.rows
    ensures var d := Apply(s, e).rows[k];
            && (e.AlreadyMinted? ==> ReplayKey(k.txid) in s.flags)
            && (d.status.Minted? <==> e.AlreadyMinted? || (e.ReceiptOk? && HasReceipt(s, true)))
            && (d.status.Failed? <==> e.MintFailed? || (e.ReceiptReverted? && HasReceipt(s, false)))
  {
  }

  /** Up for a refund, refunded, or set aside for approval by hand. */
  predicate ForRefund(d: Deposit) {
    || d.status.OverLimit? || d.status.Refunding? || d.status.Refunded? || d.status.RefundFailed?
    || d.status.RetiredPending?
  }

  /** The mark of the scanner, or the one for a payment to a retired address. */
  predicate Marks(s: State, e: Event, k: Outpoint) {
    (e.SetRow? && e.key == k && e.status.OverLimit?) || (e.MarkRetired? && s.pc.Marking? && s.pc.row == k)
  }

  /** Exactly these two marks put a row up for a refund. */
  lemma RefundExact(s: State, e: Event, k: Outpoint)
    requires Enabled(s, e) && k in s.rows && !ForRefund(s.rows[k])
    ensures k in Apply(s, e).rows && (ForRefund(Apply(s, e).rows[k]) <==> Marks(s, e, k))
  {
  }

  predicate Unmarked(s: State, es: seq<Event>, k: Outpoint)
    requires IsRun(s, es)
  {
    es == [] || (Unmarked(s, es[..|es| - 1], k) && !Marks(Exec(s, es[..|es| - 1]), es[|es| - 1], k))
  }

  /** So a deposit, minted or on its way there, is paid back in no run that does not mark it. */
  lemma {:induction false} UnmarkedIsNotRefunded(s: State, es: seq<Event>, k: Outpoint)
    requires IsRun(s, es) && k in s.rows && !ForRefund(s.rows[k]) && Unmarked(s, es, k)
    ensures k in Exec(s, es).rows && !ForRefund(Exec(s, es).rows[k])
    decreases |es|
  {
    if es != [] {
      UnmarkedIsNotRefunded(s, es[..|es| - 1], k);
      RefundExact(Exec(s, es[..|es| - 1]), es[|es| - 1], k);
    }
  }

  /** A good receipt is that of a mint in the log, and the receipt waited for is that of the row in hand. */
  ghost predicate ReceiptInv(s: State) {
    && (forall n | n in s.receipts && s.receipts[n] :: n < |s.sent| && s.sent[n] in s.log)
    && (s.pc.Waiting? ==> s.pc.row in s.rows && s.pc.nonce < |s.sent| && s.sent[s.pc.nonce] == TxOf(s.rows, s.pc.row))
  }

  lemma StepKeepsReceipts(s: State, e: Event)
    requires ReceiptInv(s) && Enabled(s, e)
    ensures ReceiptInv(Apply(s, e))
  {
  }

  lemma {:induction false} ReceiptRuns(es: seq<Event>)
    requires IsRun(Init, es)
    ensures ReceiptInv(Exec(Init, es))
    decreases |es|
  {
    if es != [] {
      ReceiptRuns(es[..|es| - 1]);
      StepKeepsReceipts(Exec(Init, es[..|es| - 1]), es[|es| - 1]);
    }
  }

  /** In every run, a row whose good receipt was read is minted, and its own mint is in the log: its amount, to its
      own recipient. */
  lemma ReceiptMeansPaid(es: seq<Event>)
    requires IsRun(Init, es) && Enabled(Exec(Init, es), ReceiptOk)
    ensures var s := Exec(Init, es);
            var s' := Apply(s, ReceiptOk);
            && s.pc.row in s.rows && s.pc.row in s'.rows
            && s'.rows[s.pc.row] == s.rows[s.pc.row].(status := Minted)
            && TxOf(s'.rows, s.pc.row) in s'.log
  {
    ReceiptRuns(es);
  }

  // ---- Every minted row was paid, or a mark was lost ----

  /** The step stops between the two commits for a payment to a retired address, or marks such a payment failed
      for being too small to refund. */
  predicate LosesMark(s: State, e: Event) {
    (e.Crash? && s.pc.Marking?) || (e.SetRow? && e.status.Failed? && e.key in s.retired)
  }

  predicate MarksWhole(s: State, es: seq<Event>)
    requires IsRun(s, es)
  {
    es == [] || (MarksWhole(s, es[..|es| - 1]) && !LosesMark(Exec(s, es[..|es| - 1]), es[|es| - 1]))
  }

  /** Rows of retired addresses are out of the mint loop's reach, except while one is being marked. */
  ghost predicate RetiredInv(s: State) {
    && (forall k | k in s.retired :: k in s.rows && (Live(s.rows[k]) ==> s.pc == Marking(k)))
    && (s.pc.Marking? ==> s.pc.row in s.retired && s.rows[s.pc.row].status.Pending?)
    && (s.pc.Queue? ==> forall k | k in s.pc.todo :: k !in s.retired)
    && (s.pc.Unminted? || s.pc.Waiting? ==> s.pc.row !in s.retired && forall k | k in s.pc.todo :: k !in s.retired)
  }

  /** One row per transaction, retired addresses aside. */
  ghost predicate OneRow(s: State) {
    forall j, k | j in s.rows && k in s.rows && j !in s.retired && k !in s.retired && j.txid == k.txid :: j == k
  }

  /** A mint of a row that the scanner recorded. */
  ghost predicate BackedByScan(s: State, t: MintTx) {
    exists k {:trigger k in s.rows} :: k in s.rows && k !in s.retired && TxOf(s.rows, k) == t
  }

  lemma StepKeepsRetired(s: State, e: Event)
    requires RetiredInv(s) && Enabled(s, e) && !LosesMark(s, e)
    ensures RetiredInv(Apply(s, e))
  {
  }

  lemma StepKeepsOneRow(s: State, e: Event)
    requires OneRow(s) && RetiredInv(s) && Enabled(s, e)
    ensures OneRow(Apply(s, e))
  {
  }

  lemma StepKeepsScanBacking(s: State, e: Event, t: MintTx)
    requires Enabled(s, e) && BackedByScan(s, t)
    ensures BackedByScan(Apply(s, e), t)
  {
    var k :| k in s.rows && k !in s.retired && TxOf(s.rows, k) == t;
    var s' := Apply(s, e);
    assert k in s'.rows && k !in s'.retired && TxOf(s'.rows, k) == t;
  }

  ghost predicate WholeInv(s: State) {
    RetiredInv(s) && OneRow(s) && forall t | t in s.sent :: BackedByScan(s, t)
  }

  lemma StepKeepsWhole(s: State, e: Event)
    requires WholeInv(s) && Enabled(s, e) && !LosesMark(s, e)
    ensures WholeInv(Apply(s, e))
  {
    var s' := Apply(s, e);
    StepKeepsRetired(s, e);
    StepKeepsOneRow(s, e);
    forall t | t in s'.sent ensures BackedByScan(s', t) {
      if t in s.sent {
        StepKeepsScanBacking(s, e, t);
      } else {
        assert s.pc.row in s'.rows && s.pc.row !in s'.retired && TxOf(s'.rows, s.pc.row) == t;
      }
    }
  }

  lemma {:induction false} WholeRuns(es: seq<Event>)
    requires IsRun(Init, es) && MarksWhole(Init, es)
    ensures WholeInv(Exec(Init, es))
    decreases |es|
  {
    if es != [] {
      WholeRuns(es[..|es| - 1]);
      StepKeepsWhole(Exec(Init, es[..|es| - 1]), es[|es| - 1]);
    }
  }

  /** The first 64 digits, with zeros where the txid ends early. */
  lemma ReplayKeyDigits(txid: string)
    ensures |ReplayKey(txid)| == 64
    ensures forall i | 0 <= i < 64 :: ReplayKey(txid)[i] == if i < |txid| then txid[i] else '0'
  {
  }

  lemma FullKey(txid: string)
    requires |txid| == KEY_DIGITS
    ensures ReplayKey(txid) == txid
  {
  }

  lemma PaidIfWhole(s: State, k: Outpoint)
    requires ContractInv(s) && WholeInv(s) && forall j | j in s.rows :: |j.txid| == KEY_DIGITS
    requires k in s.rows && s.rows[k].status.Minted? && ReplayKey(k.txid) in s.flags
    ensures TxOf(s.rows, k) in s.log
  {
    var t :| t in s.log && t.key == ReplayKey(k.txid);
    assert BackedByScan(s, t);
    var j :| j in s.rows && j !in s.retired && TxOf(s.rows, j) == t;
    FullKey(j.txid);
    FullKey(k.txid);
    assert k !in s.retired;
    assert j == k;
  }

  /** In every run that never loses the mark of a payment to a retired address, every row marked minted was itself
      paid, in full and to its own recipient. */
  lemma MintedRowsArePaid(es: seq<Event>, k: Outpoint)
    requires IsRun(Init, es) && MarksWhole(Init, es)
    requires var rows := Exec(Init, es).rows;
             && k in rows && rows[k].status.Minted? && forall j | j in rows :: |j.txid| == KEY_DIGITS
    ensures TxOf(Exec(Init, es).rows, k) in Exec(Init, es).log
  {
    MintSafety(es);
    WholeRuns(es);
    PaidIfWhole(Exec(Init, es), k);
  }

  /** One transaction pays the bridge and a retired address. The process stops before it marks the second row,
      which stays pending; both are confirmed. */
  lemma TwoConfirmed(j: Outpoint, d: Deposit, k: Outpoint, c: Deposit) returns (es: seq<Event>)
    requires j != k && d.status.Pending? && c.status.Pending?
    ensures IsRun(Init, es)
    ensures Exec(Init, es) ==
            Init.(rows := map[][j := d][k := c][j := d.(status := Confirmed)][k := c.(status := Confirmed)],
                  retired := {k})
  {
    es := [];
    ExecAppend(Init, es, Insert(j, d)); es := es + [Insert(j, d)];
    ExecAppend(Init, es, InsertRetired(k, c)); es := es + [InsertRetired(k, c)];
    ExecAppend(Init, es, Crash); es := es + [Crash];
    ExecAppend(Init, es, SetRow(j, Confirmed)); es := es + [SetRow(j, Confirmed)];
    ExecAppend(Init, es, SetRow(k, Confirmed)); es := es + [SetRow(k, Confirmed)];
  }

  /** Then the second row is marked minted and was never paid, for any two different amounts. */
  lemma SharedKeyRun(j: Outpoint, d: Deposit, k: Outpoint, c: Deposit) returns (es: seq<Event>)
    requires j != k && j.txid == k.txid && d.status.Pending? && c.status.Pending? && d.amount != c.amount
    ensures IsRun(Init, es)
    ensures k in Exec(Init, es).rows && Exec(Init, es).rows[k].status.Minted?
    ensures TxOf(Exec(Init, es).rows, k) !in Exec(Init, es).log
  {
    var start := TwoConfirmed(j, d, k, c);
    MintSafety(start);
    var more := SharedKeyUnpaid(Exec(Init, start), j, k);
    RunsCompose(Init, start, more);
    es := start + more;
  }
}
