/** The deposit, sync-state and block-hash tables of the relayer's database, for one native chain. */
module StateDb {
  import opened Wrappers
  import opened Blocks

  /** The UNIQUE key of the deposits table. */
  datatype Outpoint = Outpoint(txid: string, vout: nat)

  datatype DepositStatus =
    | Pending | Confirmed | Minted | Failed | Reorged
    | OverLimit | Refunding | Refunded | RefundFailed | RetiredPending

  datatype Deposit = Deposit(amount: nat, base: string, height: nat, block: Block, status: DepositStatus)

  /** A deposit that the relayer may still mint without it having failed before. */
  predicate Active(d: Deposit) {
    d.status.Pending? || d.status.Confirmed?
  }

  /** A deposit that was minted, or that the mint loop may come to without the deposit being recorded again. */
  predicate Live(d: Deposit) {
    Active(d) || d.status.Failed? || d.status.Minted?
  }

  /** Deducted from a refund; a deposit worth no more than that is not refunded but marked failed. */
  const REFUND_FEE: nat := 10000

  /** The updates of one deposit's status outside the block scan and the reorg check: confirmation, the mint loop,
      the refund loop, and the marks for a payment to a retired address. */
  predicate Moves(d: Deposit, status: DepositStatus) {
    match status
    case Confirmed => d.status.Pending?
    case Minted => d.status.Confirmed? || d.status.Failed?
    case Failed => (Live(d) && !d.status.Pending?) || (d.status.OverLimit? && d.amount <= REFUND_FEE)
    case Refunding => d.status.OverLimit?
    case Refunded => d.status.Refunding?
    case RefundFailed => d.status.OverLimit?
    case OverLimit => d.status.Pending? || d.status.Refunding?
    case RetiredPending => d.status.Pending?
    case _ => false
  }

  type Deposits = map<Outpoint, Deposit>

  /** Last processed block; `hash` is None where the source stores the empty string. */
  datatype Sync = Sync(height: nat, hash: Option<Block>)

  datatype Db = Db(sync: Option<Sync>, hashes: map<nat, Block>, rows: Deposits)

  /** A payment to the bridge address found in a block, with a valid bridge output. */
  datatype Found = Found(key: Outpoint, amount: nat, base: string, overLimit: bool)

  function InsertDeposit(rows: Deposits, k: Outpoint, d: Deposit): Deposits {
    if k in rows then rows else rows[k := d]
  }

  function SetStatus(rows: Deposits, k: Outpoint, status: DepositStatus): Deposits {
    if k in rows then rows[k := rows[k].(status := status)] else rows
  }

  function RecordFound(rows: Deposits, f: Found, b: Block): Deposits {
    var inserted := InsertDeposit(rows, f.key, Deposit(f.amount, f.base, Height(b), b, Pending));
    if f.overLimit then SetStatus(inserted, f.key, OverLimit) else inserted
  }

  function RecordAll(rows: Deposits, found: seq<Found>, b: Block): Deposits {
    if found == [] then rows
    else RecordFound(RecordAll(rows, found[..|found| - 1], b), found[|found| - 1], b)
  }

  function MarkReorged(rows: Deposits, minHeight: nat): Deposits {
    map k | k in rows ::
      if Active(rows[k]) && rows[k].height >= minHeight then rows[k].(status := Reorged) else rows[k]
  }

  /** Keeps the hashes within `keepLast` of the greatest stored height. */
  function PruneHashes(hashes: map<nat, Block>, top: nat, keepLast: nat): map<nat, Block> {
    map h | h in hashes && h >= top - keepLast :: hashes[h]
  }

  /** Every deposit that is active after a block was recorded was active before or is new and
      carries that block. */
  lemma {:induction false} RecordAllActive(rows: Deposits, found: seq<Found>, b: Block, k: Outpoint)
    requires k in RecordAll(rows, found, b) && Active(RecordAll(rows, found, b)[k])
    ensures var d := RecordAll(rows, found, b)[k];
            if k in rows then d == rows[k] else d.block == b && d.height == Height(b)
    decreases |found|
  {
    if found != [] {
      var rest := found[..|found| - 1];
      if k in RecordAll(rows, rest, b) && Active(RecordAll(rows, rest, b)[k]) {
        RecordAllActive(rows, rest, b, k);
      } else {
        RecordAllKeeps(rows, rest, b, k);
      }
    }
  }

  lemma {:induction false} RecordAllKeeps(rows: Deposits, found: seq<Found>, b: Block, k: Outpoint)
    ensures k in rows ==> k in RecordAll(rows, found, b)
    decreases |found|
  {
    if found != [] {
      RecordAllKeeps(rows, found[..|found| - 1], b, k);
    }
  }

  predicate Pays(found: seq<Found>, k: Outpoint) {
    exists f | f in found :: f.key == k
  }

  predicate PaysOver(found: seq<Found>, k: Outpoint) {
    exists f | f in found :: f.key == k && f.overLimit
  }

  lemma PaysSnoc(found: seq<Found>, f: Found, k: Outpoint)
    ensures Pays(found + [f], k) <==> Pays(found, k) || f.key == k
    ensures PaysOver(found + [f], k) <==> PaysOver(found, k) || (f.key == k && f.overLimit)
  {
    assert forall g :: g in found + [f] <==> g in found || g == f;
  }

  /** What recording a block makes of a row's status. An over-limit payment sets the row aside for a refund,
      whatever the row was before; any other payment changes no existing row and makes a new one wait for
      confirmation. */
  lemma {:induction false} RecordedStatus(rows: Deposits, found: seq<Found>, b: Block, k: Outpoint)
    ensures var rows' := RecordAll(rows, found, b);
            && (k in rows' <==> k in rows || Pays(found, k))
            && (k in rows' && PaysOver(found, k) ==> rows'[k].status.OverLimit?)
            && (k in rows && !PaysOver(found, k) ==> rows'[k] == rows[k])
            && (k in rows' && k !in rows && !PaysOver(found, k) ==> rows'[k].status.Pending?)
    decreases |found|
  {
    if found != [] {
      var rest, f := found[..|found| - 1], found[|found| - 1];
      assert found == rest + [f];
      RecordedStatus(rows, rest, b, k);
      PaysSnoc(rest, f, k);
    }
  }

  /** The row holds the amount and the recipient of the first payment of the block under its key. */
  predicate HoldsFirst(found: seq<Found>, b: Block, k: Outpoint, d: Deposit, i: nat) {
    && i < |found| && found[i].key == k && (forall j | 0 <= j < i :: found[j].key != k)
    && d.amount == found[i].amount && d.base == found[i].base && d.height == Height(b) && d.block == b
  }

  lemma {:induction false} RecordedContent(rows: Deposits, found: seq<Found>, b: Block, k: Outpoint) returns (i: nat)
    requires k !in rows && k in RecordAll(rows, found, b)
    ensures HoldsFirst(found, b, k, RecordAll(rows, found, b)[k], i)
    decreases |found|
  {
    var rest := found[..|found| - 1];
    RecordedStatus(rows, rest, b, k);
    if k in RecordAll(rows, rest, b) {
      i := RecordedContent(rows, rest, b, k);
    } else {
      i := |rest|;
    }
  }

  /** The tables themselves. Each method is one committed SQL statement. */
  class StateDB {
    var sync: Option<Sync>
    var hashes: map<nat, Block>
    var rows: Deposits

    function View(): Db
      reads this
    {
      Db(sync, hashes, rows)
    }

    constructor ()
      ensures View() == Db(None, map[], map[])
    {
      sync, hashes, rows := None, map[], map[];
    }

    method SetSyncState(height: nat, hash: Option<Block>)
      modifies this
      ensures View() == old(View()).(sync := Some(Sync(height, hash)))
    {
      sync := Some(Sync(height, hash));
    }

    method StoreBlockHash(height: nat, hash: Block)
      modifies this
      ensures View() == old(View()).(hashes := old(hashes)[height := hash])
    {
      hashes := hashes[height := hash];
    }

    /** Drops every hash more than `keepLast` below the greatest stored height. */
    method PruneBlockHashes(keepLast: nat) returns (top: nat)
      modifies this
      ensures View() == old(View()).(hashes := PruneHashes(old(hashes), top, keepLast))
      ensures old(hashes) != map[] ==> top in hashes && forall h | h in old(hashes) :: h <= top
      ensures forall h | h in old(hashes) && h + keepLast >= top :: h in hashes && hashes[h] == old(hashes)[h]
      ensures forall h | h in hashes :: h in old(hashes) && h + keepLast >= top
    {
      top := 0;
      var todo := hashes.Keys;
      while todo != {}
        invariant todo <= hashes.Keys
        invariant forall h | h in hashes && h !in todo :: h <= top
        invariant todo != hashes.Keys ==> top in hashes
        decreases |todo|
      {
        var h :| h in todo;
        if todo == hashes.Keys || h > top { top := h; }
        todo := todo - {h};
      }
      hashes := map h | h in hashes && h >= top - keepLast :: hashes[h];
    }

    /** Idempotent: a second insert under the same key changes nothing. */
    method InsertNew(k: Outpoint, d: Deposit) returns (inserted: bool)
      modifies this
      ensures inserted <==> k !in old(rows)
      ensures View() == old(View()).(rows := InsertDeposit(old(rows), k, d))
    {
      inserted := k !in rows;
      if inserted { rows := rows[k := d]; }
    }

    method UpdateStatus(k: Outpoint, status: DepositStatus)
      modifies this
      ensures View() == old(View()).(rows := SetStatus(old(rows), k, status))
    {
      if k in rows { rows := rows[k := rows[k].(status := status)]; }
    }

    method MarkDepositsReorged(minHeight: nat)
      modifies this
      ensures View() == old(View()).(rows := MarkReorged(old(rows), minHeight))
    {
      rows := map k | k in rows ::
        if Active(rows[k]) && rows[k].height >= minHeight then rows[k].(status := Reorged) else rows[k];
    }
  }
}
