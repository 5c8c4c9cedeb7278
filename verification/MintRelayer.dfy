/** The relayer's mint loop over the deposits table and the Base chain, which moves on by itself between
any two calls. The loop returns the events of module `Mint` it went through. */
module MintRelayer {
  import opened Wrappers
  import opened StateDb
  import opened Mint

  /** The chain as the loop meets it: the contract's flags and log, and the transactions submitted. */
  class BaseChain {
    var flags: set<string>
    var log: seq<MintTx>
    var sent: seq<MintTx>
    var pool: set<nat>
    var receipts: map<nat, bool>

    constructor ()
      ensures flags == {} && log == [] && sent == [] && pool == {} && receipts == map[]
    {
      flags, log, sent, pool, receipts := {}, [], [], {}, map[];
    }

    /** Query of the replay flag; None when the call failed. */
    method Minted(key: string) returns (r: Option<bool>)
      ensures r.Some? ==> (r.value <==> key in flags)
    {
      var reachable: bool := *;
      r := if reachable then Some(key in flags) else None;
    }

    method Send(t: MintTx) returns (nonce: nat)
      modifies this
      ensures nonce == |old(sent)| && sent == old(sent) + [t] && pool == old(pool) + {nonce}
      ensures flags == old(flags) && log == old(log) && receipts == old(receipts)
    {
      nonce := |sent|;
      sent, pool := sent + [t], pool + {nonce};
    }

    /** Waiting for a receipt; None when the wait timed out or failed. */
    method Receipt(nonce: nat) returns (r: Option<bool>)
      ensures r.Some? ==> nonce in receipts && receipts[nonce] == r.value
    {
      var reachable: bool := *;
      r := if reachable && nonce in receipts then Some(receipts[nonce]) else None;
    }
  }

  const MAX_RETRIES: nat := 3
  const COOLDOWN: int := 300
  const REVERT_COOLDOWN: int := 3600

  /** How often a row has failed, when last, and whether its last error was a reverted transaction. */
  datatype Failure = Failure(reverted: bool, count: nat, at: int)

  /** A revert is retried without limit after an hour; other errors after five minutes, up to three failures. */
  predicate Due(f: Failure, now: int) {
    if f.reverted then f.at + REVERT_COOLDOWN <= now else f.count < MAX_RETRIES && f.at + COOLDOWN <= now
  }

  /** Which failures are ever retried, and from when on: a revert always, an hour later; any other error five minutes
      later, unless it was the third failure. */
  lemma RetryExact(f: Failure)
    ensures (exists now :: Due(f, now)) <==> f.reverted || f.count < 3
    ensures forall now, later | Due(f, now) && now <= later :: Due(f, later)
    ensures f.reverted || f.count < 3 ==>
              var wait := if f.reverted then 3600 else 300; Due(f, f.at + wait) && !Due(f, f.at + wait - 1)
  {
    if f.reverted || f.count < 3 {
      assert Due(f, f.at + if f.reverted then 3600 else 300);
    }
  }

  class MintLoop {
    var rows: Deposits
    var failures: map<Outpoint, Failure>
    const chain: BaseChain
    ghost var retired: set<Outpoint>

    constructor (chain: BaseChain)
      ensures this.chain == chain && rows == map[] && failures == map[] && retired == {}
    {
      this.chain, rows, failures, retired := chain, map[], map[], {};
    }

    ghost function View(pc: Pc): State
      reads this, chain
    {
      State(rows, retired, pc, chain.flags, chain.log, chain.sent, chain.pool, chain.receipts)
    }

    /** Any number of pending transactions are mined or dropped. */
    method Elapse(ghost s: State, ghost pc: Pc, ghost es0: seq<Event>) returns (ghost es: seq<Event>)
      requires IsRun(s, es0) && Exec(s, es0) == View(pc)
      modifies chain
      ensures IsRun(s, es) && Exec(s, es) == View(pc) && chain.sent == old(chain.sent)
    {
      es := es0;
      var turns: nat :| turns >= 0;
      for i := 0 to turns
        invariant IsRun(s, es) && Exec(s, es) == View(pc) && chain.sent == old(chain.sent)
      {
        var n: nat, mined: bool, accepted: bool := *, *, *;
        if n in chain.pool && n < |chain.sent| {
          if mined {
            es := Step(s, es, Mine(n, accepted));
            var t := chain.sent[n];
            var ok := accepted && t.key !in chain.flags;
            if ok {
              chain.flags, chain.log := chain.flags + {t.key}, chain.log + [t];
            }
            chain.pool, chain.receipts := chain.pool - {n}, chain.receipts[n := ok];
          } else {
            es := Step(s, es, DropTx(n));
            chain.pool := chain.pool - {n};
          }
        }
      }
    }

    predicate Retryable(k: Outpoint, now: int)
      reads this
    {
      k in rows && rows[k].status.Failed? && k in failures && Due(failures[k], now)
    }

    /** Confirmed rows, then the failed rows that are due for a retry, each once. */
    method Select(now: int) returns (work: seq<Outpoint>)
      ensures forall k :: k in work <==> k in rows && (rows[k].status.Confirmed? || Retryable(k, now))
      ensures forall i, j | 0 <= i < j < |work| :: work[i] != work[j]
    {
      var confirmed: seq<Outpoint>, retryable: seq<Outpoint> := [], [];
      var todo := rows.Keys;
      while todo != {}
        invariant todo <= rows.Keys
        invariant forall k :: k in confirmed <==> k in rows && k !in todo && rows[k].status.Confirmed?
        invariant forall k :: k in retryable <==> k !in todo && Retryable(k, now)
        invariant forall i, j | 0 <= i < j < |confirmed| :: confirmed[i] != confirmed[j]
        invariant forall i, j | 0 <= i < j < |retryable| :: retryable[i] != retryable[j]
        decreases |todo|
      {
        var k :| k in todo;
        todo := todo - {k};
        if rows[k].status.Confirmed? {
          confirmed := confirmed + [k];
        } else if Retryable(k, now) {
          retryable := retryable + [k];
        }
      }
      forall i, j | 0 <= i < |confirmed| && 0 <= j < |retryable| ensures confirmed[i] != retryable[j] {
        assert confirmed[i] in confirmed && retryable[j] in retryable;
      }
      work := confirmed + retryable;
    }

    method MarkMinted(k: Outpoint)
      modifies this
      ensures rows == SetStatus(old(rows), k, Minted) && failures == old(failures) && retired == old(retired)
    {
      if k in rows {
        rows := rows[k := rows[k].(status := Minted)];
      }
    }

    /** Counts the failure and dates it. */
    method MarkFailed(k: Outpoint, reverted: bool, now: int)
      requires k in rows
      modifies this
      ensures rows == SetStatus(old(rows), k, Failed) && retired == old(retired)
      ensures failures.Keys == old(failures.Keys) + {k}
      ensures failures[k].reverted == reverted && now <= failures[k].at
      ensures failures[k].count == 1 + if k in old(failures) then old(failures)[k].count else 0
      ensures forall j | j in old(failures) && j != k :: failures[j] == old(failures)[j]
    {
      var at: int :| at >= now;
      rows := rows[k := rows[k].(status := Failed)];
      failures := failures[k := Failure(reverted, 1 + if k in failures then failures[k].count else 0, at)];
    }

    /** One submission; any exception marks the row failed: before or after the transaction left, or in the
        daily count that follows a good receipt. */
    method MintOne(k: Outpoint, now: int, ghost todo: seq<Outpoint>, ghost s: State, ghost es0: seq<Event>)
      returns (ghost es: seq<Event>)
      requires k in rows && IsRun(s, es0) && Exec(s, es0) == View(Unminted(k, todo))
      modifies this, chain
      ensures IsRun(s, es) && Exec(s, es) == View(Queue(todo)) && OneSettled(old(rows), rows, k)
    {
      es := Elapse(s, Unminted(k, todo), es0);
      var built: bool := *;
      if !built {
        es := Step(s, es, MintFailed);
        MarkFailed(k, false, now);
        return;
      }
      es := Step(s, es, Submit);
      var nonce := chain.Send(MintTx(ReplayKey(k.txid), rows[k].base, rows[k].amount));
      es := AwaitReceipt(k, now, nonce, todo, s, es);
    }

    method AwaitReceipt(k: Outpoint, now: int, nonce: nat,
                        ghost todo: seq<Outpoint>, ghost s: State, ghost es0: seq<Event>)
      returns (ghost es: seq<Event>)
      requires k in rows && IsRun(s, es0) && Exec(s, es0) == View(Waiting(k, nonce, todo))
      modifies this, chain
      ensures IsRun(s, es) && Exec(s, es) == View(Queue(todo)) && OneSettled(old(rows), rows, k)
      ensures k in rows && (rows[k].status.Minted? ==> nonce in chain.receipts && chain.receipts[nonce])
    {
      es := Elapse(s, Waiting(k, nonce, todo), es0);
      var receipt := chain.Receipt(nonce);
      if receipt == Some(true) {
        es := Counted(k, now, nonce, todo, s, es);
      } else if receipt.None? {
        es := Step(s, es, MintFailed);
        MarkFailed(k, false, now);
      } else {
        es := Step(s, es, ReceiptReverted);
        MarkFailed(k, true, now);
      }
    }

    /** After a good receipt. */
    method Counted(k: Outpoint, now: int, nonce: nat,
                   ghost todo: seq<Outpoint>, ghost s: State, ghost es0: seq<Event>)
      returns (ghost es: seq<Event>)
      requires k in rows && IsRun(s, es0) && Exec(s, es0) == View(Waiting(k, nonce, todo))
      requires nonce in chain.receipts && chain.receipts[nonce]
      modifies this
      ensures IsRun(s, es) && Exec(s, es) == View(Queue(todo)) && OneSettled(old(rows), rows, k)
    {
      es := es0;
      MarkMinted(k);
      var counted: bool := *;
      if counted {
        es := Step(s, es, ReceiptOk);
      } else {
        es := Step(s, es, MintFailed);
        MarkFailed(k, false, now);
      }
    }

    /** The contract check, the dry run and the submission for the first row of the rest of the batch. */
    method HandleOne(k: Outpoint, now: int, hasContract: bool, dryRun: bool,
                     ghost rest: seq<Outpoint>, ghost s: State, ghost es0: seq<Event>)
      returns (ghost es: seq<Event>)
      requires k in rows && IsRun(s, es0) && Exec(s, es0) == View(Queue([k] + rest))
      modifies this, chain
      ensures IsRun(s, es) && Exec(s, es) == View(Queue(rest)) && OneSettled(old(rows), rows, k)
      ensures !hasContract || dryRun ==> chain.sent == old(chain.sent)
      ensures !hasContract ==> rows == old(rows)
    {
      assert ([k] + rest)[1..] == rest;
      es := Elapse(s, Queue([k] + rest), es0);
      if !hasContract {
        es := Step(s, es, SkipRow);
        return;
      }
      var minted := chain.Minted(ReplayKey(k.txid));
      if minted == Some(true) {
        es := Step(s, es, AlreadyMinted);
        MarkMinted(k);
      } else if minted.None? || dryRun {
        es := Step(s, es, SkipRow);
      } else {
        es := Step(s, es, NotMinted);
        es := MintOne(k, now, rest, s, es);
      }
    }

    /** The loop over the batch. */
    method HandleAll(work: seq<Outpoint>, now: int, hasContract: bool, dryRun: bool,
                     ghost s: State, ghost es0: seq<Event>)
      returns (ghost es: seq<Event>)
      requires IsRun(s, es0) && Exec(s, es0) == View(Queue(work))
      requires (forall k | k in work :: k in rows) && forall i, j | 0 <= i < j < |work| :: work[i] != work[j]
      modifies this, chain
      ensures IsRun(s, es) && Exec(s, es) == View(Queue([]))
      ensures !hasContract || dryRun ==> chain.sent == old(chain.sent)
      ensures !hasContract ==> rows == old(rows)
      ensures rows.Keys == old(rows.Keys) && forall k | k in rows ::
                if k in work then Settled(old(rows)[k], rows[k]) else rows[k] == old(rows)[k]
    {
      es := es0;
      for i := 0 to |work|
        invariant IsRun(s, es) && Exec(s, es) == View(Queue(work[i..])) && rows.Keys == old(rows.Keys)
        invariant !hasContract || dryRun ==> chain.sent == old(chain.sent)
        invariant !hasContract ==> rows == old(rows)
        invariant forall k | k in rows && k !in work[..i] :: rows[k] == old(rows)[k]
        invariant forall k | k in rows && k in work[..i] :: Settled(old(rows)[k], rows[k])
      {
        assert work[i..] == [work[i]] + work[i + 1..] && work[..i + 1] == work[..i] + [work[i]];
        assert work[i] in work && work[i] !in work[..i];
        ghost var before := rows;
        es := HandleOne(work[i], now, hasContract, dryRun, work[i + 1..], s, es);
        RowByRow(before, rows, work[i]);
      }
      assert work[..|work|] == work;
    }

    /** Every pass of the loop is a run of the machine, so `MintSafety` applies to it. It leaves every row alone that
        is neither confirmed nor due for a retry; the others it leaves alone, fails or mints. */
    method ProcessConfirmedDeposits(now: int, hasAccount: bool, hasContract: bool, dryRun: bool, ghost s: State)
      returns (ghost es: seq<Event>)
      requires s == View(Idle)
      modifies this, chain
      ensures IsRun(s, es) && Exec(s, es) == View(Idle)
      ensures !hasAccount || !hasContract || dryRun ==> chain.sent == old(chain.sent)
      ensures !hasAccount || !hasContract ==> rows == old(rows)
      ensures rows.Keys == old(rows.Keys) && forall k | k in rows ::
                if old(rows[k].status.Confirmed? || Retryable(k, now)) then Settled(old(rows)[k], rows[k])
                else rows[k] == old(rows)[k]
      ensures ContractInv(s) && RowsInv(s) ==>
                forall k | k in rows && rows[k].status.Minted? :: ReplayKey(k.txid) in chain.flags
    {
      es := [];
      if hasAccount {
        var work := Select(now);
        es := Step(s, es, BeginMints(work));
        es := HandleAll(work, now, hasContract, dryRun, s, es);
        es := Step(s, es, EndLoop);
      }
      if ContractInv(s) && RowsInv(s) {
        RunKeepsInv(s, es);
      }
    }
  }

  /** At most row `k` changed, to failed or minted. */
  ghost predicate OneSettled(rows: Deposits, rows': Deposits, k: Outpoint) {
    rows' == rows || rows' == SetStatus(rows, k, Failed) || rows' == SetStatus(rows, k, Minted)
  }

  lemma RowByRow(rows: Deposits, rows': Deposits, k: Outpoint)
    requires OneSettled(rows, rows', k) && k in rows
    ensures rows'.Keys == rows.Keys && Settled(rows[k], rows'[k])
    ensures forall j | j in rows && j != k :: rows'[j] == rows[j]
  {
  }

  /** Appends one event to a run. */
  lemma Step(s: State, es: seq<Event>, e: Event) returns (es': seq<Event>)
    requires IsRun(s, es) && Enabled(Exec(s, es), e)
    ensures es' == es + [e] && IsRun(s, es') && Exec(s, es') == Apply(Exec(s, es), e)
  {
    ExecAppend(s, es, e);
    es' := es + [e];
  }
}
