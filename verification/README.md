# Dilithion bridge, forensics and consensus core: a Dafny model

The project models the parts of the Dilithion repository that move money or decide whom to trust, and proves what
they keep over every input and every run:

- the **bridge relayer**, which watches a native chain, records deposits, mints wrapped tokens on Base and pays burns
  back (`Blocks`, `StateDb`, `Reorg`, `ScanCoverage`, `ReorgRuns`, `Backing`, `OverLimits`, `BridgeScan`, `Mint`,
  `MintRelayer`, `WrappedToken`, `MintedToken`, `Payout`, `PayoutRelayer`, `SentRows`, `Decimal`);
- the **deposit sender** and what the relayer recognises of its transactions (`Base58`, `Sorting`, `CoinSelection`,
  `DepositTx`, `DepositFlow`);
- the **chain forensics** tool: address clustering, taint flooding and miner identities (`Connectivity`, `Forest`,
  `UnionFind`, `Taint`, `MinerResolver`);
- **consensus arithmetic** and codecs: 256-bit chain work and seed attestations (`Arith`, `Bytes`, `ChainWork`,
  `Attestation`);
- the **HTTP work queue** and the threads around it (`WorkQueue`).

Protocols are state machines. Every database commit, every call to a node and every crash is an event of its own;
`Enabled` and `Apply` define one step, `IsRun` and `Exec` whole runs, and the theorems hold for all runs. Code that works
in place is a class or a method with loops: each relayer loop returns, as a ghost value, the events it went through, so
the run theorems apply to it. Calls that may fail are nondeterministic. The native chain is a tree of blocks, and a block
stands for its own hash, so equal hashes mean equal ancestors.

Outside inputs are parameters or nondeterministic choices: the node's replies, clocks and block times, SHA3-256,
Dilithium3 verification, the wallet's list of unspent outputs.

Where comments and code disagree the model follows the code: the formula in the header of the chain-work functions, the
push length in the comment of the metadata parser (24, not 25), the flood rule said to need several inputs (one is
enough), and reconciliation, said to be called once at startup (the loop calls it again every 30 turns).

## What holds, and where it stops

Several properties one would expect of the code hold only under a condition. Each such condition is proved exact, or
the failure is shown for a whole family of states.

- **Reorgs.** Whenever a reorg check has completed on the node's present chain, every pending or confirmed deposit lies
  on that chain (`ReorgSoundness`), provided no block was scanned without such a check, no scan was cut short inside a
  block and the chain-reset branch was not taken. A failed check does not stop the scan of the same iteration, and a
  scan on the new chain hides the reorg (`BlindScanExact`). The chain-reset branch marks no deposit (`ChainResetExact`).
  A process that stops inside a block leaves rows or a stale hash that mislead later checks (`CutScanExact`,
  `StaleHashExact`). Failed deposits are never marked, though they are retried (`FailedRowsExact`). `ReorgRuns` reaches
  each of these failures from empty tables. A transaction that is mined again after its row was marked is not taken up
  again (`RowsStay`).
- **The pause.** As long as no check pauses the bridge and no failed deposit lies in a replaced range, every minted
  deposit is on the node's chain once a check has completed (`BackingSoundness`). A handled reorg that does not pause
  leaves none off the chain (`UnpausedIsBacked`); where the stored hashes reach back to the fork it pauses exactly when
  one has left (`PauseExact`). A failed deposit of a replaced block is neither marked nor counted, and its later mint is
  unbacked on a bridge that never paused (`UnbackedRun`).
- **Over-limit payments.** They are set aside whatever their row was before (`RecordedStatus`) and stay out of the mint
  loop's reach in every run (`OverLimitStaysOut`), except that the refund loop marks one worth no more than the refund
  fee as failed, and failed deposits are minted later (`SmallRefundIsMinted`, `SmallRefundRun`). Since the mark does not
  look at the row, a refunded payment that is scanned again is up for a second refund (`RefundedExact`,
  `RefundedAgainRun`).
- **Scanning.** All payments on the synced chain have rows as long as no step skips a block (`ScanCompleteness`), and the
  steps that do are known exactly (`StepCompleteExact`). A handled reorg is one of them: it sets the sync state to the
  fork height itself, whose new block was as a rule never read (`ForkBlockSkipped`, `SkippedBlockRun`). So is a scan
  after a handled reorg whose sync state could not be set back (`SkippedRangeRun`), and a chain reset, which skips the
  block at the start height unless it was read before.
- **Payouts.** No burn is paid twice unless reconciliation resets a withdrawal whose send has taken or may still take
  effect (`AtMostOncePerBurn`); after any such reset a second payment is possible (`BlindResetPaysTwice`). Such a reset
  can follow a wallet history that could not be read, since the code then goes on as if the history were empty, or a
  send that takes effect late (`PaidTwiceRun`). In runs whose passes are shown every requested send no burn is paid
  twice (`ShownOncePerBurn`), and an attempt that is more than 30 minutes old is never reset, so showing the send is
  needed for recent ones only (`OldOrShownOncePerBurn`). The pass that pays rejects a withdrawal for good when the
  validation of its address fails, and a call that fails counts as such (`ProcessConfirmedWithdrawals`). A withdrawal
  marked sent was itself paid unless a twin, to the same address and in the same
  amount, was sent within the time window of the match (`SentWasPaid`, `TwinUnpaid`, `TwinRun`).
- **Mints.** No native transaction is minted twice, and the total minted never exceeds the total recorded
  (`MintSafety`). A row whose good receipt was read is minted with its own mint in the log (`ReceiptMeansPaid`); nothing but
  the scanner's mark or the one for a retired address puts a deposit up for a refund (`RefundExact`). Every row marked
  minted was itself paid, txids having 64 digits, unless the mark of a payment to a retired address was lost, by a stop
  between the two commits that record and mark it or by the refund loop (`MintedRowsArePaid`, `SharedKeyRun`). The token's own checks can stand
  in for the oracle of the pool (`BridgeSafety`).
- **Daily cap.** The contract's comment speaks of a maximum per 24-hour period. The counter starts a new period with the
  first mint after the old one ran out, so 24 hours can see twice the cap, never more (`DailyLimit`, `TwiceTheCap`). One
  cap suffices exactly when no period starts less than a day after a positive mint (`OneCapExact`, `OneCapPerDay`).
  The history of calls alone decides every mint (`AcceptedExact`).
- **Deposits.** Of several payments to the bridge in one transaction only the last is credited (`CreditedExact`). A built
  deposit is recognised with its own amount unless the bridge's address is of another network or the change goes to the
  bridge's key hash; the sender compares address strings, while the script drops the version byte (`BuiltIsDetected`,
  `VersionIsDropped`). A deposit planned from a wallet on the network has neither exception (`PlannedIsDetected`).
- **Coin selection.** Largest-first takes as few inputs as any choice that reaches the goal and gives up only when none
  does (`GreedyExact`), yet inputs worth less than the fee they add can make a payable deposit fail; the exact condition
  is `SelectionCompleteExact`. The buffer in the goal is 200 below the fee of the fixed overhead (`LastInputGap`).
- **Chain work.** The header's comment gives the work as 2^(256-8*size) / mantissa; the code computes
  (2^64-1) / mantissa shifted by 32 - size bytes, and the model follows the code. A compact form has more work than every
  one with a greater target exactly when it loses no byte (`OrderReversalExact`), which is from 0x06010000 up
  (`TruncationExact`, `TruncationReorders`).
- **HTTP server.** Every accepted connection is in exactly one place (`QueueSafety`). A stop closes all connections
  exactly when, as the queue is shut, no more are queued than workers wait for them (`StoppedExact`, `LeftOpen`), and
  since the queue is never reopened, a server that is started again refuses every new connection (`ShutIsFinal`).

## Model

| member | source | states |
|---|---|---|
| `Blocks.ForkPointSplits` | bridge/relayer/relayer.py:325-347 | an ancestor of one tip is on another chain exactly up to the height both share |
| `StateDb.RecordAllActive` | bridge/relayer/state_db.py:184-201 | a row active after a block was recorded is an unchanged old row or a new one of that block; an existing outpoint is never overwritten |
| `StateDb.RecordedStatus` | bridge/relayer/relayer.py:545-575 | after a block is recorded a row exists exactly when it did before or the block pays its key; an over-limit payment leaves it over-limit, any other leaves an old row as it was and a new one pending |
| `StateDb.RecordedContent` | bridge/relayer/relayer.py:545-575 | a new row has the amount and recipient of the block's first payment under its key, and that block |
| `StateDb.StateDB.SetSyncState` | bridge/relayer/state_db.py:171-180 | replaces the sync state and nothing else |
| `StateDb.StateDB.StoreBlockHash` | bridge/relayer/state_db.py:488-497 | stores one block hash and nothing else |
| `StateDb.StateDB.PruneBlockHashes` | bridge/relayer/state_db.py:507-516 | keeps exactly the hashes within the given distance of the greatest stored height, both ways |
| `StateDb.StateDB.InsertNew` | bridge/relayer/state_db.py:184-201 | inserts exactly when the outpoint is new |
| `StateDb.StateDB.MarkDepositsReorged` | bridge/relayer/state_db.py:336-344 | marks exactly the pending and confirmed deposits at or above the height |
| `Reorg.MarkingLeavesOnChain` | bridge/relayer/relayer.py:325-392 | marking from the height where the walkback stops leaves only deposits of the node's chain active |
| `Reorg.WalkbackExact` | bridge/relayer/relayer.py:325-347 | with the synced chain's hashes stored from the last shared block on, the walkback stops right above that block and nowhere else |
| `Reorg.MarkedExact` | bridge/relayer/relayer.py:325-392 | with such a history a handled reorg marks exactly the active deposits that left the node's chain and changes no other row |
| `Reorg.OutcomeExists` | bridge/relayer/relayer.py:279-363 | with all calls answered some outcome is always possible, unless the synced height is above the node's tip by at most 100 |
| `Reorg.OutcomeUnique` | bridge/relayer/relayer.py:279-363 | with all calls answered tables and chain determine the outcome and the fork; a reset needs a synced height more than 100 above the tip |
| `Reorg.RewindKeepsInv` | bridge/relayer/relayer.py:392-403 | moving the sync state back to the fork point keeps the invariant |
| `Reorg.CheckKeepsInv` | bridge/relayer/relayer.py:279-403 | every outcome of the check but the chain reset keeps the invariant, and a completed check leaves all active deposits on the node's chain |
| `Reorg.ScanKeepsInv` | bridge/relayer/relayer.py:445-469 | scanning the next block of the node's chain keeps the invariant |
| `Reorg.StepKeepsInv` | bridge/relayer/relayer.py:165-240 | every event of a careful run keeps the invariant, new tips, crashes and pruning included |
| `Reorg.ReorgSoundness` | bridge/relayer/relayer.py:279-472 | in every careful run, once a check has completed on the present chain all pending and confirmed deposits are on it |
| `Reorg.OnChainExactlyBelowFork` | bridge/relayer/relayer.py:309-347 | all active deposits are on the node's chain exactly when none lies above the fork point |
| `Reorg.BlindScanExact` | bridge/relayer/relayer.py:165-240 | after a scan without a completed check the next check is clean, and it is right exactly when no deposit active after the scan lay above the fork point |
| `ReorgRuns.BlindScanRun` | bridge/relayer/relayer.py:165-240 | a run from empty tables: the check fails once, the scan of the same iteration does not, and a deposit of a replaced block survives a clean check |
| `Reorg.ChainResetExact` | bridge/relayer/relayer.py:295-307 | the chain-reset branch leaves the next check clean, right exactly when no active deposit lies above the fork point |
| `Reorg.CutScanExact` | bridge/relayer/relayer.py:445-469 | rows of a half-scanned block survive a clean check; it is right exactly when that block stayed or has no active row |
| `Reorg.StaleHashExact` | bridge/relayer/relayer.py:445-469 | after a stop between sync state and hash, one more block and a return to the other chain, the check takes the stale hash for the fork point; all active deposits are then on the chain exactly when none lies above the real fork point |
| `Reorg.FailedRowsExact` | bridge/relayer/state_db.py:336-344 | after a handled reorg every deposit that may still be minted is on the node's chain exactly when every failed one, which the mint loop retries, already was |
| `Reorg.ForkBlockSkipped` | bridge/relayer/relayer.py:399-403 | after a handled reorg, as long as the chain only grows, every scan, cut short or not, reads above the fork height |
| `Reorg.RowsStay` | bridge/relayer/state_db.py:184-201 | in every run a row keeps its block, amount and recipient, and an inactive row never becomes active again, not even when its transaction is mined again |
| `Reorg.ScannedHaveRows` | bridge/relayer/relayer.py:445-469 | every payment that a scan step of a run has recorded has a row at the end of the run |
| `ScanCoverage.HandledExact` | bridge/relayer/relayer.py:392-403 | setting the sync state back to the fork keeps every block of the synced chain read exactly when the fork is below the start height or the new block at the fork was read before |
| `ScanCoverage.ResetExact` | bridge/relayer/relayer.py:295-307 | the chain reset keeps it exactly when the node has a block at the start height and it was read before |
| `ScanCoverage.NextCovered` | bridge/relayer/relayer.py:422-469 | a scanned block and its ancestors are all read exactly when the node's blocks between the height shared with the synced chain and the scanned one were |
| `ScanCoverage.StepCompleteExact` | bridge/relayer/relayer.py:279-472 | of all steps exactly those that skip a block break the coverage of the synced chain and of the stored hashes |
| `ScanCoverage.AllBlocksRead` | bridge/relayer/relayer.py:407-472 | in every run without such a step all blocks of the synced chain from the start height on were read |
| `ScanCoverage.FirstReadIsStart` | bridge/relayer/relayer.py:422-431 | the first block that a run from empty tables reads is the one at the start height |
| `ScanCoverage.ScanAdvances` | bridge/relayer/relayer.py:428-446 | a scan goes on right above the synced block, or at the start height when that block is 100 or more above the node's tip, and is possible exactly when the node has that block and the bridge is not paused |
| `ScanCoverage.ScanCompleteness` | bridge/relayer/relayer.py:407-472 | in every such run each payment in each block of the synced chain from the start height on has a row |
| `ReorgRuns.SkippedBlockRun` | bridge/relayer/relayer.py:398-403 | a run from empty tables, without any fault, that ends synced on the new chain whose block at the fork was never read |
| `ReorgRuns.SkippedRangeRun` | bridge/relayer/relayer.py:398-403 | a run from empty tables in which one failed hash call leaves a whole range of the new chain unread |
| `ReorgRuns.CutScanRun` | bridge/relayer/relayer.py:445-469 | a run from empty tables in which a deposit of a half-scanned block survives a clean check off the chain |
| `ReorgRuns.FailedRowRun` | bridge/relayer/state_db.py:336-344 | a run from empty tables after which a failed deposit of a replaced block is left for the mint loop |
| `ReorgRuns.StaleHashRun` | bridge/relayer/relayer.py:325-347 | a run from empty tables in which the stale hash of an earlier chain keeps a deposit of a replaced block active through a handled reorg |
| `ReorgRuns.ChainResetRun` | bridge/relayer/relayer.py:295-307 | a run from empty tables in which the chain-reset branch and a clean check leave a deposit of the old chain active |
| `Backing.UnpausedIsBacked` | bridge/relayer/relayer.py:365-392 | a handled reorg that does not pause the bridge leaves every minted deposit on the node's chain, and every deposit that was or still may be minted exactly when all failed ones are on it |
| `Backing.PauseExact` | bridge/relayer/relayer.py:365-390 | where the stored hashes reach back to the last shared block, a handled reorg pauses the bridge exactly when a minted deposit left the chain |
| `Backing.PauseCauses` | bridge/relayer/relayer.py:354-390 | a reorg without a match in 100 blocks always pauses; on tables without minted deposits nothing else does |
| `Backing.PausedMintsNothing` | bridge/relayer/relayer.py:187-209 | until a restart a paused bridge changes no deposit that was or may be minted and reads no block |
| `Backing.StepKeepsLive` | bridge/relayer/relayer.py:279-472 | every event of a careful run that neither pauses nor replaces a failed deposit keeps the invariant of active deposits extended to failed and minted ones |
| `Backing.BackingSoundness` | bridge/relayer/relayer.py:365-390 | in every such run, once a check has completed on the present chain, every minted deposit is on it |
| `Backing.PausedRun` | bridge/relayer/relayer.py:365-390 | a run from empty tables whose reorg replaces a minted deposit and pauses the bridge |
| `Backing.UnbackedRun` | bridge/relayer/state_db.py:336-344 | a run from empty tables in which a failed deposit of a replaced block is minted on a bridge that never paused |
| `OverLimits.OverLimitStaysOut` | bridge/relayer/relayer.py:545-569 | in every run a payment recorded as over the limit and worth more than the refund fee is never pending, confirmed, failed or minted again |
| `OverLimits.SmallRefundIsMinted` | bridge/relayer/relayer.py:792-799 | from any state an over-limit deposit worth no more than the fee can be marked failed and then minted |
| `OverLimits.SmallRefundRun` | bridge/relayer/relayer.py:792-799 | a run from empty tables that mints an over-limit payment within the refund fee |
| `OverLimits.RefundedExact` | bridge/relayer/relayer.py:557-569 | a refunded deposit stays refunded exactly until a scan records an over-limit payment under its key |
| `OverLimits.RefundedAgainRun` | bridge/relayer/relayer.py:557-569 | a run from empty tables in which a refunded payment is mined again after a reorg and is up for a second refund |
| `BridgeScan.BridgeRelayer.WalkBack` | bridge/relayer/relayer.py:325-363 | the loop stops one above the highest matching stored hash, or finds that none of the last 100 heights matches |
| `BridgeScan.BridgeRelayer.CheckReorgs` | bridge/relayer/relayer.py:279-403 | the check ends in exactly the outcome, database and pause flag of the machine's check event |
| `BridgeScan.BridgeRelayer.ScanOneBlock` | bridge/relayer/relayer.py:545-581 | one block's payments are recorded, over-limit ones set aside, then sync state and hash advance |
| `BridgeScan.BridgeRelayer.ScanDeposits` | bridge/relayer/relayer.py:407-472 | the scan loop is a run of scan and prune events, cut short at a failed call |
| `BridgeScan.BridgeRelayer.Poll` | bridge/relayer/relayer.py:165-240 | one iteration is a run; if its check completed, all active deposits are on the node's chain afterwards |
| `WrappedToken.WrappedDil.ResetDailyMint` | bridge/contracts/WrappedDIL.sol:106-111 | starts a new period exactly when a day has passed since the last start |
| `WrappedToken.WrappedDil.MintTo` | bridge/contracts/WrappedDIL.sol:56-72 | succeeds exactly when all checks pass; a rejected call changes nothing |
| `WrappedToken.WrappedDil.SetDailyMintCap` | bridge/contracts/WrappedDIL.sol:96-99 | replaces the cap and leaves the counters |
| `WrappedToken.LastDayBounded` | bridge/contracts/WrappedDIL.sol:106-111 | a day that reaches back past the present period reaches into the preceding one only, so it issues at most twice the cap |
| `WrappedToken.FillPeriod` | bridge/contracts/WrappedDIL.sol:56-72 | any amount up to what the cap leaves can be minted at one time, whatever the per-deposit limit |
| `WrappedToken.MintKeepsInv` | bridge/contracts/WrappedDIL.sol:56-72 | a mint keeps periods within the cap, keys distinct and flagged, and every day within twice the cap |
| `WrappedToken.AcceptedExact` | bridge/contracts/WrappedDIL.sol:56-65 | after any calls a mint goes through exactly when the contract was not last paused, its key was never issued, and it is within the limit last set and, with its period's issues, the cap last set |
| `WrappedToken.IssuesInForce` | bridge/contracts/WrappedDIL.sol:56-62 | in every run each issue was made by a call within the per-deposit limit then in force and not while paused |
| `WrappedToken.DailyLimit` | bridge/contracts/WrappedDIL.sol:56-111 | in every run of calls no key is minted twice, each period stays within the greatest cap in force and any mints under 24 hours apart within twice that |
| `WrappedToken.TwiceTheCap` | bridge/contracts/WrappedDIL.sol:64-65 | for every cap and every positive per-deposit limit, a full cap before a period ends and another less than 24 hours later, after it has ended, can be minted |
| `WrappedToken.OneCapExact` | bridge/contracts/WrappedDIL.sol:32-33 | whatever is minted at a time, in however many calls, 24 hours stay within one cap if and only if no period starts then less than a day after a positive mint; for every positive per-deposit limit |
| `WrappedToken.OneCapPerDay` | bridge/contracts/WrappedDIL.sol:32-33 | in every run whose resets come a day after the last positive mint, no 24 hours issue more than the greatest cap in force |
| `Mint.StepKeepsContract` | bridge/contracts/WrappedDIL.sol:56-72 | whatever the pool mines, mint events have distinct keys, their keys are flagged and every flag has its event |
| `Mint.StepKeepsRows` | bridge/relayer/relayer.py:966-1054 | every submitted mint stays backed by a recorded row and every minted row has its flag |
| `Mint.ReplayKeyDigits` | bridge/relayer/relayer.py:987-990 | the replay key is the txid's first 64 digits, with zeros where it ends early |
| `Mint.IssuedAtMostRecorded` | bridge/relayer/relayer.py:966-1054 | mints with distinct keys, each backed by a row, total at most what is recorded |
| `Mint.MintSafety` | bridge/relayer/relayer.py:966-1054 | in every run no native transaction is minted twice, each mint has a recorded deposit's amount and recipient, minted rows are flagged, and issued is at most recorded |
| `MintedToken.BridgeSafety` | bridge/contracts/WrappedDIL.sol:56-111 | with the contract's own checks deciding every mined transaction, no native transaction is minted twice, all mints together are at most what was recorded, and those under 24 hours apart at most twice the cap |
| `Mint.MintedRowWasPaid` | bridge/relayer/relayer.py:992-1001 | a row marked minted was itself paid in full unless another row shares its replay key with a different amount or recipient |
| `Mint.MintingSettles` | bridge/relayer/relayer.py:966-1054 | the mint loop changes the row in hand alone, and only to failed or minted |
| `Mint.ReleasedExact` | bridge/relayer/relayer.py:994-1050 | the loop lets go of a row it did not skip as minted exactly on the contract's flag or a good receipt, and as failed otherwise |
| `Mint.RefundExact` | bridge/relayer/relayer.py:545-681 | a deposit comes up for a refund or for approval exactly by the scanner's over-limit mark or the mark for a retired address |
| `Mint.UnmarkedIsNotRefunded` | bridge/relayer/relayer.py:756-830 | in every run without such a mark on it, a deposit is not paid back |
| `Mint.ReceiptMeansPaid` | bridge/relayer/relayer.py:1028-1033 | in every run, a row whose good receipt was read is minted and its own amount to its own recipient is in the contract's log |
| `Mint.StepKeepsWhole` | bridge/relayer/relayer.py:583-681 | each step that loses no mark of a payment to a retired address keeps such rows out of the mint loop and one row per transaction in it |
| `Mint.MintedRowsArePaid` | bridge/relayer/relayer.py:966-1054 | in every run that loses no such mark, every row marked minted was itself paid in full to its own recipient |
| `Mint.SharedKeyUnpaid` | bridge/relayer/relayer.py:987-1001 | of two confirmed rows with one replay key and different mints, the second can be marked minted without being paid |
| `Mint.SharedKeyRun` | bridge/relayer/relayer.py:661-681 | a run from empty tables: one transaction pays the bridge and a retired address, the process stops before it marks the second row, and that row is marked minted without being paid |
| `MintRelayer.MintLoop.Select` | bridge/relayer/state_db.py:312-334 | exactly the confirmed rows and the failed rows that are due by error, count and cooldown are picked, each once |
| `MintRelayer.RetryExact` | bridge/relayer/state_db.py:312-334 | a reverted mint is due an hour later and ever after, any other failure five minutes later unless it was the third, which is never due |
| `MintRelayer.MintLoop.MarkFailed` | bridge/relayer/state_db.py:303-310 | marks the row failed, counts the failure and dates it |
| `MintRelayer.MintLoop.MintOne` | bridge/relayer/relayer.py:1013-1050 | one submission is a run of the machine, whatever the chain does meanwhile and wherever an exception falls, and leaves at most its own row failed or minted |
| `MintRelayer.MintLoop.ProcessConfirmedDeposits` | bridge/relayer/relayer.py:966-1054 | the whole loop is a run of the machine; rows neither confirmed nor due are unchanged, the others unchanged, failed or minted with the contract's flag set; a dry run, a missing key or a missing contract submits nothing |
| `Decimal.JoinInjective` | bridge/relayer/state_db.py:388-403 | an attempt id written as two decimals joined by an underscore determines both numbers |
| `Payout.ShownIsNotReset` | bridge/relayer/relayer.py:1213-1338 | a send that the node shows is marked sent, never reset |
| `Payout.DecisionExact` | bridge/relayer/relayer.py:1213-1338 | a stuck withdrawal is marked sent exactly when its send is found, otherwise left for review exactly when its attempt is timed and old, otherwise taken back with its retry counted |
| `Payout.OldSendsIgnored` | bridge/relayer/relayer.py:1276-1292 | wallet entries from more than five minutes before the attempt never count as its send |
| `Payout.StepKeepsRow` | bridge/relayer/state_db.py:388-459 | each step keeps the accounting of one withdrawal's send requests against its retry count |
| `Payout.StepKeepsBurns` | bridge/relayer/state_db.py:348-365 | no two withdrawals ever have the same burn event |
| `Payout.StepKeepsClaims` | bridge/relayer/state_db.py:388-403 | no attempt id serves two successful compare-and-sets |
| `Payout.PayoutAccounting` | bridge/relayer/relayer.py:1127-1338 | in every run sends are at most retries plus one, at most retries while a withdrawal waits, and attempt ids are distinct |
| `Payout.SendsAreOwn` | bridge/relayer/relayer.py:1191-1194 | in every run each send that took effect went to the address and in the amount of its own withdrawal, which never change |
| `Payout.TerminalStays` | bridge/relayer/state_db.py:422-459 | once sent or failed, a withdrawal never changes again in any continuation |
| `Payout.AnsweredIsFinal` | bridge/relayer/relayer.py:1191-1199 | a send that was answered and recorded was paid, and its withdrawal stays sent with that txid in every continuation |
| `Payout.RejectedIsUnsent` | bridge/relayer/relayer.py:1151-1172 | a withdrawal that a pass rejects had no send requested in that pass |
| `Payout.VisibleSendIsNotBlind` | bridge/relayer/relayer.py:1213-1338 | a pass to which the node shows every requested send resets nothing blindly |
| `Payout.StepKeepsOnce` | bridge/relayer/relayer.py:1127-1338 | every step but a blind reset keeps the at-most-one-request invariant |
| `Payout.AtMostOncePerBurn` | bridge/relayer/relayer.py:1127-1338 | in every run without a blind reset each burn is paid at most once, through crashes, lost replies and late effects |
| `Payout.ShownOncePerBurn` | bridge/relayer/relayer.py:1213-1338 | in every run in which each reconciliation is shown every requested send, no burn is paid twice |
| `Payout.OnlyRecentIsReset` | bridge/relayer/relayer.py:1305-1338 | a resolution takes a withdrawal back for another attempt only while its last attempt is recent and no send of it is found |
| `Payout.OldOrShownOncePerBurn` | bridge/relayer/relayer.py:1213-1338 | in every run in which each reconciliation of a requested send is shown that send or finds the attempt old, no burn is paid twice |
| `Payout.BlindResetPaysTwice` | bridge/relayer/relayer.py:1299-1338 | after any blind reset some continuation pays the burn a second time |
| `Payout.PaidTwiceRun` | bridge/relayer/relayer.py:1213-1338 | a run from empty tables that pays one burn twice after a wallet history that could not be read |
| `SentRows.StepKeepsSent` | bridge/relayer/relayer.py:1259-1298 | each step keeps: a recorded txid means a send, a row marked sent means its own send or one like it within its time window |
| `SentRows.SentWasPaid` | bridge/relayer/relayer.py:1259-1298 | with a genuine wallet history, a withdrawal marked sent was itself paid unless another one to the same address in the same amount was sent within its time window |
| `SentRows.TwinUnpaid` | bridge/relayer/relayer.py:1262-1293 | a withdrawal that was never paid can be marked sent on the history entry of any twin sent within its time window |
| `SentRows.TwinRun` | bridge/relayer/relayer.py:1139-1298 | a run from empty tables: of two equal withdrawals in one pass the first is sent and answered, the second never reaches the node and is marked sent |
| `PayoutRelayer.PayoutLoops.MarkSending` | bridge/relayer/state_db.py:388-403 | the compare-and-set succeeds exactly on a confirmed row |
| `PayoutRelayer.PayoutLoops.PayOne` | bridge/relayer/relayer.py:1174-1211 | one claim, send and the commits after it are a run of the machine and touch one row |
| `PayoutRelayer.PayoutLoops.ProcessConfirmedWithdrawals` | bridge/relayer/relayer.py:1127-1211 | the send loop is a run without resolutions; a confirmed withdrawal fails exactly when the node does not vouch for its address, a failed call included, or it is below the dust limit, and is then not sent; all others are on their way or sent; rows that were not confirmed are unchanged |
| `PayoutRelayer.PayoutLoops.MatchHistory` | bridge/relayer/relayer.py:1259-1303 | returns the first wallet entry that matches address, amount and time |
| `PayoutRelayer.PayoutLoops.ReconcileIncompleteSends` | bridge/relayer/relayer.py:1213-1338 | every row in sending is marked sent if its send is found, left if its attempt is old, and taken back otherwise; all others are unchanged |
| `Base58.ConvertInverts` | bridge/relayer/send_bridge_deposit.py:21-37 | rewriting digits in another base with leading zeros kept is undone by the conversion back, for any two bases |
| `Base58.IndexExact` | bridge/relayer/send_bridge_deposit.py:19-25 | a character has index d exactly when the alphabet has it at d |
| `Base58.DecodeOfEncode` | bridge/relayer/send_bridge_deposit.py:21-37 | decoding the encoding of any bytes gives the bytes back |
| `Base58.EncodeOfDecode` | bridge/relayer/send_bridge_deposit.py:21-37 | encoding what a string decodes to gives the string back, so decoding is injective |
| `Base58.ReadNumber` | bridge/relayer/send_bridge_deposit.py:23-25 | the folding loop fails exactly on a character outside the alphabet |
| `Base58.LowBytes` | bridge/relayer/send_bridge_deposit.py:26-30 | the byte loop yields the number's base-256 digits in reverse |
| `Base58.Base58Decode` | bridge/relayer/send_bridge_deposit.py:21-37 | the loops compute the decoding |
| `Base58.CheckedAddressExact` | bridge/relayer/send_bridge_deposit.py:39-47 | exactly one string is accepted for a payload: its encoding with the first four bytes of its double hash |
| `CoinSelection.SortedLargestFirst` | bridge/relayer/send_bridge_deposit.py:192 | sorting puts larger amounts first and keeps the multiset of outputs |
| `CoinSelection.SortedIsStable` | bridge/relayer/send_bridge_deposit.py:192 | outputs of equal amount keep their order |
| `CoinSelection.TakeInputs` | bridge/relayer/send_bridge_deposit.py:199-207 | the loop takes inputs up to the first sum that meets the goal, or the limit |
| `CoinSelection.PlanFrom` | bridge/relayer/send_bridge_deposit.py:195-234 | goal, fee, funds check and change of a plan |
| `CoinSelection.SelectInputs` | bridge/relayer/send_bridge_deposit.py:183-234 | the whole selection on the candidates without the bridge's own outputs; a plan conserves value and spends distinct outputs of the wallet only |
| `CoinSelection.PlanConserves` | bridge/relayer/send_bridge_deposit.py:209-234 | inputs equal deposit, marker output, fee and change; change is not negative; inputs are distinct outputs of the wallet, none of the bridge |
| `CoinSelection.TopIsBest` | bridge/relayer/send_bridge_deposit.py:192-207 | no choice of as many outputs is worth more than the first ones |
| `CoinSelection.GreedyExact` | bridge/relayer/send_bridge_deposit.py:199-207 | any choice of permitted size that reaches the goal has at least as many outputs as the loop takes, and then the loop reaches the goal too |
| `CoinSelection.FundableExact` | bridge/relayer/send_bridge_deposit.py:192-216 | some choice within the limit pays for itself exactly when some prefix of the sorted outputs does |
| `CoinSelection.EarlyStopPays` | bridge/relayer/send_bridge_deposit.py:195-216 | meeting the goal before the limit always passes the funds check |
| `CoinSelection.LastInputGap` | bridge/relayer/send_bridge_deposit.py:195-216 | with the last permitted input the plan succeeds exactly when the goal is exceeded by 200 |
| `CoinSelection.SelectionCompleteExact` | bridge/relayer/send_bridge_deposit.py:195-220 | every fundable deposit is planned exactly when no smaller number of inputs leaves more than all permitted ones |
| `CoinSelection.DustExample` | bridge/relayer/send_bridge_deposit.py:195-220 | a concrete deposit that one input can pay and that two inputs make fail |
| `CoinSelection.WorthwhileInputsSuffice` | bridge/relayer/send_bridge_deposit.py:209-214 | inputs worth at least their fee never lower the surplus |
| `DepositTx.CompactReads` | bridge/relayer/send_bridge_deposit.py:52-60 | every compact size is read back exactly, whatever follows |
| `DepositTx.TxReads` | bridge/relayer/send_bridge_deposit.py:83-146 | every transaction within the field widths is read back exactly, whatever follows |
| `DepositTx.TxPrefixFree` | bridge/relayer/send_bridge_deposit.py:83-146 | no serialisation is a proper prefix of another, and equal bytes mean equal transactions |
| `DepositTx.AppendInputs` | bridge/relayer/send_bridge_deposit.py:105-114 | the input loop writes all inputs or fails on an index out of range |
| `DepositTx.BuildRawTransaction` | bridge/relayer/send_bridge_deposit.py:83-146 | writes exactly the serialisation of the deposit, or fails exactly when the request cannot be written |
| `DepositTx.DepositLayout` | bridge/relayer/send_bridge_deposit.py:63-146 | version, sequence, lock time and the opcodes of the three scripts of a built deposit |
| `DepositTx.OpReturnExact` | bridge/relayer/relayer.py:687-732 | the parser returns an address for exactly one script, and never the zero address |
| `DepositTx.CheckTxForDeposit` | bridge/relayer/relayer.py:482-539 | the two passes find the last output the node names as the bridge and the first metadata that parses |
| `DepositTx.DetectedByPosition` | bridge/relayer/relayer.py:495-539 | the last payment to the bridge is credited to the address in the first metadata that parses |
| `DepositTx.BuiltIsDetected` | bridge/relayer/send_bridge_deposit.py:83-146 | a built deposit is read back whole and credited with its amount and address, except that a bridge address of another network is never seen and a change to the bridge's key hash is taken for the payment |
| `DepositFlow.PlannedIsDetected` | bridge/relayer/send_bridge_deposit.py:183-260 | every deposit planned from a wallet on the network and built is read back whole and credited with its own amount and recipient |
| `DepositFlow.PlannedBalances` | bridge/relayer/send_bridge_deposit.py:209-260 | a planned and built deposit spends exactly the selected outputs in their order, its outputs and the fee equal their worth, and the change goes to the first one's address |
| `DepositTx.CreditedExact` | bridge/relayer/relayer.py:495-515 | the detected amount never exceeds what was paid and equals it exactly when every earlier payment to the bridge is zero |
| `DepositTx.SecondPaymentOnly` | bridge/relayer/relayer.py:495-515 | a transaction paying the bridge 5 and 7, with metadata, is detected as 7 |
| `DepositTx.VersionIsDropped` | bridge/relayer/send_bridge_deposit.py:120-122 | addresses that differ only in the version byte are different strings with the same script |
| `UnionFind.UnionFind.Find` | scripts/chain_forensics.py:118-124 | returns the representative, adds an unknown name as its own, changes no other root |
| `UnionFind.UnionFind.Compress` | scripts/chain_forensics.py:121-124 | path compression changes links but no representative |
| `UnionFind.UnionFind.Union` | scripts/chain_forensics.py:126-134 | keeps the forest valid with the pair added to the unions made |
| `UnionFind.UnionFind.GetCluster` | scripts/chain_forensics.py:136-139 | returns exactly the names connected to the argument by the unions made |
| `UnionFind.UnionFind.AllClusters` | scripts/chain_forensics.py:141-146 | the clusters are the partition of all names by connectedness |
| `UnionFind.UnionFind.LogarithmicDepth` | scripts/chain_forensics.py:126-134 | two to the depth of any name is at most the number of names |
| `UnionFind.GraftBushy` | scripts/chain_forensics.py:130-134 | a tree whose root has rank k keeps at least 2^k members |
| `Forest.GraftForest` | scripts/chain_forensics.py:126-134 | hanging one root under another keeps the forest well-formed and merges exactly the two clusters |
| `Taint.Flood` | scripts/chain_forensics.py:460-493 | the loop ends in the least set that contains the start and is closed under both rules, and whitelisted addresses never enter |
| `Taint.FixedPointIgnoresOrder` | scripts/chain_forensics.py:460-493 | the result depends only on which transactions there are |
| `Taint.ExpandSeeds` | scripts/chain_forensics.py:442-457 | the start is the seeds and all non-whitelisted names connected to one |
| `Taint.CrossReference` | scripts/chain_forensics.py:495-508 | the identity pass adds exactly the listed names that are neither whitelisted nor tainted and share a non-empty key with a tainted one |
| `Taint.TagsAreSound` | scripts/chain_forensics.py:428-524 | confirmed are exactly the tainted and the blacklisted that are not whitelisted; whitelisted names that are no seed stay legitimate |
| `Taint.Detect` | scripts/chain_forensics.py:428-524 | the whole detection: start set, least fixed point, then exactly the listed, non-whitelisted names that share a non-empty key with the fixed point, none if it has no key; tags |
| `Taint.BuildPrefund` | scripts/chain_forensics.py:659-701 | each tagged address with a positive balance is listed once, on the list its tag calls for, and both lists fall in balance |
| `MinerResolver.MikForest.Find` | scripts/chain_forensics.py:804-810 | returns the representative by path halving, adds an unknown key as its own, changes no other root |
| `MinerResolver.MikForest.Union` | scripts/chain_forensics.py:812-815 | linking without ranks keeps the forest valid with the pair added, for known and unknown keys |
| `MinerResolver.ConnectedIsLinked` | scripts/chain_forensics.py:817-826 | the unions connect two keys exactly when a chain of shared payout addresses links them |
| `MinerResolver.LinkKeys` | scripts/chain_forensics.py:817-826 | the pass records every use of an address by a key |
| `MinerResolver.OperatorIsTally` | scripts/chain_forensics.py:828-840 | an operator is the tally of all rows with its keys |
| `MinerResolver.OperatorsDisjoint` | scripts/chain_forensics.py:828-840 | no payout address belongs to two operators |
| `MinerResolver.Resolve` | scripts/chain_forensics.py:784-842 | a key is in some operator exactly when it is non-empty and listed; same operator exactly when linked; each operator tallies the rows of its keys; blocks add up to all blocks |
| `ChainWork.ComputeChainWork` | src/consensus/chain_work.h:36-59 | the bytes written have the value of the truncated, shifted quotient |
| `ChainWork.TruncationExact` | src/consensus/chain_work.h:54-57 | nothing is lost exactly when the quotient fits the bytes above its position |
| `ChainWork.LargeSizesExact` | src/consensus/chain_work.h:54-57 | sizes from 8 up lose nothing |
| `ChainWork.WorkBracketsTarget` | src/consensus/chain_work.h:36-59 | work times target is below 2^296, and one more unit in the last place of the work reaches it |
| `ChainWork.WorkReversesTargets` | src/consensus/chain_work.h:36-59 | for canonical forms that lose no byte, more work exactly when the target is smaller, across all sizes |
| `ChainWork.OrderReversalExact` | src/consensus/chain_work.h:36-59 | a canonical form has more work than every one with a greater target if and only if it loses no byte, which holds exactly from the target of 0x06010000 up |
| `ChainWork.TruncationReorders` | src/consensus/chain_work.h:54-57 | a concrete pair whose smaller target has less work |
| `ChainWork.AddDigits` | src/consensus/chain_work.h:64-73 | digits and carry stand for the exact sum |
| `ChainWork.AddChainWork` | src/consensus/chain_work.h:64-78 | addition that saturates at 2^256 - 1 |
| `ChainWork.ChainWorkGreaterOrEqual` | src/consensus/chain_work.h:81-88 | the byte-wise comparison is the numeric one |
| `ChainWork.TotalChainWork` | src/consensus/chain_work.h:64-78 | folding a chain's work gives the exact sum, cut once at the maximum |
| `ChainWork.GroupingIrrelevant` | src/consensus/chain_work.h:64-78 | the folded work does not depend on grouping and never falls on extension |
| `ChainWork.SaturationKeepsOrder` | src/consensus/chain_work.h:64-88 | saturation never turns a comparison of chains round; it only ties chains that both reach the maximum |
| `Attestation.PreimageInjective` | src/attestation/seed_attestation.cpp:201-235 | the signed bytes determine key, hash, timestamp and seed, for keys of any length |
| `Attestation.VerifyAttestationSet` | src/attestation/seed_attestation.cpp:265-321 | accepts exactly when three distinct seeds have a fresh, correctly signed entry |
| `Attestation.AcceptedExact` | src/attestation/seed_attestation.cpp:238-321 | accepted if and only if three entries from three different seeds, at most an hour before the block and not after it, carry full-size signatures on this key and hash that verify under those seeds' keys |
| `Attestation.AcceptanceMonotone` | src/attestation/seed_attestation.cpp:265-321 | further entries never turn acceptance into rejection |
| `Attestation.AcceptanceIgnoresOrder` | src/attestation/seed_attestation.cpp:276-309 | order and repetition of entries do not matter |
| `Attestation.QuorumsIntersect` | src/attestation/seed_attestation.h:49-53 | any two accepted sets have two seeds in common |
| `Attestation.EntryBindsClaim` | src/attestation/seed_attestation.cpp:238-263 | with binding signatures an entry is good for one miner key and one hash only |
| `Attestation.SetBindsClaim` | src/attestation/seed_attestation.cpp:265-321 | an accepted set with one entry per seed is accepted for one miner key and one hash only |
| `Attestation.BuildAttestationScriptData` | src/attestation/seed_attestation.cpp:327-358 | succeeds exactly for 1 to 255 valid entries and then appends header and entries |
| `Attestation.ParseAttestationScriptData` | src/attestation/seed_attestation.cpp:360-401 | the offset loop computes the parse within bounds; failure leaves nothing consumed |
| `Attestation.ParseOfBuilt` | src/attestation/seed_attestation.cpp:327-401 | parsing built data followed by anything gives the entries and consumes exactly their bytes |
| `Attestation.BuiltOfParse` | src/attestation/seed_attestation.cpp:360-401 | whatever parses is the serialisation of what was parsed |
| `WorkQueue.HttpWorkQueue.Enqueue` | src/api/http_server.h:46-54 | appends exactly when open and below the maximum depth |
| `WorkQueue.HttpWorkQueue.Dequeue` | src/api/http_server.h:60-73 | takes the oldest item; on an empty queue the caller blocks while it is open and is turned away once it is shut |
| `WorkQueue.HttpWorkQueue.Shutdown` | src/api/http_server.h:78-82 | closes the queue and keeps its items |
| `WorkQueue.StepMoves` | src/api/http_server.cpp:191-245 | no step of any thread loses or duplicates a connection |
| `WorkQueue.StepKeepsFifo` | src/api/http_server.h:46-73 | each step keeps the queue bounded and first in, first out, in the order of acceptance |
| `WorkQueue.QueueSafety` | src/api/http_server.cpp:149-245 | in every interleaving each accepted connection is held, queued, handled or closed exactly once, and the queue is a bounded first-in-first-out buffer |
| `WorkQueue.ShutIsFinal` | src/api/http_server.h:46-82 | after a shutdown nothing is queued again, a later start included |
| `WorkQueue.StopLeaves` | src/api/http_server.cpp:149-245 | from the moment the queue is shut, whatever the threads do, the number of connections left queued is the excess of the queue over the waiting workers |
| `WorkQueue.StoppedExact` | src/api/http_server.cpp:149-188 | a stop closes every connection exactly when, at the moment the queue is shut, no more are queued than workers wait for them; it leaves open the excess |
| `WorkQueue.LeftOpen` | src/api/http_server.cpp:225-245 | a concrete run whose stop leaves a connection open |
| `WorkQueue.HttpServer.QueueOrRefuse` | src/api/http_server.cpp:206-219 | the accept thread's use of the queue is a run of the machine: a connection is queued, or refused and closed |
| `WorkQueue.HttpServer.WorkerTurn` | src/api/http_server.cpp:225-245 | a worker's turn is a run of the machine: it waits, leaves, or handles and closes one connection |
| `WorkQueue.HttpServer.BeginStop` | src/api/http_server.cpp:149-161 | lowering the flag and shutting the queue is a run of the machine and fixes what the stop leaves open |

## Left out

- The sends of refunds and their reconciliation: the refund loop appears by its status updates; and the approval by hand of payments to retired addresses, whose two commits `Mint` models.
- The second native chain: its rows are independent of the first chain's, and the model has one chain.
- Burn scanning and confirmation counting: they appear as the events that insert and confirm a withdrawal or deposit.
- The daily-mint counter in the relayer's own database, which only reports.
- Operator edits of the database and the manual mint script.
- Transfers, allowances and balances of the wrapped token: they come from a library that is not part of the repository.
- Parsing of the stored local time of a send attempt: its age is a parameter of reconciliation.
- Floating-point amounts, hex and JSON: amounts are integers of the smallest unit, scripts and txids are bytes or strings.
- WorkQueue: the calls that start and stop the server come one after the other, from one thread.
- WorkQueue.HttpWorkQueue.Dequeue: that a blocked thread is woken is not modelled; it may take its next step at any time the wait allows.
- SentRows.SentWasPaid: takes the wallet history to list only sends made for withdrawals; sends made by hand are not modelled.
- Taint.BuildPrefund: the reason texts and the totals of the metadata are not modelled.
- Dilithium3 signatures and SHA3-256: uninterpreted parameters.
- Seed keys, key files and the RPC that hands out attestations.
- Block scanning, enrichment and report writing of the forensics tool: they produce the inputs of the modelled passes.
- The rest of the node: validation, wallet, networking, mining and storage.
