# Verified model of alethia-reth's execution core

This project models the logic that decides what a Taiko block is and what is reported about it, and
proves what that logic promises for every input and every run.

- **zk gas metering** (`ZkGasMeter`, `ZkGasPaths`): a checked 64-bit meter, driven either by the
  production interpreter loop or by inspector callbacks with one pending step per call depth. Both
  are measured against the exact charges of the call tree they execute.
- **Block execution** (`BlockExecution`, `BlockExecutor`, `ExecutorRuns`, `MeteredBlocks`,
  `ProverFilter`): a value-level meaning of executing transactions, the executor class that refines
  it, the ledger of any interleaving of its operations, whole blocks of call trees metered along
  either path, prover-mode filtering, strict import, and their agreement. The strict loop itself is
  the block executor library's default; the repository supplies its two steps. The EVM is a
  deterministic function from state and transaction to charges and an outcome; it does not look at
  the header difficulty and never uses more gas than the limit.
- **Transaction selection** (`DaLimits`, `OverflowMemory`, `TxSelection`, `SelectionRun`,
  `SelectionCalls`): list packing, adaptive calibration of compressed sizes, the memory of overflowing
  transactions keyed by a state digest, one candidate, the whole loop told by its log, and sequences
  of calls that share the memory. Compression is an unknown length function.
- **Fees** (`FeeHandler`): deduct, reimburse and reward, with treasury sharing and anchor exemption.
- **Base fee and header chain** (`BaseFee`, `HeaderChain`): the arithmetic of EIP-4396 (its
  Specification section) and invariants along every accepted chain.
- **Trace formatting** (`TraceArena`, `TraceTree`, `TraceBuild`, `TraceFlatten`, `TracePartition`,
  `TraceIds`, `TraceLogs`, `TraceBlock`, `FormattedEvents`, `OutputIds`, `GethErrors`,
  `SidecarFormat`): a worklist that accepts exactly the arenas that are trees, a recursive projection,
  a post-order flattening into four arrays, the logs counted from the arena alone, the comparison with
  stored receipts, identifiers that are never reused in a block's output, and the sidecar that keeps
  exact error texts and hands them to the formatter.
- **State diff** (`SortedRows`, `StateDiff`, `DiffDecode`, `DiffRoundTrip`): a replay bundle becomes
  a diff of hashed rows, a strict decoder reads it back, wipes are expanded over the parent's slots,
  and the result is the bundle's final state.

Machine widths are written out where they matter: 64-bit saturating, checked and wrapping operations
are functions on unbounded integers, and 128- and 256-bit bounds appear in the fee and base fee
models. Hash maps are visited in an arbitrary order. Digests are parameters: addresses and storage
keys hash injectively, trace identifiers do not collide on what a block hashes, and selection digests
either stand for one execution state or are collision free.

Two statements hold only under a condition, which is proved both ways:

- A non-anchor transaction leaves the sum of balances unchanged exactly when its effective price covers
  the base fee or no net gas was used (`SettleInBlock`). The handler does not check this itself: it
  keeps the EVM library's environment validation (crates/evm/src/handler.rs:47-108 does not override
  it), whose fee-cap check gives the condition (`CapCoversBasefee`). The case outside it is reachable
  only where that check is disabled, and `UncoveredPriceMints` shows it.
- A Shasta header extends an accepted chain exactly with the computed base fee when the grandparent's
  timestamp can be read, and with every fee when it cannot (`ExtendsIffFeeAllowed`, `AnyFeeExtends`).

## Model

| member | source | states |
|---|---|---|
| ZkGasMeter.Meter.constructor | crates/evm/src/zk_gas/meter.rs:26-60 | a new meter balances: finalized, in-flight and remaining zk gas add up to the block limit |
| ZkGasMeter.Meter.ResetTransaction | crates/evm/src/zk_gas/meter.rs:61-65 | in-flight zk gas is gone, the finalized total stays, and the balance is restored from any state within the limit |
| ZkGasMeter.Meter.CommitTransaction | crates/evm/src/zk_gas/meter.rs:67-82 | fails exactly when the sum exceeds the limit, which a balanced meter never reaches; failure changes nothing |
| ZkGasMeter.Meter.ReserveBlockBudget | crates/evm/src/zk_gas/meter.rs:85-96 | on a balanced meter a reserve is refused exactly when it exceeds what remains, and the balance is kept |
| ZkGasMeter.Meter.CommitWouldExceedBlockLimit | crates/evm/src/zk_gas/meter.rs:98-107 | true exactly when a commit would fail, so never on a balanced meter |
| ZkGasMeter.Meter.CanFitTxIntrinsic | crates/evm/src/zk_gas/meter.rs:110-113 | true exactly when one more intrinsic charge fits beside the finalized total |
| ZkGasMeter.Meter.ChargeWork | crates/evm/src/zk_gas/meter.rs:132-158 | a balanced meter refuses a charge exactly when the unbounded product exceeds what remains, although the code multiplies and adds in 64 bits; a refusal changes nothing |
| ZkGasMeter.Meter.ChargeTxIntrinsic | crates/evm/src/zk_gas/meter.rs:161-175 | the intrinsic charge is accepted exactly when it fits what remains |
| ZkGasMeter.Meter.ChargeRun | crates/evm/src/zk_gas/meter.rs:132-175 | a whole run goes through exactly when its exact total fits what remains, whatever the order of its parts |
| ZkGasPaths.StopIsUnique | crates/evm/src/zk_gas/meter.rs:167-175 | charging a list of costs in order has one stopping place for a given budget |
| ZkGasPaths.WholeRunIffTotalFits | crates/evm/src/zk_gas/meter.rs:167-175 | nothing is refused exactly when the exact total fits the budget |
| ZkGasPaths.RunMeteredPlain | crates/evm/src/zk_gas/runtime.rs:30-67 | the interpreter loop has charged exactly the steps it ran, up to the selected child, the end, or the refused step |
| ZkGasPaths.RunChild | crates/evm/src/evm.rs:134-182 | entering a child charges a precompile's gas, or the whole frame, as a contiguous part of the run's costs |
| ZkGasPaths.RunFrame | crates/evm/src/evm.rs:186-213 | alternating loop and child frames charges the frame's flat cost list in order and stops only where the budget does |
| ZkGasPaths.RunProduction | crates/evm/src/evm.rs:134-213 | a transaction's root frame charges the longest prefix of its costs that fits, and refuses exactly when a suffix is left |
| ZkGasPaths.ZkGasInspector.ResetTransaction | crates/evm/src/zk_gas/adapter.rs:263-275 | clearing only depths up to the deepest one seen clears every depth |
| ZkGasPaths.ZkGasInspector.BeginStep | crates/evm/src/zk_gas/adapter.rs:107-121 | the snapshot is stored at its own depth, other depths keep theirs, and the deepest depth seen covers it |
| ZkGasPaths.ZkGasInspector.EndStep | crates/evm/src/zk_gas/adapter.rs:124-145 | the pending step of this depth is charged as spawn estimate or measured gas, the same amount the production loop charges |
| ZkGasPaths.ZkGasInspector.InspectStep | crates/evm/src/zk_gas/adapter.rs:287-327 | a step and everything it dispatches, at deeper depths, is charged in execution order without disturbing this depth's bookkeeping |
| ZkGasPaths.ZkGasInspector.InspectChild | crates/evm/src/zk_gas/adapter.rs:181-205 | the end of a call charges precompile work and nothing else |
| ZkGasPaths.ZkGasInspector.InspectFrame | crates/evm/src/zk_gas/adapter.rs:107-145 | a frame observed through callbacks charges its flat cost list in order and stops only where the budget does |
| ZkGasPaths.RunBothPaths | crates/evm/src/zk_gas/adapter.rs:107-205 | for every call tree within the depth limit, inspector and production loop accept the same charges, are refused at the same one, and leave the same meter state |
| BlockExecution.StrictSnoc | crates/block/src/executor.rs:444-541 | executing one more transaction strictly is one step after the others: a refusal ends the block with its error, a commit extends it |
| BlockExecution.TryStaysWithin | crates/block/src/executor.rs:444-541 | trying a transaction keeps gas and zk gas within the block, and adds a receipt exactly when it commits |
| BlockExecution.StrictLedger | crates/block/src/executor.rs:519-541 | after a strict run the finalized zk gas is the start plus every committed transaction's demand, there is one receipt per transaction, and the last one carries the gas used |
| BlockExecution.UnzenBlockHoldsAtMost411 | crates/evm/src/zk_gas/unzen.rs:11-17 | with the Unzen limit and intrinsic charge no strictly executed block holds more than 411 transactions |
| BlockExecution.DifficultyIsIrrelevant | crates/block/src/executor.rs:444-541 | strict execution gives the same result under any header difficulty |
| BlockExecutor.TaikoBlockExecutor.constructor | crates/block/src/executor.rs:141-168 | a new executor is an empty block on its parent with nothing in flight |
| BlockExecutor.TaikoBlockExecutor.ReserveBlockZkGas | crates/block/src/executor.rs:191-202 | reserving moves the published total by the amount exactly when it fits beside what is in flight, and is a no-op without a meter |
| BlockExecutor.TaikoBlockExecutor.ResetCurrentTransactionZkGas | crates/block/src/executor.rs:205-218 | discarding in-flight zk gas changes nothing observable |
| BlockExecutor.TaikoBlockExecutor.CommitCurrentTransactionZkGas | crates/block/src/executor.rs:221-233 | in-flight zk gas moves into the published total; the unreachable branch is never reached |
| BlockExecutor.TaikoBlockExecutor.ApplyPreExecutionChanges | crates/block/src/executor.rs:384-424 | system calls change the state and fail when their zk gas does not fit; exactly that zk gas is left in flight, where a later reserve has to fit beside it, and it is never finalized |
| BlockExecutor.TaikoBlockExecutor.ExecuteWithoutCommit | crates/block/src/executor.rs:444-516 | success leaves the block unchanged with the whole demand in flight; failure is the value-level verdict and leaves no trace but the exhaustion flag |
| BlockExecutor.TaikoBlockExecutor.CommitTransaction | crates/block/src/executor.rs:519-541 | the outcome, its receipt with cumulative gas, and the in-flight zk gas become part of the block |
| BlockExecutor.TaikoBlockExecutor.ExecuteWithCommitCondition | crates/block/src/executor.rs:427-440 | a declined run leaves the block as it was |
| BlockExecutor.TaikoBlockExecutor.ExecuteTransaction | crates/block/src/executor.rs:444-541 | one executor step is exactly one step of the value-level meaning |
| BlockExecutor.TaikoBlockExecutor.ClearZkGasExhaustion | crates/block/src/executor.rs:265-274 | only the exhaustion flag changes |
| BlockExecutor.TaikoBlockExecutor.CanFitAnotherTransactionZkGas | crates/block/src/executor.rs:276-279 | true exactly when an intrinsic charge fits beside the finalized total |
| BlockExecutor.TaikoBlockExecutor.Finish | crates/block/src/executor.rs:237-245 | a block ends unless the expected difficulty differs from its finalized zk gas |
| ExecutorRuns.Ledger | crates/block/src/executor.rs:191-541 | over any interleaving of reservations, executions, declined executions and cleared exhaustions, the finalized zk gas is the start plus every accepted reservation and every committed demand, there is one receipt per commit and none is lost, and neither limit is passed even counting what is in flight |
| ExecutorRuns.AtMost411Commits | crates/evm/src/zk_gas/unzen.rs:11-17 | whatever the interleaving, an Unzen block commits at most 411 transactions |
| ExecutorRuns.PerformAll | crates/block/src/executor.rs:191-541 | an executor driven by any sequence of operations follows that ledger, in-flight zk gas included |
| MeteredBlocks.ChildWorth | crates/evm/src/zk_gas/meter.rs:132-175 | a call tree as a list of charges is worth its costs, one for one |
| MeteredBlocks.ChargeTree | crates/evm/src/zk_gas/runtime.rs:30-67 | along the production loop or the inspector, a call tree goes through exactly when its exact total fits what remains |
| MeteredBlocks.ExecuteTree | crates/block/src/executor.rs:444-541 | executing a transaction that is a call tree is one step of the value-level meaning, whichever path meters it |
| MeteredBlocks.ExecuteTrees | crates/block/src/executor.rs:444-541 | trying any list of such transactions gives the value-level verdicts and block, whichever path meters it |
| MeteredBlocks.StrictIsTried | crates/block/src/executor.rs:444-541 | on a strictly executable list, trying every transaction is executing it |
| MeteredBlocks.RunBlockBothWays | crates/evm/src/zk_gas/adapter.rs:107-205 | a block of call trees metered by the production loop and by the inspector gets the same verdicts, state, receipts, gas, finalized zk gas and header difficulty |
| ProverFilter.FilteredIsStrict | crates/block/src/executor.rs:296-342 | strictly executing what a filtering run committed commits all of it again and reaches the same block |
| ProverFilter.FilterOnlyDrops | crates/block/src/executor.rs:296-342 | the committed transactions are a subsequence of the candidates, the anchor is never dropped, and no unsigned transaction is kept |
| ProverFilter.KeptWholeIffStrict | crates/block/src/executor.rs:577-600 | the filtering and the strict build agree on whole bodies: filtering keeps a body entirely exactly when strict execution accepts it and only the anchor may be unsigned |
| ProverFilter.FilterKeepsKept | crates/block/src/executor.rs:296-342 | filtering what was kept drops nothing more and reaches the same block |
| ProverFilter.FilteringAgreesWithImport | crates/block/src/assembler.rs:64-68 | the assembled block, imported in the environment its difficulty gives, passes the difficulty and body-length checks and reaches the same state, receipts, gas and zk gas, in the strict build and in the filtering one |
| ProverFilter.TryExecuteFiltered | crates/block/src/executor.rs:345-359 | tells a commit from a tolerated failure; the anchor's failures are never tolerated |
| ProverFilter.ExecuteWithCommittedTransactions | crates/block/src/executor.rs:296-342 | the filtering loop commits exactly what the value-level filter keeps and ends in its block |
| ProverFilter.ExecuteBlock | crates/block/src/executor.rs:577-600 | the filtering build executes a block to exactly the end, or the error, of the prover entry point |
| ProverFilter.ExecuteAll | crates/block/src/executor.rs:444-541 | taking every transaction through execute and commit is strict execution: the first refusal is the error, otherwise the block is the strict one |
| ProverFilter.ProveThenImport | crates/consensus/src/validation/mod.rs:271-295 | proving with one executor, difficulty check included, and importing with another always succeeds when proving does, with the same observable block; proving fails with exactly the value-level error |
| DaLimits.ExceedsDaLimit | crates/block/src/tx_selection/limits.rs:158-191 | a candidate is refused exactly for an estimate or a compressed size over the limit, compression running only when forced or sampled; an accepted list stays within the limit by its estimate and, near the limit, by its compressed size; the ratio never falls |
| DaLimits.ExceedsListLimits | crates/block/src/tx_selection/limits.rs:194-205 | for limits below the machine maximum the gas verdict is exact, and a DA refusal always has an oversized estimate or compressed list behind it |
| DaLimits.CalibratedEstimate | crates/block/src/tx_selection/limits.rs:106-191 | once a check of a list has compressed an estimate, after any further checks of that list the adjusted estimate of the same size falls short of the compressed size by at most the rounding of the fixed-point ratio |
| DaLimits.FreshListStaysCalibrated | crates/block/src/tx_selection/limits.rs:106-191 | for a fresh list with sizes below 4 GiB this holds of every compression it ever ran, with nothing truncated |
| DaLimits.AtMostTwoSamplingRuns | crates/block/src/tx_selection/limits.rs:94-121 | over any sequence of checks the two thresholds cause at most two compressions per list |
| OverflowMemory.AdvanceAllInjective | crates/block/src/tx_selection/overflow.rs:114-124 | with collision-free digests, equal digests mean the same seed and the same committed transactions |
| OverflowMemory.MeaningOfReachable | crates/block/src/tx_selection/overflow.rs:82-124 | a reachable digest stands for the block its commits lead to |
| OverflowMemory.CollisionFreeIsFaithful | crates/block/src/tx_selection/overflow.rs:114-124 | collision-free digests satisfy the hypothesis under which remembered overflows are sound |
| TxSelection.PickList | crates/block/src/tx_selection/mod.rs:256-297 | the list chosen for a candidate has room for it; a new list is opened only within the cap and only when the current one would break a limit; a candidate is turned away only when the last list would break a limit and is fresh or the last allowed; nothing else moves |
| TxSelection.AddKeepsPacked | crates/block/src/tx_selection/mod.rs:348-356 | adding a committed candidate keeps totals equal to the sums of the members and within both limits |
| TxSelection.RoomFitsBlock | crates/block/src/tx_selection/mod.rs:256-297 | when start gas plus all full lists fits the block, a candidate with room in its list fits the block |
| TxSelection.IncludeKeeps | crates/block/src/tx_selection/mod.rs:348-356 | including a committed candidate keeps every list packed and the flattened selection strictly executable to the current block |
| TxSelection.Screen | crates/block/src/tx_selection/mod.rs:199-254 | each skip has its reason: a failed filter, the same state as a remembered overflow, or a used-up re-run allowance; a same-state skip is a transaction that would overflow if run now |
| TxSelection.AfterOverflow | crates/block/src/tx_selection/mod.rs:305-324 | after an overflow is cleared the executor is where it was before the candidate, and the memory is still sound |
| TxSelection.AfterCommit | crates/block/src/tx_selection/mod.rs:348-356 | a committed transaction is no longer remembered and the digest stands for the new block |
| TxSelection.AfterRefusal | crates/block/src/tx_selection/mod.rs:325-345 | an invalid candidate leaves block, lists and memory as they were; only a block-gas or internal error is fatal |
| TxSelection.RunCandidate | crates/block/src/tx_selection/mod.rs:299-356 | whatever the run does, the executor equals strict execution of the selection, and a stop is forced once first-time overflows use up their budget |
| TxSelection.PlaceAndRun | crates/block/src/tx_selection/mod.rs:256-356 | a screened candidate is run on a list with room for it, or turned away because no allowed list can take it |
| TxSelection.Consider | crates/block/src/tx_selection/mod.rs:187-356 | one candidate, from filters to outcome, keeps packing, invisibility of skips and soundness of the memory; the decision taken is called for by filters, memory, lists or block; a candidate is left undecided only on a block that cannot pay or by its own fatal refusal, and the loop goes on, stops or fails accordingly |
| SelectionRun.FatalIsInternal | crates/block/src/executor.rs:454-464 | when the lists fit the block, the block-gas refusal cannot be the fatal error |
| SelectionRun.NoneMissed | crates/block/src/tx_selection/mod.rs:187-356 | any candidate in the log whose sender was not dropped, that passes the filters, fits the list at hand, commits on the block as it is and, if remembered, finds the re-run allowance not used up, is included |
| SelectionRun.Turn | crates/block/src/tx_selection/mod.rs:187-356 | one turn of the loop adds one entry to the log, unless it ends the run because cancellation was asked for; the log stays told and orderly, and the run goes on, stops or fails for its reason |
| SelectionRun.SelectAndExecute | crates/block/src/tx_selection/mod.rs:158-362 | after any mix of commits, overflows, skips and invalid candidates the executor equals one that ran only the selected lists, which are packed; lists, digest, memory, dropped senders and waste are what the log says; every entry has its cause, undecided ones included, and only the last may end the run; no yielded candidate is looked at after cancellation; a run completes when every candidate is decided on, or its last one used up the overflow budget or met a block that cannot pay, is cancelled only when asked to, and aborts only with its last candidate's own fatal error; no included transaction is remembered; first-time and re-run waste are each at most twice the per-list cap |
| SelectionCalls.RunCall | crates/rpc/src/eth/auth/mod.rs:350-407 | a call fails before selection exactly when its system calls fail, the reserve does not fit beside what they leave in flight, or what comes before selection is refused, and then leaves the memory alone; otherwise it leaves a told run that ends for its reason, and the shared memory sound for collision-free digests |
| SelectionCalls.RunCalls | crates/block/src/tx_selection/overflow.rs:82-124 | over any sequence of calls from an empty memory, each call is answered against the memory the earlier ones left, failing exactly when its block cannot be opened, and every memory on the way is sound |
| SelectionCalls.SkipsAreSound | crates/block/src/tx_selection/overflow.rs:82-124 | every call that reached selection leaves a run in which a candidate skipped for an overflow recorded by this or an earlier call overflows if run at the block it met |
| FeeHandler.Journal.BalanceIncr | crates/evm/src/handler.rs:134-206 | an increment is exact for any supply within the word |
| FeeHandler.Journal.ValidateAndDeductCaller | crates/evm/src/handler.rs:212-279 | succeeds exactly for a caller without code, with the right nonce and a payable maximum plus value without overflow, the anchor's balance not being asked; each refusal has its own cause; takes exactly the effective payment, nothing from the anchor; failure changes no balance |
| FeeHandler.Journal.ReimburseCaller | crates/evm/src/handler.rs:284-329 | the caller, and no one else, gets the price of unused and refunded gas; the anchor gets nothing |
| FeeHandler.Journal.RewardBeneficiary | crates/evm/src/handler.rs:134-206 | where the 128-bit tip does not wrap, the beneficiary gets the tip and its rounded-down share, the treasury the rest, for any aliasing of the two, and the supply grows by just that; a zero reward moves no balance |
| FeeHandler.PayableTipFits | crates/evm/src/handler.rs:151-154 | the 128-bit tip of a transaction that could be charged never wraps |
| FeeHandler.ShareConserves | crates/evm/src/handler.rs:170-206 | a share of at most 100 percent pays out the whole base fee, a larger one more than that |
| FeeHandler.Settle | crates/evm/src/handler.rs:134-329 | goes through exactly when the caller is accepted; deduct, execute, reimburse and reward then end in exactly determined balances, and change the supply by the reward less the fee for net gas |
| FeeHandler.SettleInBlock | crates/evm/src/handler.rs:134-329 | in a block, a transaction that goes through leaves the sum of all balances unchanged exactly when its price covers the base fee or it used no net gas, whoever caller, beneficiary and treasury are |
| FeeHandler.CapCoversBasefee | crates/evm/src/handler.rs:47-108 | the effective price covers the base fee exactly when the fee cap does, which environment validation demands |
| FeeHandler.UncoveredPriceMints | crates/evm/src/handler.rs:134-206 | with that validation off, 10 gas at fee cap 1 and base fee 2 goes through on any journal that can pay it, and the sum of balances grows by 10 |
| FeeHandler.FeesConservedIff | crates/evm/src/handler.rs:134-206 | under the executor's context with share at most 100, what is kept of the fee equals what is paid out exactly when the price covers the base fee or no net gas was used |
| FeeHandler.BasefeeBurntOutsideBlocks | crates/evm/src/handler.rs:134-206 | without that context the base fee of a covered transaction is burnt exactly |
| FeeHandler.SettleAnchor | crates/consensus/src/validation/anchor.rs:61-70 | around a zero-tip anchor every balance stays what its execution makes it |
| BaseFee.NextBaseFeeExact | crates/consensus/src/eip4396.rs:39-92 | in range the result is the clamp of the exact sum of fee and step from the exact target, all in unbounded arithmetic: no wrap, cast or saturation loses anything |
| BaseFee.StepWithinThreeEighths | crates/consensus/src/eip4396.rs:39-92 | the pre-clamp step is at most three eighths of the parent fee, or one |
| BaseFee.NondecreasingInGasUsed | crates/consensus/src/eip4396.rs:39-92 | more gas used never lowers the next fee |
| BaseFee.NonincreasingInBlockTime | crates/consensus/src/eip4396.rs:39-92 | a slower parent block never raises the next fee |
| BaseFee.FeeFollowsUsage | crates/consensus/src/eip4396.rs:39-92 | away from the clamp the fee rises exactly when usage exceeds the exact adjusted target |
| BaseFee.DividesByZeroIff | crates/consensus/src/eip4396.rs:39-92 | the division by the gas target fails exactly for a used parent with gas limit below 2 |
| BaseFee.AlwaysWithinClamp | crates/consensus/src/eip4396.rs:90-92 | whatever the parent, a computed fee is within the network minimum and one gwei |
| HeaderChain.ChainNumbers | crates/consensus/src/validation/mod.rs:204-266 | along an accepted chain numbers count up from genesis |
| HeaderChain.TimestampsNeverGoBack | crates/consensus/src/validation/mod.rs:204-266 | timestamps never go back between any two headers, and Shasta headers are strictly later |
| HeaderChain.NeverUnderflows | crates/consensus/src/validation/mod.rs:310-323 | for any header offered on an accepted chain, the block time subtraction does not underflow |
| HeaderChain.SpecNeverRegresses | crates/block/src/config.rs:403-429 | the selected spec of a later header is never an earlier one |
| HeaderChain.ShastaFeesAreBounded | crates/consensus/src/validation/mod.rs:214-255 | a Shasta header whose grandparent resolves has a base fee between the network minimum and one gwei |
| HeaderChain.ExtendsIffFeeAllowed | crates/consensus/src/validation/mod.rs:204-266 | a Shasta header in its place extends an accepted chain exactly when its fee is allowed: the initial one after genesis, any while the grandparent does not resolve, otherwise the computed one |
| HeaderChain.AnyFeeExtends | crates/consensus/src/validation/mod.rs:240-244 | an accepted chain whose grandparent does not resolve extends, for every fee, to an accepted chain with that fee |
| HeaderChain.UnresolvedGrandparentAcceptsAnyFee | crates/consensus/src/validation/mod.rs:240-244 | without a grandparent timestamp any base fee is accepted |
| TraceArena.CheckOrdering | crates/rpc/src/debank.rs:734-781 | the walk over a frame's members succeeds exactly when every child and log position is ordered once and every child points back, and it pushes each child |
| TraceArena.TreeIffAllVisited | crates/rpc/src/debank.rs:783-787 | once nothing is pending, the arena is a tree exactly when every frame was visited |
| TraceArena.VisitKeeps | crates/rpc/src/debank.rs:712-782 | one visit keeps what is known about pending and visited frames and leaves one frame fewer |
| TraceArena.ValidateTraceArena | crates/rpc/src/debank.rs:706-787 | terminates in range and accepts exactly the arenas that are trees rooted at 0 reaching every frame, with consistent statuses and each child and log ordered once |
| TraceTree.UniquePath | crates/rpc/src/debank.rs:706-787 | in an accepted arena one path of child positions leads to each frame |
| TraceTree.PathBound | crates/rpc/src/debank.rs:561-570 | no path in an accepted arena is as long as the arena, so recursion along children ends |
| TraceBuild.BuildMembers | crates/rpc/src/debank.rs:589-626 | the members fill the frame's slots in order, with running log index and storage flag |
| TraceBuild.BuildNode | crates/rpc/src/debank.rs:561-658 | the built tree projects the frame and everything below it, or some frame cannot be formatted |
| TraceFlatten.TraceArrays.FlattenDescendants | crates/rpc/src/debank.rs:675-703 | the four arrays grow by nested descendants, then own logs, then direct children, each by effective status |
| TraceFlatten.FlatEventsPermuted | crates/rpc/src/debank.rs:675-703 | per status, the flattened logs are a permutation of the logs in execution order |
| TraceFlatten.IndicesFollowExecution | crates/rpc/src/debank.rs:612-625 | surviving logs carry consecutive indices in execution order |
| TracePartition.CountNode | crates/rpc/src/debank.rs:628-703 | below a frame every arena entry occurs exactly once, in the array of its ancestor chain's status, and nothing else occurs |
| TracePartition.OrderNode | crates/rpc/src/debank.rs:675-703 | in each array every trace comes after all its descendants |
| TraceIds.DescribeNode | crates/rpc/src/debank.rs:583-657 | every flattened trace carries the identifier and child count of the entry at its address |
| TraceIds.ChildAddresses | crates/rpc/src/debank.rs:590-657 | the entries directly below a frame are its address followed by 0 to subtraces - 1 |
| TraceIds.SplitPreimage | crates/rpc/src/debank.rs:358-360 | joined without separators, transaction, parent identifier and decimal position can be told apart |
| TraceIds.DistinctIds | crates/rpc/src/debank.rs:358-360 | all frame and self-destruct identifiers of a block are distinct when the digest does not collide on them |
| TraceLogs.CountLogsOf | crates/rpc/src/debank.rs:590-626 | every log of every frame, counted from the arena alone, occurs exactly once in the list of its frame's chain status, and nothing else occurs |
| TraceLogs.RenderNode | crates/rpc/src/debank.rs:590-626 | in execution order the events of a projected frame are, one for one, the events of those logs |
| TraceBlock.HoldsWithRoot | crates/rpc/src/debank.rs:823-829 | each trace array holds exactly the entries of its status, once, only the root standing before its descendants |
| TraceBlock.BuildRoot | crates/rpc/src/debank.rs:812-822 | projecting the root fails exactly when some frame cannot be formatted |
| TraceBlock.BuildDebankTraces | crates/rpc/src/debank.rs:797-830 | accepts exactly the trees with one sidecar entry per frame and formattable frames; entries and logs of the arena are each in the array of their chain status exactly once, with surviving logs numbered in execution order, and the log index advances by their number |
| FormattedEvents.FormatBlock | crates/rpc/src/trace.rs:807-857 | over a block, surviving logs are numbered 0, 1, ... in execution order across transactions, and formatting fails exactly when some transaction cannot be formatted |
| FormattedEvents.NumberedPermutation | crates/rpc/src/debank.rs:612-625 | stored in any order, the indices are each once and name the log at that place in execution order |
| FormattedEvents.MatchesIffSameLog | crates/rpc/src/trace.rs:1160-1168 | an event matches a stored log exactly when address, topics and data agree |
| FormattedEvents.ValidateFormattedEvents | crates/rpc/src/trace.rs:1127-1177 | accepts exactly the events whose indices are a bijection onto the stored logs with equal contents |
| FormattedEvents.BlockLogsAreLogs | crates/rpc/src/debank.rs:590-626 | every listed log of a block is a log of its transaction's arena, on a chain that succeeded |
| FormattedEvents.FormattedIsNumbered | crates/rpc/src/trace.rs:807-857 | the events of a formatted block are its surviving logs, numbered 0, 1, ... in execution order across transactions |
| FormattedEvents.CheckComparesInOrder | crates/rpc/src/trace.rs:1127-1177 | for a formatted block the check holds exactly when the n-th surviving log of the arenas has the contract, topics and data of the n-th receipt log, for every n |
| OutputIds.DistinctItems | crates/rpc/src/debank.rs:586-657 | entries and logs of a block are told apart by their identifiers: no event shares one with a trace or another event |
| OutputIds.DistinctOutputIds | crates/rpc/src/debank.rs:586-657 | no two places in any of the arrays of a formatted block carry the same identifier |
| GethErrors.GethErrorInspector.StartFrame | crates/rpc/src/geth_error.rs:154-161 | a start inside an open step is a fault; otherwise the new frame has the next index and no text |
| GethErrors.GethErrorInspector.InspectStep | crates/rpc/src/geth_error.rs:164-186 | a step outside a frame or inside a step is a fault; otherwise it is open |
| GethErrors.GethErrorInspector.InspectStepEnd | crates/rpc/src/geth_error.rs:189-230 | the step's text, if any, goes to the innermost frame; a text without halt, a second text or a missing text is a fault |
| GethErrors.GethErrorInspector.InspectPrecompileError | crates/rpc/src/geth_error.rs:233-265 | the oldest captured halt must belong to this precompile and gives the innermost frame its only text |
| GethErrors.GethErrorInspector.EndFrame | crates/rpc/src/geth_error.rs:268-290 | the innermost frame's text is stored by start order; a text on a non-halting result or a missing one is a fault |
| GethErrors.GethErrorInspector.FinishTransaction | crates/rpc/src/geth_error.rs:296-330 | succeeds exactly on clean, fully closed histories with the expected number of frames, returns each frame's text by start order, and always resets to fresh |
| GethErrors.Balanced | crates/rpc/src/geth_error.rs:154-290 | in a clean history frame ends never outrun starts |
| GethErrors.StepIsEnded | crates/rpc/src/geth_error.rs:164-230 | every step of a finished history is ended with no frame or step callback in between |
| GethErrors.FrameExplained | crates/rpc/src/geth_error.rs:268-290 | every frame of a finished history ends exactly once, has a text only on a halt, and has one whenever its result needs it |
| GethErrors.TextHasSource | crates/rpc/src/geth_error.rs:189-265 | a frame's text was established while that frame was innermost |
| GethErrors.SidecarSuffices | crates/rpc/src/debank.rs:494-520 | after a successful finish the formatter's missing-context error cannot occur |
| SidecarFormat.AcceptableIffWorded | crates/rpc/src/debank.rs:494-520 | with the texts of a finished history, an arena is acceptable exactly when it is a tree whose frames all have a text or a wording |
| SidecarFormat.FormatTraced | crates/rpc/src/trace.rs:826-857 | finishing the sidecar fails exactly for an unfinished history; after it succeeds, formatting fails exactly for an arena that is no tree or a frame without any wording |
| StateDiff.CollectSlots | crates/rpc/src/debank.rs:936-953 | visited in any order, the written-out slots are the sorted rows of the account |
| StateDiff.Contribute | crates/rpc/src/debank.rs:919-978 | the rows one account adds, branch by branch, are those its entry calls for |
| StateDiff.CollectCodes | crates/rpc/src/debank.rs:980-996 | succeeds exactly when every required code is present and hashes to its name, and yields them sorted |
| StateDiff.BuildStorageDiff | crates/rpc/src/debank.rs:907-1008 | the diff is a function of the bundle alone, whatever order accounts and slots are visited in; it fails only for missing or wrong bytecode |
| DiffDecode.DecodeStorage | crates/rpc/src/debank.rs:1118-1135 | storage rows are accepted exactly when no row or slot repeats and every row has its account |
| DiffDecode.CheckCodes | crates/rpc/src/debank.rs:1137-1150 | codes are accepted exactly when they are distinct, hash to their names and are referenced |
| DiffDecode.DecodeStorageDiff | crates/rpc/src/debank.rs:1081-1173 | accepts exactly the strict diffs; accounts, deletions and storage, empty for wiped accounts, are all there and nothing else |
| DiffRoundTrip.BuiltIsStrict | crates/rpc/src/debank.rs:1081-1173 | the strict decoder accepts every diff the builder makes |
| DiffRoundTrip.MaterializeStorageWipes | crates/rpc/src/debank.rs:1196-1230 | fails exactly when a deleted key has no preimage; otherwise every parent slot of a deleted account is zeroed unless the update writes it |
| DiffRoundTrip.DiffReproducesState | crates/rpc/src/debank.rs:907-1230 | decoded, expanded and applied, a well-formed bundle's diff turns the hashed parent state into exactly the hashed final state, recreated, created-and-destroyed and restored entries included |
| DiffRoundTrip.RoundTrip | crates/rpc/src/debank.rs:907-1230 | build, decode and expand fail only for missing or wrong bytecode, and the update they yield reproduces the final state from every image of the parent |
| DiffRoundTrip.CodeIsAvailable | crates/rpc/src/debank.rs:964-973 | a final account's code is in the diff under its own hash, or referenced by the same undestroyed parent account |
| DiffRoundTrip.RowsAreNeeded | crates/rpc/src/debank.rs:936-962 | an account row that is no recreation stands for a changed account or a changed slot; a slot row differs from the parent's slot or, after a wipe, is not zero |

## Left out

- EVM semantics, the journal and gas refunds inside a run: the EVM is a function parameter; a run whose charge is refused has no outcome.
- Digest internals (keccak, md5, sha1), RLP bytes, zlib and trie roots: parameters or absent; the decoder starts from the decoded diff.
- Request handling, deadlines, cancellation inside a replay, JSON and transport: asynchronous plumbing around the modelled core.
- Proof history, witness RPC, CLI, node wiring, chain-spec presets and the anchor call codec: no part of the modelled runs.
- The genesis state diff, the validation hash, block-file headers and the per-transaction table built from receipts: single-pass projections that would add easy members.
- Opcode and precompile multiplier tables, and the wording of Geth errors and revert reasons: data; a frame's wording is a field of the model.
- Trace fields copied unchanged from the inspector (addresses, value, input, output, gas): they add no branch to the tree, partition or identifier results.
- Per-list limits equal to the largest 64-bit value, base fee shares above 100 percent in the conservation result, disabled balance, nonce and base fee checks: outside the stated preconditions.
- Bundles are assumed well formed: a modified entry records the parent's account and, unless destroyed, the parent's slots, and an account disappears only by being destroyed.
- The pool iterator is the sequence of candidates it would offer; marking a sender invalid drops that sender's later candidates.
- FeeHandler.Settle: states the balances for supplies within 256 bits, because a larger increment is dropped by the journal.
- DaLimits.CalibratedEstimate: asks that the two 64-bit casts of the ratio lose nothing, because a truncated ratio calibrates nothing; sizes below 4 GiB always meet this.
- BaseFee.NextBaseFeeExact: covers parents whose 64-bit products do not wrap and whose gas used is within the limit; outside that only the clamp and the division by zero are stated.
