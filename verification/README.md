# A model of the treasury service, the chain scorer and the config store

A Dafny model of the parts of the repository that move money or decide where it may go, with
proofs of what they keep over every input and every run. `dafny verify dfyconfig.toml` checks
the whole project.

Core by core:

- **Rebalance planner** (`Rebalance`, `RebalanceLaws`, `RebalanceCycle`, `CycleDecision`,
  `RebalanceExecution`, `RebalanceOrder`, `CycleSubmission`).
  The two-pointer matching loop, the chunking by the on-chain cap, and the cycle around them
  with U256 wrap-around, floor division and basis points. The loop ends exactly for the inputs
  named by `Progresses`: a configured cap of zero hangs it precisely when both sides have
  something to move. The other theorems speak of the plans of inputs on which it ends. The
  reserve planner is the same cycle with equal targets.
- **Wire formats** (`ByteStrings`, `Rlp`, `Tx`, `Hex`, `Abi`). The encoders are the source's; the
  decoders are written here from Appendix B of the Ethereum Yellow Paper, EIP-2718, EIP-1559
  ("Specification") and the Solidity Contract ABI Specification ("Use of Dynamic Types"). RLP
  decoding is shown exact in both directions. The signed transaction writes `r` and `s` as 32
  bytes each, so a strict reader accepts it exactly when neither starts with a zero byte.
- **Operation and relay protocols** (`RebalanceRepo`, `ColdPath`, `ColdPathRuns`, `ColdPathTask`;
  `RelayRepo`, `RelayEvents`, `RelayLogs`, `WatcherRuns`, `HotPath`, `HotPathSafety`,
  `HotPathTask`, with `Scans` for the queried blocks; `ReserveRepo`, `ReservePath`, `ReserveTask`,
  `ReserveTransfer`; `DrainRepo`, `Decommission`, `DrainIndex`, `DrainRuns`, `DrainTask`). Tables
  are maps with the INSERT, UPDATE and ON CONFLICT behaviour of the SQL, in classes whose methods
  state the new table outright. Single loops and calls are methods on those classes. What several
  async loops and tasks do together cannot be one method: it is a step relation over values, one
  step per await, in which every interleaving, crash and restart is a sequence of steps; the
  theorems range over all such sequences. `HotPathTask`, `ReserveTask`, `ColdPathTask`, `DrainTask` and
  `UndisturbedVerification` tie the two forms together: an undisturbed task in the step relation
  does to the table exactly what the method does.
- **Account index** (`AccountEvents`, `AccountIndex`, `AccountLogs`). Parsing of logs
  laid out as the contracts emit them, idempotent ingestion, the cursor, the balance query and
  the activity feed.
- **Chain scoring** (`Sorting`, `Scoring`, `Ranking`, `RankingLaws`, `RankingTies`, `ScoreRun`).
  Both copies of the engine over exact reals with half-up rounding to six decimals.
- **Config store** (`ConfigStore`). Versioned writes with idempotent replay.

Where a promise does not hold as it stands, the model keeps the code and proves when it does hold:

- a cold-path status says how much was confirmed exactly while no op begins under the id of an
  earlier one, that is, in its millisecond (`StatusTellsConfirmationExactly`); a failed row can
  come back to life exactly in that millisecond, or while it is worked on
  (`FailedStaysExactlyWhenClockMoved`);
- a reserve status is earned exactly while the planner takes up no clashing id
  (`StatusIsEarnedExactly`), and a row stays `completed` exactly when no loop still has the op
  in hand (`CompletedStaysExactlyWhenUnheld`);
- one cycle cannot get its whole plan submitted exactly when the per-op cap splits an op
  (`CycleSubmitsWholeExactly`);
- a release can be submitted twice exactly when a poll finds something that is not fresh
  (`ReleasedOnceExactly`): a head falls back, a transaction carries two logs, or a transaction is
  mined again in a later block, which the source does not wait out;
- blocks stay unqueried exactly when a head ran ahead of the earlier ones by more than the range
  cap (`BlocksQueriedOnceExactly`, `BlocksQueriedExactly`, for heads that never decrease);
- an anomaly's alert is stored although the pause failed or was never tried, and the pause is
  never made up for (`AnomaliesPausedExactly`, `FailedPauseNeverMadeUp`); concurrent verification
  can pause the contract twice for one transfer (`NeverPausesTwiceExactly`);
- the watcher pauses on an honest release exactly when the latest poll since its last restart that
  named the event does not match, so also when there was none (`HonestTaskVerifiedExactly`,
  `RestartPausesHonestRelease`);
- the first-deposit notification is lost if the process dies between storing the row and sending
  (`HomeChainPushedOnce` says for whom);
- the order of allowedChains can change the engine's ranking, exactly when near ties make its
  comparator circular (`RankingIgnoresOrderExactly`);
- the two scorers differ exactly when a metric's range is exactly epsilon
  (`CopiesAgreeExactly`), and among chains tied on score and reliability the inlined copy puts
  the slower one first, although its comment says "latency asc" (`CopiesBreakLatencyTiesApart`);
- a customer can get another one's snapshot exactly when a record under their key was written by
  that other customer, which takes ids that continue one another (`OwnSnapshotExactly`,
  `CustomersCollideExactly`); a request id reused across the two operations writes again
  (`ReusedRequestIdWritesAgain`).

## Model

| member | source | states |
|---|---|---|
| Rebalance.SortDescIsStableSort | services/treasury/src/domain/rebalance.rs:22-26 | the sort by descending amount is descending, keeps every entry, and keeps the order of equal amounts |
| Rebalance.PassFollowsMatch | services/treasury/src/domain/rebalance.rs:35-65 | one pass of the loop body emits the next ops of the recursive matching, keeps progress and shrinks the measure |
| Rebalance.TerminatesExactlyWhenProgresses | services/treasury/src/domain/rebalance.rs:35-65 | the loop ends if and only if the cap is not zero or one side has nothing to move |
| Rebalance.ServeInOrder | services/treasury/src/domain/rebalance.rs:29-67 | the index-and-remainder loop computes the recursive matching of the sorted lists |
| Rebalance.ComputeRebalanceOps | services/treasury/src/domain/rebalance.rs:15-68 | sorting and looping give the specified plan, the one whose order `LargestServedFirst` tells |
| RebalanceOrder.LargestServedFirst | services/treasury/src/domain/rebalance.rs:22-65 | of two ops of any plan the earlier drains the chain with the larger surplus, or the same surplus and listed no later, and fills the chain with the larger deficit, or the same and listed no later |
| RebalanceLaws.SplitAmountByCap | services/treasury/src/cold_path.rs:645-658 | the chunking loop gives the specified chunks, none for a zero cap |
| RebalanceLaws.ChunksOfAmount | services/treasury/src/cold_path.rs:645-658 | chunks add up to the amount, are positive and within the cap, and all but the last equal the cap |
| RebalanceLaws.ChunkOpIsChunks | services/treasury/src/cold_path.rs:645-658 | the chunked form of an op has those chunks between the same two chains |
| RebalanceLaws.CappedPlanIsChunkedPlan | services/treasury/src/domain/rebalance.rs:35-65 | for every positive cap the capped plan is the uncapped plan with each op replaced by its chunks, in order |
| RebalanceLaws.PlanConserves | services/treasury/src/domain/rebalance.rs:15-68 | a plan moves exactly the smaller total, takes no more than a surplus, gives no more than a deficit, and exhausts the smaller side chain by chain |
| RebalanceLaws.PlanIsShort | services/treasury/src/domain/rebalance.rs:15-68 | every op is positive and within the cap; without a cap there are at most surpluses plus deficits minus one |
| RebalanceCycle.FoldDepths | services/treasury/src/cold_path.rs:311-315 | the fold gives the wrapping total |
| RebalanceCycle.TotalDepthIsWrappedSum | services/treasury/src/cold_path.rs:311-315 | the wrapping fold is the exact sum modulo 2^256 |
| RebalanceCycle.SumOfAnyOrder | services/treasury/src/cold_path.rs:311-315 | the sum does not depend on the iteration order of the hash map |
| RebalanceCycle.AnyBelowMinimum | services/treasury/src/cold_path.rs:332-347 | the loop finds out whether some chain lies under the minimum, which `CycleDecision.PlansExactlyWhenBelow` states in plain arithmetic |
| RebalanceCycle.SplitAroundTarget | services/treasury/src/cold_path.rs:354-366 | the loop gives the specified surplus and deficit lists |
| RebalanceCycle.PlanCycle | services/treasury/src/cold_path.rs:311-369 | total, target, trigger, split and matching give the plan of the cycle, for which `CycleDecision` says when and towards what it moves |
| RebalanceCycle.PlanReserveCycle | services/treasury/src/reserve_path.rs:319-351 | the reserve planner computes the same plan as a cold-path cycle with equal targets |
| CycleDecision.CycleTargetIs | services/treasury/src/cold_path.rs:317-330 | on a total that does not wrap the target is the equal share of the sum rounded down, or the configured share in basis points rounded down |
| CycleDecision.PlansExactlyWhenBelow | services/treasury/src/cold_path.rs:311-369 | on such a total the plan is the matching of surpluses and deficits around that share if and only if there are two or more chains and some depth times 10000 is below the minimum times the target; otherwise it is empty |
| CycleDecision.LimitIsPower | services/treasury/src/cold_path.rs:311-315 | the modulus of the wrapping arithmetic is 256 to the 32nd |
| RebalanceExecution.ExecuteConserves | services/treasury/src/cold_path.rs:356-432 | whatever ops are executed in whatever amounts, the sum over all chains is unchanged |
| RebalanceExecution.SplitAmounts | services/treasury/src/cold_path.rs:354-366 | the two lists hold exactly the excess and the gap of every chain |
| RebalanceExecution.PartialExecution | services/treasury/src/cold_path.rs:356-432 | executing any part of a plan conserves the total, takes no source under and no destination over the target, and lowers the total deficit by exactly what moved |
| RebalanceExecution.FullExecution | services/treasury/src/cold_path.rs:311-369 | with targets that fit into the total, the whole plan lifts every deficit chain exactly to target, leaves the others at or above it, and the next cycle plans nothing |
| RebalanceExecution.DeficitBoundsEveryRun | services/treasury/src/cold_path.rs:265-369 | over any number of partly executed cycles total and target stay, the deficit falls by what moved, and no more cycles move anything than the first deficit allows |
| CycleSubmission.UncappedNamesPairsOnce | services/treasury/src/domain/rebalance.rs:35-65 | an uncapped plan over distinct chains names no ordered pair twice |
| CycleSubmission.CappedNamesPairsOnceExactly | services/treasury/src/domain/rebalance.rs:35-65 | a capped plan names no ordered pair twice if and only if the cap splits no op of the uncapped plan |
| CycleSubmission.SubmitsWholeExactly | services/treasury/src/cold_path.rs:378-432 | from idle pairs a list of ops passes both checks in one cycle if and only if no pair comes up twice and every op finds its amount when it comes up |
| CycleSubmission.PlanDepthsSuffice | services/treasury/src/cold_path.rs:378-432 | the depth check of a cycle's own plan never fails |
| CycleSubmission.CycleSubmitsWholeExactly | services/treasury/src/cold_path.rs:356-432 | one cycle can get its whole plan submitted if and only if the per-op cap splits no op of the uncapped plan |
| CycleSubmission.CapHoldsPlanBack | services/treasury/src/cold_path.rs:378-432 | a surplus of 5 under a cap of 3 cannot go through in one cycle |
| RebalanceRepo.Repository.constructor | services/treasury/src/db/rebalance_repo.rs:19-21 | the table starts empty |
| RebalanceRepo.InFlightForADay | services/treasury/src/db/rebalance_repo.rs:26-42 | an op that did not fail occupies its pair 86399999 ms after it was created and no longer at 86400000; a failed op never does |
| RebalanceRepo.InFlightNamesPair | services/treasury/src/db/rebalance_repo.rs:26-42 | a pair is in flight if and only if one of the stored ops puts it in flight by itself |
| RebalanceRepo.Repository.InsertRebalanceOp | services/treasury/src/db/rebalance_repo.rs:44-69 | inserts a pending row unless the id exists |
| RebalanceRepo.Repository.UpdateRebalanceOpSubmitted | services/treasury/src/db/rebalance_repo.rs:71-91 | sets status, transaction and message id of an existing row whatever its status |
| RebalanceRepo.Repository.UpdateRebalanceOpFailed | services/treasury/src/db/rebalance_repo.rs:93-105 | marks an existing row failed whatever its status |
| ColdPath.SubmitChunks | services/treasury/src/cold_path.rs:474-537 | stops at the first failed chunk; the confirmed amount is the chunks before it, the row ends submitted exactly if none failed, carries the receipt of the last confirmed chunk, and no other row changes |
| ColdPath.SubmitRecorded | services/treasury/src/cold_path.rs:445-537 | a recorded op ends submitted with its whole amount confirmed if and only if the cap is known and positive and every chunk is confirmed; otherwise it ends failed |
| ColdPath.ProcessOp | services/treasury/src/cold_path.rs:378-537 | an op is skipped for depth exactly when the depth is smaller than its amount, submitted exactly when it is not and the pair is not in flight; a skipped op changes nothing; a submitted one confirms at most its amount and ends submitted exactly when every chunk is confirmed |
| ColdPathRuns.AtMostOneOpInFlight | services/treasury/src/cold_path.rs:378-537 | over all cycles, crashes and restarts no ordered pair ever has two pending or submitted ops inside the window |
| ColdPathRuns.StatusTellsConfirmation | services/treasury/src/cold_path.rs:378-537 | while submitted ops have new ids: confirmed chunks never exceed the amount; an op that left its cycle is submitted exactly when fully confirmed and failed otherwise |
| ColdPathRuns.StatusTellsConfirmationExactly | services/treasury/src/cold_path.rs:434-444 | at every point of a run every status says how much was confirmed, if and only if no op was begun under the id of an earlier one |
| ColdPathRuns.FailedIsAbsorbing | services/treasury/src/db/rebalance_repo.rs:71-105 | while op ids are new, a failed row never changes again |
| ColdPathRuns.FailedStaysExactlyWhenClockMoved | services/treasury/src/cold_path.rs:434-444 | in every reachable state a failed row is safe in all futures if and only if the clock has passed the millisecond of its id and nobody works on it |
| ColdPathRuns.FailedCanRevive | services/treasury/src/cold_path.rs:434-470 | a reachable failed row that does not stay failed |
| ColdPathTask.UndisturbedChunks | services/treasury/src/cold_path.rs:474-537 | the steps of an undisturbed chunk loop do to row, receipts and confirmed amount what the method does |
| ColdPathTask.UndisturbedOp | services/treasury/src/cold_path.rs:378-537 | an undisturbed op in the step relation is left alone unless depth suffices and the pair is idle; then its new row ends submitted with the whole amount if every chunk is confirmed, failed otherwise |
| ByteStrings.CanonicalUnique | services/treasury/src/eth/encoding.rs:92-99 | two minimal big-endian forms of one value are equal |
| ByteStrings.TrimmedBeIsCanonical | services/treasury/src/eth/encoding.rs:92-99 | trimming gives the minimal form and keeps the value, for every value that fits |
| Rlp.RlpEncodeUint | services/treasury/src/eth/encoding.rs:47-54 | the number is encoded as its minimal byte string |
| Rlp.RlpEncodeBytes | services/treasury/src/eth/encoding.rs:56-72 | single bytes below 0x80 stand for themselves; up to 55 bytes follow 0x80 plus their length, more follow 0xb7 plus the size of their minimal length |
| Rlp.RlpEncodeList | services/treasury/src/eth/encoding.rs:74-88 | the concatenated items follow 0xc0 plus their length up to 55 bytes, 0xf7 plus the size of the minimal length beyond |
| Rlp.DecodeUndoesEncode | services/treasury/src/eth/encoding.rs:47-88 | every tree is decoded from its encoding, whatever bytes follow, so the code is prefix-free |
| Rlp.EncodeUndoesDecode | services/treasury/src/eth/encoding.rs:56-88 | whatever decodes is the encoding of the tree it decodes to |
| Rlp.DecodeExactlyEncodings | services/treasury/src/eth/encoding.rs:56-88 | a byte string decodes to a tree and a rest if and only if it is the tree's encoding followed by the rest |
| Tx.SignEip1559Tx | services/treasury/src/eth/tx.rs:67-120 | the two buffers are the signing payload and the signed transaction, each a type byte 0x02 and a list |
| Tx.SigningPayloadRoundTrip | services/treasury/src/eth/tx.rs:40-61 | all nine fields are read back from the signing payload |
| Tx.SigningPayloadInjective | services/treasury/src/eth/tx.rs:40-61 | different field tuples never share a signing payload |
| Tx.SignedTxRoundTrip | services/treasury/src/eth/tx.rs:67-120 | what is sent carries exactly the signed fields and the signature |
| Tx.SignedTxAcceptedExactly | services/treasury/src/eth/tx.rs:96-119 | a reader that insists on canonical integers accepts the transaction, and reads what was signed, if and only if neither `r` nor `s` starts with a zero byte |
| Tx.SmallSignatureRejected | services/treasury/src/eth/tx.rs:96-119 | it rejects every `r` below 256 to the 31st |
| Hex.WriteHex | services/treasury/src/eth/encoding.rs:22-29 | the loop writes two lower-case digits per byte |
| Hex.HexRoundTrip | services/treasury/src/eth/encoding.rs:10-29 | encoded bytes decode to themselves with and without the prefix |
| Abi.EncodeReleaseHotPath | services/treasury/src/domain/abi.rs:9-22 | the buffer is the specified release calldata |
| Abi.ReleaseRoundTrip | services/treasury/src/domain/abi.rs:9-22 | recipient, amount and event hash are read back from release calldata |
| Abi.EncodeRebalance | services/treasury/src/domain/abi.rs:30-39 | the buffer is the specified chain-and-amount calldata |
| Abi.ChainAmountRoundTrip | services/treasury/src/domain/abi.rs:30-52 | chain and amount are read back, for `rebalance` and `bridgeReserve` alike |
| Abi.EncodeBridgeIn | services/treasury/src/domain/abi.rs:62-96 | the buffer is the specified head and two tails |
| Abi.BridgeInLayout | services/treasury/src/domain/abi.rs:62-96 | both offsets point at the length word of their argument and the body is whole words |
| Abi.BridgeInRoundTrip | services/treasury/src/domain/abi.rs:62-96 | an offset-following decoder that insists on zero minimal padding reads back message and attestation |
| RelayEvents.WatcherReadsWhatRelayerReads | services/treasury/src/watcher.rs:464-498 | whenever the relayer parses a log the watcher parses the same id, recipient and amount |
| RelayLogs.InitiatedIsRead | services/treasury/src/hot_path.rs:529-574 | from a log with padded sender and recipient in the topics and amount, destination and id in the data, relayer and watcher read back exactly these |
| RelayLogs.LogsReadExactly | services/treasury/src/watcher.rs:464-498 | which initiated and released logs are read at all: exactly those with enough topics and bytes |
| RelayLogs.TransferIsExecuted | services/treasury/src/hot_path.rs:529-574 | the Bank decodes from the relayer's calldata the recipient, amount and id of that log |
| RelayEvents.HonestRelayVerifies | services/treasury/src/hot_path.rs:529-574 | these survive release calldata and an echoing released log, and verify |
| RelayEvents.AlteredReleaseMismatches | services/treasury/src/domain/events.rs:60-66 | a release under the event's id verifies if and only if recipient and amount are the initiated ones |
| RelayEvents.Watcher.constructor | services/treasury/src/watcher.rs:89-124 | the cache starts empty and nothing is paused |
| RelayEvents.Watcher.CacheInitiated | services/treasury/src/watcher.rs:154-200 | the cache becomes the old one updated by every parsed log in order |
| RelayEvents.Watcher.VerifyRelease | services/treasury/src/watcher.rs:265-343 | one task on its own: an already recorded transfer changes nothing; otherwise its classification is recorded with the pause transaction, if an anomaly asked for one and it went through |
| RelayEvents.PauseContract | services/treasury/src/watcher.rs:348-397 | no pause goes through exactly when key, address, RPC or Bank is missing or all three attempts fail; otherwise the first attempt that succeeds is the one |
| RelayEvents.HonestRelayClassified | services/treasury/src/watcher.rs:265-343 | the honest release is verified if and only if the cache holds its event unaltered, and unknown if and only if it holds none |
| RelayEvents.HonestRelayAfterPolls | services/treasury/src/watcher.rs:154-200 | from the poll that saw the log on, through any later polls that bring no other log of its id, the honest release is verified |
| WatcherRuns.UndisturbedVerification | services/treasury/src/watcher.rs:265-343 | the steps of an undisturbed verification do to alerts and pauses what the method does |
| WatcherRuns.AlertsTellPauses | services/treasury/src/watcher.rs:265-343 | under every interleaving and with restarts, an alert that names a pause belongs to a paused transfer, and the first alert of a transfer stands |
| WatcherRuns.AnomaliesPausedExactly | services/treasury/src/watcher.rs:265-397 | at every point of a run the stored anomalies are paused, and stay so while later pauses go through, if and only if no pause failed for a transfer that was neither paused nor recorded |
| WatcherRuns.FailedPauseNeverMadeUp | services/treasury/src/watcher.rs:265-343 | once the alert is stored and no task of the transfer is reacting, no future pauses for it, whatever is polled |
| WatcherRuns.AlertWithoutPause | services/treasury/src/watcher.rs:348-397 | a run that records an unknown release and never pauses for it |
| WatcherRuns.ClassifiedByLatestPoll | services/treasury/src/watcher.rs:154-200 | a release is verified, mismatched or unknown by the latest poll since the last restart that named its id |
| WatcherRuns.HonestTaskVerifiedExactly | services/treasury/src/watcher.rs:265-343 | the task of an honest release is classified as verified if and only if that poll carried its recipient and amount |
| WatcherRuns.RestartPausesHonestRelease | services/treasury/src/watcher.rs:154-343 | a watcher that restarts between an initiated event and its honest release pauses the contract |
| WatcherRuns.NeverPausesTwiceExactly | services/treasury/src/watcher.rs:240-343 | without further polls no transfer pauses twice, if and only if none has, no task that is going to pause is for a paused transfer, and no two such tasks share one |
| WatcherRuns.TwoReleasesPauseTwice | services/treasury/src/watcher.rs:240-245 | two releases of one unknown transfer in one poll can pause twice |
| RelayRepo.Repository.constructor | services/treasury/src/db/relay_repo.rs:22-24 | the table starts empty |
| RelayRepo.Repository.InsertRelayLog | services/treasury/src/db/relay_repo.rs:40-70 | inserts unless the hash has a row |
| RelayRepo.Repository.UpdateRelayLog | services/treasury/src/db/relay_repo.rs:72-91 | sets transaction and status of an existing row |
| RelayRepo.Repository.UpdateRelayLogFailed | services/treasury/src/db/relay_repo.rs:93-105 | marks an existing row failed |
| HotPath.Poller.constructor | services/treasury/src/hot_path.rs:170-176 | a new process has no cursor |
| HotPath.Poller.PollChain | services/treasury/src/hot_path.rs:188-217 | the queried range and the cursor after it, for the one chain |
| HotPath.Poller.PollPasses | services/treasury/src/hot_path.rs:170-221 | the ranges that the passes of one process query for a chain, and the cursor after them |
| HotPath.RestartStartsAtHead | services/treasury/src/hot_path.rs:170-217 | after a restart only the relay log is left and every chain is polled from its head on |
| HotPath.BlocksQueriedOnceExactly | services/treasury/src/hot_path.rs:188-217 | in a process whose heads never decrease, no block is queried twice, and every block from the first head to the last is queried, if and only if no head ran ahead of its cursor by more than 2000 blocks |
| HotPath.BlocksMissedExactly | services/treasury/src/hot_path.rs:188-217 | the blocks no query of such a process ever covers are exactly those some poll skipped |
| HotPath.BlockCanBeMissed | services/treasury/src/hot_path.rs:188-217 | two heads after which a block is never queried in the process |
| HotPath.AtMostOneRelease | services/treasury/src/hot_path.rs:306-424 | in every run with restarts and concurrent tasks, given heads that never decrease, one log per transaction and no transaction mined in two places, each event hash is released at most once, rejected events never and finished ones exactly once |
| HotPath.TwoLogsReleaseTwice | services/treasury/src/hot_path.rs:188-217 | a transaction with two logs is released twice |
| HotPath.FallingHeadReleasesTwice | services/treasury/src/hot_path.rs:188-217 | a head that falls back for one poll leads to a second release |
| HotPath.ReminedReleasesTwice | services/treasury/src/hot_path.rs:188-217 | a transaction that is mined again in a later block is released twice |
| HotPathSafety.NeverTwiceExactly | services/treasury/src/hot_path.rs:306-424 | no future without polls submits a hash twice, if and only if none was, no task that may still submit has a submitted hash, and no two such tasks share one |
| HotPathSafety.PollSafeExactly | services/treasury/src/hot_path.rs:188-217 | a poll keeps it so if and only if no hash it found that is new to the table is submitted, in hand or found twice |
| HotPathSafety.ReleasedOnceExactly | services/treasury/src/hot_path.rs:170-424 | at every point of a run with restarts the tasks in hand cannot submit a hash twice, if and only if every poll of the run was fresh in that sense |
| HotPathSafety.HonestPollsAreFresh | services/treasury/src/hot_path.rs:188-217 | heads that never decrease, one log per transaction and one place per transaction make every poll fresh |
| HotPathSafety.HonestRunReleasesOnce | services/treasury/src/hot_path.rs:170-424 | so such a run never submits a hash twice and never can |
| HotPathTask.RelayEventTask | services/treasury/src/hot_path.rs:306-424 | submits exactly when the event is unknown, configured, active and covered; writes the matching row and no other |
| HotPathTask.UndisturbedTask | services/treasury/src/hot_path.rs:306-424 | the steps of one undisturbed task are enabled in turn and do to table and submissions what the method does |
| ReserveRepo.Repository.constructor | services/treasury/src/db/reserve_repo.rs:19-21 | the table starts empty |
| ReserveRepo.Repository.InsertReserveOp | services/treasury/src/db/reserve_repo.rs:44-71 | inserts a pending row unless the id exists |
| ReserveRepo.Repository.UpdateSubmitted | services/treasury/src/db/reserve_repo.rs:73-92 | sets status, transaction and message id whatever the status |
| ReserveRepo.Repository.UpdateAttestation | services/treasury/src/db/reserve_repo.rs:94-113 | stores message and attestation and leaves the status |
| ReserveRepo.Repository.UpdateRelayed | services/treasury/src/db/reserve_repo.rs:115-128 | sets relayed and the destination transaction whatever the status |
| ReserveRepo.Repository.UpdateCompleted | services/treasury/src/db/reserve_repo.rs:130-142 | sets completed whatever the status |
| ReserveRepo.Repository.UpdateFailed | services/treasury/src/db/reserve_repo.rs:144-156 | sets failed whatever the status |
| ReserveRepo.Repository.FindByDestAndMessageId | services/treasury/src/db/reserve_repo.rs:236-275 | a row with that destination and message id, or none if there is none |
| ReservePath.AtMostOneBridgeIn | services/treasury/src/reserve_path.rs:536-640 | under every interleaving of planner, relayer, watcher and restarts each op is handed to `submit_bridge_in` at most once, and only attested |
| ReservePath.StatusIsEarned | services/treasury/src/reserve_path.rs:768-836 | while the planner takes up no clashing id: a relayed row has source transaction, message id and attestation and was dispatched; a completed row has a message id whose completion event was observed on its destination |
| ReservePath.StatusIsEarnedExactly | services/treasury/src/reserve_path.rs:405-446 | at every point of a run the loops can only bring about earned statuses, if and only if the planner never took up the id of a bridged row that is not completed or is still in hand |
| ReservePath.ClashHappens | services/treasury/src/reserve_path.rs:405-446 | an op that fails on its way can be planned again under its id while nothing of its pair is in flight, and an unearned status lies ahead then |
| ReservePath.CompletedStaysExactlyWhenUnheld | services/treasury/src/db/reserve_repo.rs:115-156 | in every reachable state a completed row stays completed in all futures with new ids if and only if planner, relayer and stuck list do not hold the op |
| ReservePath.CompletedCanBeLost | services/treasury/src/reserve_path.rs:547-640 | a reachable completed row that does not stay completed: the completion event overtook the relayer |
| ReserveTask.RelayOne | services/treasury/src/reserve_path.rs:547-640 | an unattested row stays as it is; otherwise message and attestation are stored and the row keeps its status without a configured destination, is relayed with its transaction if it was dispatched and went through, and fails otherwise; no other row changes |
| ReserveTask.UndisturbedRow | services/treasury/src/reserve_path.rs:536-640 | the relayer's steps for an undisturbed row are enabled in turn and do to table and submissions what the method does |
| ReserveTransfer.TransferCompletes | services/treasury/src/reserve_path.rs:405-640 | from any quiet state a new op can be planned, bridged, attested, relayed and completed, and its row then carries every value of the way, with one dispatch |
| ReserveTransfer.StrandedForGood | services/treasury/src/db/reserve_repo.rs:158-275 | an op bridged without a message id is never attested, relayed or completed in any run with new ids: all its row can become is failed |
| ReserveTransfer.StuckIsFailedExactly | services/treasury/src/db/reserve_repo.rs:277-315 | exactly a pending, submitted or relayed op can be listed as stuck, and its row then becomes failed and nothing else |
| DrainRepo.Repository.constructor | services/treasury/src/db/decommission_repo.rs:16-18 | the table starts empty |
| DrainRepo.Repository.InsertHolderOp | services/treasury/src/db/decommission_repo.rs:41-68 | inserts a pending row unless the id exists |
| DrainRepo.Repository.Mark | services/treasury/src/db/decommission_repo.rs:70-121 | overwrites the status of an existing row |
| Decommission.ResolveHolders | services/treasury/src/decommission_runtime.rs:402-436 | the dedup loop gives the specified holders |
| Decommission.ResolvedHolders | services/treasury/src/decommission_runtime.rs:402-436 | they are distinct up to case, come from the index with their balance, and hold something |
| Decommission.Orchestrator.constructor | services/treasury/src/decommission.rs:101-118 | no call has been made |
| Decommission.Orchestrator.DrainHolder | services/treasury/src/decommission.rs:162-224 | one holder is recorded, bridged once, and completed exactly if bank and user service accept |
| Decommission.Orchestrator.DrainHolders | services/treasury/src/decommission.rs:154-224 | the loop bridges exactly the holders not completed before, in order |
| Decommission.PlannedCarryOut | services/treasury/src/decommission.rs:145-243 | the calls of a plan bridge exactly the holders not completed, each for its amount, drain the pool and the reserve once each if and only if their amounts are not zero and of exactly these, bridges before pool before reserve, and ask for the sum of all |
| Decommission.SettledRows | services/treasury/src/decommission.rs:154-224 | every attempted holder ends completed if bank and user service accepted and failed otherwise, and every other row is as it was |
| Decommission.SuccessesCounted | services/treasury/src/decommission.rs:154-224 | the drained count is the number of attempted holders that succeeded |
| Decommission.Orchestrator.RunDrainPlan | services/treasury/src/decommission.rs:145-243 | an inactive target makes no call; otherwise the new calls carry the plan out as `PlannedCarryOut` spells it, and the rows are settled for the remaining holders |
| Decommission.Orchestrator.HandleMarkDecommissioning | services/treasury/src/decommission.rs:120-143 | collects the funded addresses and carries their plan out: holders, pool and reserve with their amounts, in that order |
| Decommission.BuiltPlanBridgesOnce | services/treasury/src/decommission_runtime.rs:402-436 | plans built from the index always do, and attempt no completed holder |
| DrainIndex.EveryHolderBridgedOnce | services/treasury/src/decommission_runtime.rs:68-82 | on every answer of the index query both entry points run the same plan, and it bridges every funded, uncompleted holder of the index once, with the whole balance |
| DrainIndex.FundedAreListed | services/treasury/src/decommission_runtime.rs:68-82 | nobody with a positive indexed balance is missing from the query's answer |
| DrainRuns.DrainRuntime.constructor | services/treasury/src/main.rs:207-210 | a restarted service runs no drain and remembers the resumable pair |
| DrainRuns.DrainRuntime.Start | services/treasury/src/server.rs:202-253 | starts exactly when no drain runs, no other pair is resumable and the plan moves something; otherwise nothing changes |
| DrainRuns.DrainRuntime.Finish | services/treasury/src/server.rs:255-267 | nothing runs afterwards and the resumable pair is kept exactly if ops are incomplete |
| DrainRuns.UnfinishedPairGoesFirst | services/treasury/src/server.rs:202-267 | after a drain ends another pair may start if and only if no holder is left pending or submitted |
| DrainRuns.DrainsAreSafe | services/treasury/src/server.rs:202-267 | over all starts, crashes and restarts no two drains run at once, a task bridges a holder at most once, a completed holder is never bridged again for the pair, and pool and reserve come after every remaining holder |
| DrainTask.UndisturbedDrain | services/treasury/src/decommission.rs:145-243 | an undisturbed drain in the step relation settles the table as the method does, bridges the remaining holders in turn and then drains pool and reserve of their amounts; an inactive target leaves everything as it was |
| AccountEvents.BalanceIsFeed | services/treasury/src/db/account_event_repo.rs:106-149 | the balance is the signed sum of the user's feed on the chain plus their transfers to themselves |
| AccountEvents.ActivityShown | services/treasury/src/domain/activity.rs:19-119 | a row is in exactly its parties' feeds, under its chain, amount, transaction and time; money goes out of the sender's and into the receiver's; the counterparty is the other party; only an initiated transfer is not simply completed |
| AccountEvents.RelayStatusShown | services/treasury/src/domain/activity.rs:121-131 | an initiated transfer is completed for exactly "completed", failed for exactly "failed" and every text that starts with "rejected", pending for exactly none and "pending", and any other status is shown as it is |
| AccountEvents.BalancesConserve | services/treasury/src/db/account_event_repo.rs:106-149 | all balances of a chain add up to deposits minus withdrawals minus initiated plus released |
| AccountIndex.ParsedRows | services/treasury/src/account_index.rs:302-517 | every parsed row has the log's key and kind and the addresses its kind needs, in lower case; `AccountLogs` says which |
| AccountLogs.DepositIsRead | services/treasury/src/account_index.rs:407-430 | the row of a deposit log: its user as receiver, its amount, no sender |
| AccountLogs.WithdrawalIsRead | services/treasury/src/account_index.rs:432-455 | the row of a withdrawal log: its user as sender, its amount, no receiver |
| AccountLogs.InitiationIsRead | services/treasury/src/account_index.rs:457-488 | the row of an initiated log: sender from topic 1, recipient from topic 2, amount from the first word and event hash from the third |
| AccountLogs.ReleaseIsRead | services/treasury/src/account_index.rs:490-517 | the row of a released log: recipient, amount, and the transfer topic as correlation |
| AccountLogs.TransferIsRead | services/treasury/src/account_index.rs:340-381 | the row of a token transfer: both parties and the amount, and no row if either is the Bank in any spelling |
| AccountLogs.BankLogReadExactly | services/treasury/src/account_index.rs:389-517 | a bank log is read if and only if it has the topics and data bytes its kind needs |
| AccountLogs.TransferLogReadExactly | services/treasury/src/account_index.rs:340-381 | a token log is read if and only if it has three topics and enough bytes and names the Bank on neither side |
| AccountLogs.BankLogsMoveBalances | services/treasury/src/account_index.rs:407-517 | storing the row of a new deposit or release credits its user with its amount, a withdrawal debits it, and nobody else's balance on any chain changes |
| AccountLogs.InitiationMovesBalances | services/treasury/src/account_index.rs:457-488 | storing the row of a new initiated log debits its sender and nobody else |
| AccountLogs.TransferMovesBalances | services/treasury/src/account_index.rs:340-381 | storing the row of a new token transfer moves its amount from its sender to its receiver |
| AccountLogs.NamesDiffer | services/treasury/src/account_index.rs:389-395 | different addresses have different names in the index |
| AccountIndex.Indexer.constructor | services/treasury/src/account_index.rs:74-96 | the table, cursors and notifications start empty |
| AccountIndex.Indexer.UpsertEvent | services/treasury/src/db/account_event_repo.rs:25-58 | inserts unless the key exists and says which |
| AccountIndex.Indexer.IngestRow | services/treasury/src/account_index.rs:237-258 | stores the row and notifies exactly for a newly stored first deposit |
| AccountIndex.Indexer.IndexChain | services/treasury/src/account_index.rs:129-195 | ingests all rows of the range with their notifications and moves the chain's cursor behind the head |
| AccountIndex.ReingestionIsNeutral | services/treasury/src/account_index.rs:129-195 | ingesting already ingested rows again changes no row and no balance |
| AccountIndex.IndexedTableIsParsed | services/treasury/src/account_index.rs:237-258 | the table only ever holds parsed rows, so the balance laws apply to it |
| AccountIndex.Indexer.IndexChainInterrupted | services/treasury/src/account_index.rs:129-195 | a call that dies after storing some rows leaves the cursor where it was |
| AccountIndex.Indexer.IndexPasses | services/treasury/src/account_index.rs:129-195 | the ranges that successive completed and interrupted calls query for a chain, and the cursor after them |
| AccountIndex.BlocksQueriedExactly | services/treasury/src/account_index.rs:129-195 | over all restarts, completed and interrupted calls alike, with heads that never decrease: every block from the start to the last head is queried if and only if no head ran ahead of all earlier ones by more than 2000 blocks |
| AccountIndex.BlocksIngestedExactly | services/treasury/src/account_index.rs:129-195 | every block up to the last completed head is ingested by a completed call if and only if no completed call found the head ahead of the completed ones before it by more than 2000 blocks |
| AccountIndex.BlocksNotQueriedExactly | services/treasury/src/account_index.rs:129-195 | the blocks that no call ever queries are exactly those some call skipped |
| AccountIndex.QueryStarts | services/treasury/src/account_index.rs:129-160 | a query starts behind the head of the last completed call, at most at the head and at most 2000 blocks back |
| AccountIndex.InterruptedLeaveNoTrace | services/treasury/src/account_index.rs:129-195 | interrupted calls change nothing about the ranges of completed ones |
| AccountIndex.BlockCanBeMissed | services/treasury/src/account_index.rs:129-195 | two calls after which a block was never queried |
| AccountIndex.HomeChainPushedOnce | services/treasury/src/account_index.rs:237-258 | in every run a user is notified at most once, exactly if they have a deposit whose notification no crash lost, and with the chain of the first |
| AccountIndex.LostForGood | services/treasury/src/account_index.rs:237-258 | a lost notification is never made up for |
| AccountIndex.NotificationCanBeLost | services/treasury/src/account_index.rs:237-258 | a crash after a first deposit loses it |
| Sorting.SortByIsSort | apps/cre-workflows/src/scoring-engine.ts:214-228 | under a consistent comparator the result has the same elements once each, in order |
| Sorting.SortedUnique | apps/cre-workflows/src/scoring-engine.ts:214-228 | a set of elements has only one sorted listing |
| Sorting.SortIgnoresOrderExactly | apps/cre-workflows/src/scoring-engine.ts:214-228 | under an antisymmetric comparator sorting gives one result for every order of its input if and only if no three elements form a cycle |
| Scoring.ScoreInUnitInterval | apps/cre-workflows/src/scoring-engine.ts:162-212 | every score lies in [0, 1] and is the exact sum of its rounded components |
| Scoring.BetterScoresNoLower | apps/cre-workflows/src/scoring-engine.ts:162-212 | a chain no dearer, no slower, as reliable and as liquid never scores lower |
| Scoring.EndsEarn | packages/shared-types/src/scoring-schema.ts:10-51 | on ranges above epsilon, in both copies, the least fee earns 0.35, the least latency 0.3, the greatest reliability 0.25 and the greatest liquidity 0.1, and the other ends earn nothing |
| Scoring.ComponentIsShare | apps/cre-workflows/src/scoring-engine.ts:162-192 | a component is its weight's share of the value's distance from the bad end of the range, to half a millionth |
| Scoring.NarrowRangeEarnsAll | apps/cre-runtime/cre-evaluator/main.ts:312-337 | on a range no wider than epsilon every value earns the whole weight; in the copy, on a narrower one |
| Scoring.RoundsHalfUp | apps/cre-workflows/src/scoring-engine.ts:83-85 | a score or component is a whole number of millionths, the next one to the exact value and the upper one at a half |
| Scoring.ComponentDiffers | apps/cre-runtime/cre-evaluator/main.ts:312-337 | at a range of exactly epsilon the worst value gets the full weight from the engine and nothing from its copy |
| Scoring.DominatedTie | apps/cre-workflows/src/scoring-engine.ts:194-199 | a chain no worse in any component ties only with equal components |
| Ranking.RankingIgnoresOrderExactly | apps/cre-workflows/src/scoring-engine.ts:132-228 | the engine's ranking of distinct chains does not depend on the order of allowedChains, if and only if its comparator puts no three of them before one another in a circle |
| Ranking.RankingIgnoresOrder | apps/cre-workflows/src/scoring-engine.ts:132-228 | so it does not for chains without near ties |
| Ranking.NoNearTiesFromRaws | apps/cre-workflows/src/scoring-engine.ts:79-81 | there are no near ties if distinct raw reliabilities and latencies are more than epsilon apart |
| Ranking.InlineRankingIgnoresOrder | apps/cre-runtime/cre-evaluator/main.ts:286-354 | the copy's ranking of distinct chains never does |
| RankingLaws.BetterRanksEarlier | apps/cre-workflows/src/scoring-engine.ts:214-228 | where the comparator is not circular, a chain at least as good on all metrics comes first unless score, reliability and latency all tie |
| RankingLaws.BetterRanksEarlierUnlessEqual | apps/cre-workflows/src/scoring-engine.ts:214-228 | without near ties, unless all three are equal |
| RankingLaws.EngineFalls | apps/cre-workflows/src/scoring-engine.ts:214-228 | scores fall along every ranking of the engine, near ties and repeated chains included |
| RankingLaws.InlineBetterRanksEarlier | apps/cre-runtime/cre-evaluator/main.ts:339-351 | in the copy it comes first unless all four components tie |
| RankingLaws.CopiesAgreeExactly | apps/cre-runtime/cre-evaluator/main.ts:286-337 | both copies give every chain the same components and score if and only if no metric's range is exactly epsilon |
| RankingLaws.CopiesOrderAlike | apps/cre-runtime/cre-evaluator/main.ts:339-351 | then they order any two chains with different scores the same way, near ties and repeated chains included |
| RankingLaws.CopiesBreakLatencyTiesApart | apps/cre-runtime/cre-evaluator/main.ts:343-350 | of two distinct chains tied on score and reliability with different latency components the engine puts the faster first and the copy puts it last, if no chains nearly tie and no range is exactly epsilon |
| RankingLaws.CopyPutsSlowerFirst | apps/cre-runtime/cre-evaluator/main.ts:343-350 | for all distinct chains, of two tied on score and weighted reliability the copy puts the slower first |
| RankingLaws.CopiesListAlikeExactly | apps/cre-runtime/cre-evaluator/main.ts:339-351 | where the engine's comparator is not circular, both copies list all distinct chains in the same order if and only if their comparators agree on every two |
| RankingTies.NearTiesHaveNoOrder | apps/cre-workflows/src/scoring-engine.ts:214-228 | three chains, each within epsilon of the next but not the first of the last, admit no sorted ranking at all |
| RankingTies.NearTiesHappen | apps/cre-workflows/src/scoring-engine.ts:214-228 | there is such a run |
| RankingTies.OrderCanMatter | apps/cre-workflows/src/scoring-engine.ts:214-228 | two orders of the same distinct chains that the engine ranks differently |
| RankingTies.LatencyTiesHappen | apps/cre-runtime/cre-evaluator/main.ts:343-350 | there is a run with two chains tied on score and reliability that the two copies order differently |
| RankingTies.CopiesCanDisagree | apps/cre-runtime/cre-evaluator/main.ts:312-337 | there is a run in which the two copies give a chain different components |
| ScoreRun.BuildCompletedMetrics | apps/cre-workflows/src/scoring-engine.ts:87-130 | first row per chain, fallbacks for what is missing, and exactly the metrics some chain lacks |
| ScoreRun.MissingMetricsFilled | packages/shared-types/src/scoring-schema.ts:53-66 | a run works on the first row of a chain and, where that reports nothing, on 35, 220, 0.965, 0.75 or when congested 85, 480, 0.9, 0.55 |
| ScoreRun.ScoreRow | apps/cre-workflows/src/scoring-engine.ts:163-212 | the metric loop gives the components and score that `Scoring` fixes by direction, weight and range |
| ScoreRun.ScoreRunV1 | apps/cre-workflows/src/scoring-engine.ts:132-228 | an error exactly when every chain is decommissioned; otherwise the ranking of the remaining chains by score, its first chain and that chain's score |
| ScoreRun.DecommissionedLeaveNoTrace | apps/cre-workflows/src/scoring-engine.ts:132-149 | the ranking is the one of a run in which decommissioned chains never appeared |
| ScoreRun.ScoreRowInline | apps/cre-runtime/cre-evaluator/main.ts:312-337 | the copy's loop, with its running total, gives the components and score that `Scoring` fixes for it |
| ScoreRun.ScoreChains | apps/cre-runtime/cre-evaluator/main.ts:286-354 | the copy's ranking by its own scores, empty for no chains |
| ScoreRun.ClassifyActivationByThreshold | apps/cre-workflows/src/scoring-engine.ts:295-324 | an error exactly outside [0, 1]; otherwise the surviving chains that reach the threshold and those that do not |
| ScoreRun.ClassifyActivation | apps/cre-runtime/cre-evaluator/main.ts:356-370 | the same without the two checks |
| ScoreRun.ActiveChainsArePrefix | apps/cre-workflows/src/scoring-engine.ts:295-324 | after every run, near ties and repeated chains included, the active chains are a prefix of the surviving ranking, cut exactly at the threshold |
| ScoreRun.InlineActiveChainsArePrefix | apps/cre-runtime/cre-evaluator/main.ts:356-370 | the same for the copy |
| ConfigStore.Adapter.constructor | packages/shared-types/src/config-store-adapter-impl.ts:203-208 | the store starts empty |
| ConfigStore.Adapter.Upsert | packages/shared-types/src/config-store-adapter-impl.ts:103-141 | answers and changes the store as a replay or a write, storage error included; what a write stores is said by `SnapshotHoldsLatest` |
| ConfigStore.Adapter.UpdateScenario | packages/shared-types/src/config-store-adapter-impl.ts:143-187 | answers and changes the store as specified, including the update without a configuration |
| ConfigStore.VersionCountsWrites | packages/shared-types/src/config-store-adapter-impl.ts:48-73 | after any calls a customer's version is the number of calls that wrote for them |
| ConfigStore.SnapshotHoldsLatest | packages/shared-types/src/config-store-adapter-impl.ts:48-73 | after any calls a customer's snapshot has chains, active flag and threshold of their latest writing upsert, the scenario of their latest writing scenario update or "normal", and the time of their latest writing call |
| ConfigStore.WriteAnswersSnapshot | packages/shared-types/src/config-store-adapter-impl.ts:103-187 | the reply to a writing call carries that snapshot and, for a scenario update, its time |
| ConfigStore.WritesExactly | packages/shared-types/src/config-store-adapter-impl.ts:103-187 | a call that is no replay writes unless it is a scenario update of a customer nobody has written for, which answers nothing |
| ConfigStore.WriteAnswersItsNumber | packages/shared-types/src/config-store-adapter-impl.ts:103-187 | the n-th write for a customer answers with version n |
| ConfigStore.ReplayChangesNothing | packages/shared-types/src/config-store-adapter-impl.ts:103-187 | a replay leaves the store as it is |
| ConfigStore.ReplayExactly | packages/shared-types/src/config-store-adapter-impl.ts:103-187 | a call is replayed if and only if the latest call with its key was the same operation, and then with that call's snapshot and time |
| ConfigStore.ReplayRepeatsFirst | packages/shared-types/src/config-store-adapter-impl.ts:103-187 | while no key stands for two operations every later call with a key repeats the first answer, a snapshot of the first caller |
| ConfigStore.ReusedRequestIdWritesAgain | packages/shared-types/src/config-store-adapter-impl.ts:143-187 | a request id reused for the other operation makes a repeated upsert write again |
| ConfigStore.OwnSnapshotExactly | packages/shared-types/src/config-store-adapter-impl.ts:103-187 | a reply with a snapshot carries the caller's own, if and only if it is no replay or the call that wrote the record came from the same customer |
| ConfigStore.KeysCollideExactly | packages/shared-types/src/config-store-adapter-impl.ts:216-217 | two requests share a key if and only if the longer customer id continues the shorter by a text that fits its separator and request id |
| ConfigStore.CustomersCollideExactly | packages/shared-types/src/config-store-adapter-impl.ts:216-217 | two customers can be given colliding requests if and only if one id is the other followed by ":" alone or by "::" and anything |
| ConfigStore.NoStrangersSnapshot | packages/shared-types/src/config-store-adapter-impl.ts:103-187 | while no customer id is so continued by another, every snapshot replied is the caller's own |
| ConfigStore.NoColonKeepsApart | packages/shared-types/src/config-store-adapter-impl.ts:216-217 | in particular when no customer id contains a colon |
| ConfigStore.CollidingKeysLeakReply | packages/shared-types/src/config-store-adapter-impl.ts:216-217 | whenever two customers' requests collide, the second gets the first one's snapshot, and gets it again on repeating |

## Left out

- JSON-RPC, gRPC, HTTP, Postgres connections and Circle's service: heads, logs, depths, answers and failures are arbitrary inputs of steps and methods.
- Database errors, which the code logs and swallows: every statement takes effect.
- keccak256, ECDSA and the selectors derived from hashes: opaque values.
- The nonce caches and the retry loops around submissions: one submission has one outcome.
- The on-chain effect of a transaction that times out: amounts are those of confirmed receipts.
- The Solidity contracts: only the echo of a release in its log is assumed, and only where a member says so; nothing relates the indexed balance to `balanceOf`.
- The route-receiver loops and active-chain sets: whether a chain is active is an input.
- `op_in_flight` of the reserve path, which ops its planner submits and how old a stuck row is: every choice is a step, so the theorems hold for the planner's in-flight window and for every other.
- `list_awaiting_attestation` and `list_stuck`: their LIMIT and ORDER BY, since any listing in any order is a step.
- The activity feed's LIMIT and order: the feed is the whole one.
- IEEE 754 rounding and `toFixed` in scoring: exact reals with half-up rounding. `localeCompare` is a given total order.
- `Array.prototype.sort` under an inconsistent comparator is implementation-defined; `Sorting.SortBy` is the stable insertion sort. What is said of circular comparators is said of that sort, except `NearTiesHaveNoOrder`, which holds for every listing.
- Reason codes of the two scorers, and a scenario name outside the two known ones.
- Hex and addresses outside ASCII, and `decode_active_chains_from_event` on arbitrary offsets.
- Storage-failure simulation, audit records and overlapping async calls of the config store: calls run one after the other.
- `run-state-machine.ts`, `destination-confirmation.ts`, `send-routing.ts`, `balance.rs`, the user service, the bank client and its user interface: small branchings, thin wrappers or user interface.
- Topic and message-id extraction from receipts: the message id is an input.
- The dispatch of a bank log on its signature topic, derived from a hash: the kind of a log is an input of its parser.
