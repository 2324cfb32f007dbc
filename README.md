# ARCx liquidation bot — a Dafny model of its core

The bot watches the Sapphire cores of the ARCx credit protocol. It finds the vaults whose
collateral ratio has fallen to or below the ratio the protocol demands of the borrower's
credit score, and liquidates them through the flash-liquidator contract. This project
models the bot's core in Dafny and proves properties of the model:

- **The liquidation test** (`src/helpers/checkLiquidatable.ts`), in module `Assessor`. It
  covers:
  - the score-proof fallback, including `formatBytes32String` over UTF-8;
  - the assessed ratio computed with BigNumber's truncating division;
  - the zero-debt early return;
  - the 18-decimal fixed-point current ratio.
- **The contract registry** (`src/lib/loadContracts.ts`), in module `Registry`: the four
  deployment tables and the partial-match lookup.
- **Steps both engines share**, in modules `Parameters`, `Borrowers` and `Cycle`:
  - parameter validation;
  - borrower discovery from `Borrowed` logs;
  - assessment of the tracked borrowers;
  - the liquidation submissions.

  `Cycle.ChainReads` is one snapshot of everything a cycle reads. A read that throws is a
  missing map key or a member of `failedReads`.
- **The append-only engine** (`src/coreLiquidator.ts`), class
  `AppendOnlyEngine.CoreLiquidator`:
  - it only ever adds to its known borrowers;
  - it submits liquidations one by one;
  - it guards its polling loop with a lock.
- **The pruning engine** (`src/ARCx/CoreLiquidator.ts`), class `PruningEngine.CoreLiquidator`:
  - it keeps only borrowers with debt;
  - it advances its block cursor after each successful cycle;
  - it submits liquidations concurrently.

  A cycle is also given as the pure function `PruningEngine.PollCycle` over the two fields
  it changes.
- **The supervisor** (`src/ARCx/ArcxLiquidator.ts`), class `Supervisor.ArcxLiquidator`,
  with its singleton slot. It builds one pruning engine per Polygon core, polls them all,
  and throttles a daily report.

Time, the chain, the score API and the transaction outcomes are parameters (`ChainReads`,
`Execution`, `now`). Integers are unbounded, as BigNumber is. Division is written out
where its rounding matters.

## Model

| member | source | states |
|---|---|---|
| Registry.LoadContractsForNetwork | src/lib/loadContracts.ts:40-56 | each network name and its chain id select the same table; any other string gives the empty table |
| Registry.LoadContracts | src/lib/loadContracts.ts:22-37 | the result is a subsequence of the network's table, in table order, holding exactly the entries that match every non-empty filter field |
| Registry.NetworkOnlyGivesWholeTable | src/lib/loadContracts.ts:30-37 | with only the network given, the whole table is returned |
| Registry.LoadContract | src/lib/loadContracts.ts:8-20 | no match gives "no contracts found", several give "more than one"; success iff exactly one entry matches, and the result is that entry |
| Registry.LoadContractFindsTheUniqueMatch | src/lib/loadContracts.ts:8-20 | a contract that is found is in the network's table, matches the filter, and equals every other matching entry |
| Registry.UnknownNetworkHasNoContract | src/lib/loadContracts.ts:54-55 | on an unknown network the lookup always reports that nothing was found |
| Parameters.GetCoreParameters | src/coreLiquidator.ts:157-177 | succeeds iff high ratio, low ratio and borrow index are non-zero and the protocol is non-empty; each zero gives its own error in source order; on success the six values are passed on unchanged |
| Assessor.Utf8 | src/helpers/checkLiquidatable.ts:23 | one to four bytes; one byte iff ASCII; first byte 0 iff NUL; continuation bytes in 0x80..0xBF |
| Assessor.Utf8Encode | src/helpers/checkLiquidatable.ts:23 | the encoding takes between one and four bytes per character, exactly one per character for ASCII text, and has no zero byte when the text has no NUL |
| Assessor.FormatBytes32String | src/helpers/checkLiquidatable.ts:23 | succeeds iff the encoding has at most 31 bytes (otherwise the too-long error); the result is 32 bytes: the encoding followed by zeros |
| Assessor.Bytes32RoundTrip | src/helpers/checkLiquidatable.ts:23 | reading a formatted bytes32 up to its first zero byte gives back the text's encoding |
| Assessor.ProofUsed | src/helpers/checkLiquidatable.ts:18-23 | a fetched proof is used unchanged; without one, the empty proof for the account and the bytes32 protocol, which fails only when the protocol is too long |
| Assessor.TruncDiv | src/helpers/checkLiquidatable.ts:27 | the quotient has the dividend's sign and lies within one divisor of it toward zero (truncation, not floor) |
| Assessor.TruncDivOdd | src/helpers/checkLiquidatable.ts:27 | truncating division is symmetric: the quotient of `-a` is the negated quotient of `a` |
| Assessor.TruncDivOfMultiple | src/helpers/checkLiquidatable.ts:27 | exact quotients come back unchanged for either sign |
| Assessor.AssessedCRatioEndpoints | src/helpers/checkLiquidatable.ts:25-27 | score 0 is assessed at the high ratio and the maximum score at the low ratio |
| Assessor.AssessedCRatioBounds | src/helpers/checkLiquidatable.ts:25-27 | with ordered bounds and an in-range score, the assessed ratio lies between low and high |
| Assessor.AssessedCRatioNonIncreasing | src/helpers/checkLiquidatable.ts:25-27 | with ordered bounds, a higher score never raises the demanded ratio |
| Assessor.AssessedCRatioAtMostHigh | src/helpers/checkLiquidatable.ts:25-27 | with ordered bounds, no score is assessed above the high ratio |
| Assessor.CheckLiquidatable | src/helpers/checkLiquidatable.ts:10-47 | success iff the proof is settled, the maximum score is positive and a debtor's debt does not round to zero; each failure's error; zero debt gives no ratio and not liquidatable; otherwise the assessed ratio is reported and the vault is liquidatable iff its current ratio is at most that ratio |
| Assessor.FallbackDemandsHighRatio | src/helpers/checkLiquidatable.ts:23-27 | without a score proof a debtor is held to the high ratio with score 0 |
| Assessor.FallbackIsMostConservative | src/helpers/checkLiquidatable.ts:23-44 | a vault liquidatable under some proof is liquidatable under the fallback proof |
| Assessor.HigherScoreNeverMoreLiquidatable | src/helpers/checkLiquidatable.ts:25-44 | a vault liquidatable under a higher score is liquidatable under any lower one |
| Assessor.LessCollateralStaysLiquidatable | src/helpers/checkLiquidatable.ts:37-44 | a liquidatable vault stays liquidatable with less collateral |
| Assessor.MoreDebtStaysLiquidatable | src/helpers/checkLiquidatable.ts:37-44 | a liquidatable vault stays liquidatable with more debt |
| Assessor.IndexAtLeastOneUnitNeverDividesByZero | src/helpers/checkLiquidatable.ts:27-39 | with a positive maximum score and an index of at least one unit, the assessment never throws once the proof is settled |
| Assessor.ZeroMaxScoreThrows | src/helpers/checkLiquidatable.ts:27 | a snapshot with maximum score 0 passes validation, and the assessment of a debtor under it throws |
| Assessor.SmallBorrowIndexThrows | src/helpers/checkLiquidatable.ts:37-39 | a validated snapshot with an index below one unit makes a small debt denormalize to zero and the ratio division throw |
| Assessor.AtTheLimitIsLiquidatable | src/helpers/checkLiquidatable.ts:40-44 | a vault whose ratio equals the assessed ratio (150% at half the maximum score) is liquidatable |
| Borrowers.HexStripZeros | src/coreLiquidator.ts:195 | succeeds iff the input is a hex string; the result is a hex string with no leading zero digit |
| Borrowers.HexStripZerosKeepsAddress | src/coreLiquidator.ts:195 | as written, an address whose first hex digit is not 0 is recovered from its topic |
| Borrowers.HexStripZerosShortensAddress | src/coreLiquidator.ts:195 | as written, an address whose first hex digit is 0 comes back shorter and is no longer an address |
| Borrowers.TopicAddress | src/coreLiquidator.ts:195 | succeeds iff the topic is 32 bytes of hex; the result is always a 20-byte address |
| Borrowers.TopicAddressRoundTrip | src/coreLiquidator.ts:195 | the corrected extraction gives back every address from the topic it is logged under |
| Borrowers.BorrowersFromLogs | src/coreLiquidator.ts:195 | one borrower per log, in log order; a log without a valid topic 1 makes it fail as malformed |
| Borrowers.IndexOf | src/coreLiquidator.ts:197 | -1 iff absent; otherwise the first index holding the value |
| Borrowers.Unique | src/coreLiquidator.ts:194-201 | the same members, no duplicates, kept in order of first occurrence |
| Borrowers.UniqueOfDistinct | src/coreLiquidator.ts:194-201 | a list without duplicates is left unchanged |
| Borrowers.NewBorrowers | src/coreLiquidator.ts:189-201 | succeeds iff every log yields a borrower; the result has no duplicates, holds exactly the logged borrowers not already known, and keeps them in the order of their first log |
| Borrowers.AppendNewBorrowersKeepsDistinct | src/coreLiquidator.ts:39-40 | appending the new borrowers to a duplicate-free list keeps it duplicate-free |
| Borrowers.RescanFindsNobody | src/coreLiquidator.ts:189-191 | rescanning the same logs after appending what they gave finds nobody new |
| Cycle.LogsInRange | src/coreLiquidator.ts:183-189 | a log is returned iff it was mined in a block within the range |
| Cycle.GetLogs | src/coreLiquidator.ts:183-189 | the logs from the cursor (or the head, when the cursor is undefined) to the head; fails iff the log read fails |
| Cycle.FetchNewBorrowers | src/coreLiquidator.ts:180-201 | succeeds iff the logs are read and parsed; the result has no duplicates, holds exactly the borrowers logged in the range that are not tracked, and keeps them in the order of their first log |
| Cycle.NoLogNoDiscovery | src/ARCx/CoreLiquidator.ts:160-172 | a borrower with no log at or after the cursor is not discovered |
| Cycle.FetchParameters | src/coreLiquidator.ts:140-178 | a failed batch read throws; otherwise the validation's result |
| Cycle.ProofsOf | src/coreLiquidator.ts:52 | one proof per account, the one its assessment carries, in account order |
| Cycle.LiquidatableProofs | src/coreLiquidator.ts:44-52 | succeeds iff every assessment succeeds; the result is the proofs of the accounts judged liquidatable, one per account, in account order |
| Cycle.DebtFreeVaultsAreNeverSelected | src/coreLiquidator.ts:44-52 | with every tracked vault free of debt, nothing is selected |
| Cycle.DebtFilterStep | src/coreLiquidator.ts:232-237 | one more vault read adds the account to those with debt exactly when its debt is non-zero |
| Cycle.NatToDecimal | src/coreLiquidator.ts:61 | decimal digits with no leading zero whose value is the number |
| Cycle.FlashLiquidatorOnPolygon | src/coreLiquidator.ts:59-63 | on chain 137 the flash liquidator found is the Polygon table's only entry of that name |
| Cycle.FlashLiquidatorOnUnknownChain | src/coreLiquidator.ts:59-63 | on any chain other than 1, 4, 137 or 80001 the lookup reports that nothing was found |
| Cycle.CallsFor | src/coreLiquidator.ts:74-83 | one liquidate call per proof, in order, to the core with the proof's account, the proof and the gas limit |
| Cycle.LiquidationSetup | src/coreLiquidator.ts:56-70 | succeeds iff the network read, the flash-liquidator lookup and the balance read all succeed; gives the liquidator's address |
| Cycle.Settlement | src/coreLiquidator.ts:90-98 | succeeds iff every transaction is mined and the second balance read succeeds; the gain is the balance difference |
| Cycle.FirstRejected | src/coreLiquidator.ts:74-88 | the index of the first proof whose call is rejected, or the number of proofs when none is |
| AppendOnlyEngine.Discovered | src/coreLiquidator.ts:39-40 | the borrowers appended are exactly the new borrowers discovery returns, none when it throws; none of them is already known, and appending keeps the list duplicate-free |
| AppendOnlyEngine.CycleOfKeepsDistinct | src/coreLiquidator.ts:39-40 | whatever the turn's reads, a cycle appends to a duplicate-free known list only borrowers that keep it duplicate-free |
| AppendOnlyEngine.PollTurnsStopOnThrow | src/coreLiquidator.ts:101-138 | only the last turn of the loop can escape, and a loop that stops before the rounds run out stops on an escape |
| AppendOnlyEngine.PollTurnsLock | src/coreLiquidator.ts:101-134 | the loop leaves the lock held exactly when it was held from the start or its last turn escaped |
| AppendOnlyEngine.PollTurnsWhileLocked | src/coreLiquidator.ts:103-104 | while the lock is held every turn is skipped and neither the known list nor the lock changes |
| AppendOnlyEngine.PollTurnsKnown | src/coreLiquidator.ts:38-40 | the turns only append to the known list, and a duplicate-free list stays duplicate-free |
| AppendOnlyEngine.SequentialLiquidation | src/coreLiquidator.ts:55-99 | a failed setup submits nothing and is the result; otherwise the calls of the proofs before the first rejected one go out, in order, with gas limit 1000000; a rejection makes it throw, and otherwise the settlement is the result |
| AppendOnlyEngine.CycleRunOf | src/coreLiquidator.ts:38-128 | a discovery failure changes and submits nothing; a parameter or assessment failure submits nothing; with no liquidatable vault the cycle completes with no gain and no call, reporting the known count and the count of those with debt; when proofs are found, the calls submitted and the failure are those of the sequential liquidation; a completed cycle reports the proofs of the liquidatable known borrowers, a gain iff some were liquidated (the settlement's gain, after exactly their calls), the known count and the count of those with debt; every call is to this core, with gas limit 1000000, for a proof that was not rejected; the borrowers appended are the discovered ones |
| AppendOnlyEngine.CoreLiquidator.constructor | src/coreLiquidator.ts:14-20 | no known borrowers, cursor at block 0, unlocked |
| AppendOnlyEngine.CoreLiquidator.InitializeLastBlockScanned | src/coreLiquidator.ts:28-36 | only a cursor at block 0 moves, to the receipt's block (possibly undefined); a failed receipt read throws and changes nothing |
| AppendOnlyEngine.CoreLiquidator.GetLiquidatableVaults | src/coreLiquidator.ts:38-53 | the discovered borrowers are appended even when the parameter read then throws; the result is the liquidatable proofs of all known borrowers |
| AppendOnlyEngine.CoreLiquidator.LiquidateVaults | src/coreLiquidator.ts:55-99 | a failed setup submits nothing; otherwise exactly the calls before the first rejected proof, with gas limit 1000000, are submitted; the result is the rejection or the settlement, as `SequentialLiquidation` gives them |
| AppendOnlyEngine.CoreLiquidator.GetActiveBorrowersCount | src/coreLiquidator.ts:228-240 | succeeds iff every known vault is read; the count is the number of known borrowers with debt |
| AppendOnlyEngine.CoreLiquidator.PollCycle | src/coreLiquidator.ts:109-128 | the report, the calls submitted and the borrowers appended are those `CycleRunOf` gives over the known list before the cycle; the known list grows by exactly the discovered borrowers, even when the cycle then fails |
| AppendOnlyEngine.CoreLiquidator.PollIteration | src/coreLiquidator.ts:103-134 | a locked turn is skipped; a failed balance check escapes and leaves the lock taken; otherwise the low-balance alert is reported, the cycle runs over the known list with its run as `CycleRunOf` gives it, and the lock is released; the known list grows by the cycle's discovered borrowers |
| AppendOnlyEngine.CoreLiquidator.PollVaults | src/coreLiquidator.ts:101-138 | the statuses of the turns taken, the known list and the lock afterwards are exactly those of `PollTurns`: each turn runs over the known list the turns before it left, and the loop ends after an escape; the list stays duplicate-free |
| PruningEngine.UpdateAsWritten | src/ARCx/CoreLiquidator.ts:208-222 | as written: every read succeeds iff every account is in the vault map, and then the result is exactly the accounts with debt; otherwise only some of them |
| PruningEngine.UpdatedActive | src/ARCx/CoreLiquidator.ts:208-222 | corrected: succeeds iff every read succeeds; the new list has no duplicates and holds exactly the tracked or found accounts with debt |
| PruningEngine.AsWrittenAgreesWhenReadsSucceed | src/ARCx/CoreLiquidator.ts:208-222 | when every read succeeds, the update as written and the corrected one give the same list |
| PruningEngine.ConcurrentLiquidationResult | src/ARCx/CoreLiquidator.ts:71-118 | a failed setup is reported; any rejected proof makes it throw; otherwise the settlement |
| PruningEngine.ConcurrentSubmitted | src/ARCx/CoreLiquidator.ts:71-107 | a failed setup submits nothing; otherwise one call per proof that is not rejected, as many calls as such proofs and no other, each to this core with gas limit 2000000; distinct proofs give distinct calls |
| PruningEngine.AfterUpdate | src/ARCx/CoreLiquidator.ts:26-33 | assessment and liquidation leave the active list as it is; the outcome succeeds iff the assessment succeeds and, when some vault is liquidatable, so does the concurrent liquidation; then it is the liquidatable proofs of that list and the cursor moves to the head; a failure changes nothing and carries the assessment's or the liquidation's error; no call without a liquidatable vault, otherwise exactly the concurrent liquidation's calls |
| PruningEngine.PollCycle | src/ARCx/CoreLiquidator.ts:23-38 | the cursor moves to the block read at the start iff the cycle succeeds, and the cycle succeeds iff the block read, discovery, the parameter read, the update, the assessment and (when some vault is liquidatable) the liquidation all succeed; a failed block read, discovery, parameter read or update changes nothing and submits nothing; once the update succeeds the active list is its result; the list stays duplicate-free; a successful cycle gives the liquidatable proofs of the new list, and every one of them not rejected is submitted, to this core with gas limit 2000000 |
| PruningEngine.PollCycleAsWritten | src/ARCx/CoreLiquidator.ts:23-38 | as written: the cursor moves iff the cycle succeeds; a failed block read, discovery or parameter read changes nothing and submits nothing; otherwise the active list is what the as-written update pushed, a failed read fails the cycle without a call, and the cycle succeeds iff every read returned and the assessment and any liquidation succeed |
| PruningEngine.IndebtedBorrowerStaysActive | src/ARCx/CoreLiquidator.ts:208-222 | with the corrected update, a tracked borrower whose vault is unread or holds debt stays active |
| PruningEngine.AsWrittenDropsUnreadBorrower | src/ARCx/CoreLiquidator.ts:208-222 | as written, a tracked borrower whose read throws is dropped, and the cycle fails without moving the cursor |
| PruningEngine.UntrackedWithoutNewLogStaysUntracked | src/ARCx/CoreLiquidator.ts:160-172 | an untracked borrower with no log at or after the cursor stays untracked |
| PruningEngine.AsWrittenLosesIndebtedBorrower | src/ARCx/CoreLiquidator.ts:208-222 | as written, a borrower dropped by one failed read is still untracked after the next cycle |
| PruningEngine.IntendedKeepsIndebtedBorrower | src/ARCx/CoreLiquidator.ts:208-222 | corrected, the same two cycles keep the borrower tracked |
| PruningEngine.RepaidBorrowerIsPruned | src/ARCx/CoreLiquidator.ts:208-222 | a borrower whose debt is repaid leaves the list at the next successful update |
| PruningEngine.SubmittedStep | src/ARCx/CoreLiquidator.ts:90-107 | one more proof adds its call exactly when it is not rejected |
| PruningEngine.CoreLiquidator.constructor | src/ARCx/CoreLiquidator.ts:12-16 | no active borrowers, cursor at block 0 |
| PruningEngine.CoreLiquidator.Init | src/ARCx/CoreLiquidator.ts:18-21 | the cursor is initialised as in the append-only engine; then the low-balance alert, or a failed balance read |
| PruningEngine.CoreLiquidator.UpdateActiveBorrowers | src/ARCx/CoreLiquidator.ts:208-222 | the result is the corrected update; the list is replaced only on success |
| PruningEngine.CoreLiquidator.ReadDebtors | src/ARCx/CoreLiquidator.ts:214-221 | succeeds iff every account is read, failing with a read error; gives exactly the accounts with debt, in order |
| PruningEngine.CoreLiquidator.GetLiquidatableVaults | src/ARCx/CoreLiquidator.ts:51-69 | discovery or parameter failures change nothing; otherwise the update, then the liquidatable proofs of the updated list |
| PruningEngine.CoreLiquidator.LiquidateVaults | src/ARCx/CoreLiquidator.ts:71-118 | the submitted calls are, up to order, those `ConcurrentSubmitted` gives; the result is the concurrent result |
| PruningEngine.CoreLiquidator.SubmitCalls | src/ARCx/CoreLiquidator.ts:90-107 | the calls of exactly the non-rejected proofs, and whether any proof was rejected |
| PruningEngine.CoreLiquidator.PollVaults | src/ARCx/CoreLiquidator.ts:23-38 | the new state, the result and, up to order, the calls submitted are those of `PollCycle`, and the list stays duplicate-free |
| Supervisor.LastWithGroup | src/ARCx/ArcxLiquidator.ts:33-38 | none iff no contract has the group; otherwise the entry of the last contract with that group |
| Supervisor.BuildCoresDict | src/ARCx/ArcxLiquidator.ts:29-38 | a key for exactly the groups present, each mapped to the entry of its last contract |
| Supervisor.CoreNames | src/ARCx/ArcxLiquidator.ts:44 | each group once, and exactly the groups present |
| Supervisor.CreateLiquidators | src/ARCx/ArcxLiquidator.ts:49-57 | one fresh, distinct, empty engine per name, with that core's address and creation transaction |
| Supervisor.ArcxLiquidator.constructor | src/ARCx/ArcxLiquidator.ts:11-15 | the last report is dated at the epoch |
| Supervisor.ArcxLiquidator.CreateCoreLiquidators | src/ARCx/ArcxLiquidator.ts:25-57 | one fresh engine per Polygon core group, for the last registry entry of that group |
| Supervisor.ArcxLiquidator.PollAll | src/ARCx/ArcxLiquidator.ts:73-79 | each engine ends in the state of its own cycle |
| Supervisor.ArcxLiquidator.Report | src/ARCx/ArcxLiquidator.ts:81-97 | within a day of the last report nothing happens; otherwise it reports the total of active borrowers and the 5-minute period, and the report date moves to now |
| Supervisor.ArcxLiquidator.Tick | src/ARCx/ArcxLiquidator.ts:62-70 | a poll of every engine followed by the report |
| Supervisor.InstanceSlot.GetInstance | src/ARCx/ArcxLiquidator.ts:17-22 | the first call creates the supervisor; every later call returns that same one, whatever signer it is given |

## Left out

- Logging, Discord mentions, `formatUnits`/`formatEther` and the `console.log` of `report`: output only.
- `getScoreProof`'s HTTP call and its retries: it is the `scoreProofs` map, and a missing entry is `undefined`.
- Multicall, gas-price reads and `_getLiquidatorBalance`'s asset lookup: each is one read that either returns or throws (`Execution`).
- `start()` of the append-only engine and the server entry point, environment variables and timers. `delay` and `setInterval` are a finite sequence of rounds.
- Concurrency: each `Promise.all` is modelled sequentially, with one snapshot of the chain per cycle. Which error a `Promise.all` reports first is not modelled.
- Concurrency: ticks of `setInterval` that overlap, and the un-awaited `forEach` of `init`, are not modelled.
- PruningEngine.CoreLiquidator.LiquidateVaults: the order of the submitted calls is stated only up to a permutation, because concurrent submissions return in any order.
- SapphireArc's `addCores` and `getCoreNames`: taken to list the cores in `coresDict`'s insertion order. Integer-like group keys, which `Object.keys` would reorder, are not modelled.
- `getEmptyScoreProof` (an external library): modelled as a proof of score 0 with an empty Merkle path.
- `_getCoreParameters` checks only the high ratio, the low ratio, the borrow index and the protocol. The price and the maximum score are not checked. The model follows that, and `ZeroMaxScoreThrows` shows the consequence.
- PruningEngine.UpdateAsWritten: the as-written update's pushes are taken in read order and stop at the first failed read. Concurrent reads could push some later accounts too. The lemmas about it hold whatever was pushed, because the failed account is never pushed.
- AppendOnlyEngine.CoreLiquidator.PollCycle: the count read after liquidation reads the same snapshot, so it cannot fail once the assessment succeeded.
- Borrowers.BorrowersFromLogs: the engines extract borrowers with the corrected `TopicAddress`, not `hexStripZeros` as the source does (see Findings). Every member built on discovery inherits this: Cycle.FetchNewBorrowers, Cycle.NoLogNoDiscovery, AppendOnlyEngine.Discovered, AppendOnlyEngine.CycleRunOf, AppendOnlyEngine.CoreLiquidator.GetLiquidatableVaults, AppendOnlyEngine.CoreLiquidator.PollCycle, AppendOnlyEngine.CoreLiquidator.PollIteration, AppendOnlyEngine.CoreLiquidator.PollVaults, PruningEngine.PollCycle, PruningEngine.PollCycleAsWritten, PruningEngine.CoreLiquidator.GetLiquidatableVaults, PruningEngine.CoreLiquidator.PollVaults, Supervisor.ArcxLiquidator.PollAll and Supervisor.ArcxLiquidator.Tick. For an address whose first hex digit is not 0 the two extractions agree (`HexStripZerosKeepsAddress`).
- PruningEngine.CoreLiquidator.UpdateActiveBorrowers: runs the corrected update (`UpdatedActive`), which replaces the list only once every read has returned. The source empties the list first (src/ARCx/CoreLiquidator.ts:212), which `UpdateAsWritten` models.
- PruningEngine.CoreLiquidator.GetLiquidatableVaults: inherits the corrected update from `UpdateActiveBorrowers`.
- PruningEngine.CoreLiquidator.PollVaults: inherits the corrected update; the as-written cycle is `PollCycleAsWritten`.
- PruningEngine.PollCycle: uses the corrected update; `PollCycleAsWritten` is the cycle with the update as written, and the two updates agree whenever every read returns (`AsWrittenAgreesWhenReadsSucceed`).
- Supervisor.ArcxLiquidator.PollAll: each engine runs the cycle with the corrected update.
- Supervisor.ArcxLiquidator.Tick: polls through `PollAll`, so the same holds.
- Cycle.LiquidationSetup: the network read and the two balance reads are the only failures modelled; `getSupportedBorrowAssets` and `decimals` are part of the balance read.

## Findings

| source | as written | input that shows it | evidently intended | confidence | as-written member | corrected member |
|---|---|---|---|---|---|---|
| src/coreLiquidator.ts:195 (also src/ARCx/CoreLiquidator.ts:175) | `hexStripZeros(topic)` strips every leading zero digit, including those of the address itself | a borrower `0x0abc…` (first hex digit 0) comes back as `0xabc…`, 39 digits, which is not an address; every later vault read of it fails, and the append-only engine keeps it forever | take the last 20 bytes of the topic (`hexDataSlice(topic, 12)`), which gives back every address | not executed | Borrowers.HexStripZerosShortensAddress | Borrowers.TopicAddressRoundTrip |
| src/ARCx/CoreLiquidator.ts:211-221 | the active list is emptied before the vault reads, so a read that throws leaves out accounts that still hold debt | a tracked debtor whose vault read throws once is dropped. The cycle fails without moving the cursor, but the debtor's `Borrowed` log lies before the cursor, so it is not found again until it borrows again | replace the list only once every read has returned | not executed | PruningEngine.AsWrittenLosesIndebtedBorrower | PruningEngine.IndebtedBorrowerStaysActive |
