# Sentry core logic, modelled and proved in Dafny

This project models the parts of the Sentry monorepo whose correctness is hardest to see by
reading: the live block indexer with its checkpoint, lease and reorg recovery; the integer
arithmetic of quotes, holder concentration and cost basis; the canonical texts that are hashed
into fingerprints; the single-flight cache; the entitlement state machine; and the walks, scans
and parsers around them. Each `.dfy` file is one component:

| file | component |
|---|---|
| `IndexerModel` | block table, checkpoint row, lease row, remote chain and workers as one labelled step machine; every database or provider call is one atomic step, and forks, errors and crashes may come between any two |
| `IndexerCoverage` | what holds for any number of workers in every run: checkpoint coverage and the lease |
| `IndexerGuards`, `IndexerChain` | exactly when the canonical rows are one parent-linked chain: the guard of each write and the runs that meet them, and the benign runs, which do |
| `IndexerLease` | exactly when the lease keeps the loops of different workers apart, and what then follows for the chain |
| `IndexerLimits` | concrete runs: a guard missed, and a live lease taken away |
| `IndexerFinality` | what a stored row's finality is worth |
| `BlockIndexer`, `LiveAccount` | live mode as imperative code over a shared world, from taking the lease to giving it back; it refines the step machine, and every turn of it is accounted for |
| `ReorgDetector` | the ancestor search, the range marks, and recovery interrupted any number of times |
| `ConstantProduct`, `HolderConcentration`, `CostBasis` | unbounded integer engines, floors included |
| `Json`, `CanonicalText`, `CanonicalShape`, `CanonicalKey`, `CanonicalImitation`, `BigintCodec` | the fingerprint text, what it looks like and what it tells apart, and the bigint codec |
| `RelationshipGraph` | the bounded breadth-first walk |
| `SingleFlightCache`, `CacheReuse`, `CacheCall` | the read-through cache with a lock, interleaved callers and Redis faults; what is reused and how often it is computed; the call as imperative code |
| `Entitlement` | tier promotion over whole observation histories, the evidence that is believed, and the stored row |
| `BlockWindow`, `GapScanner`, `PoolBackfill` | concurrent window fetch, gap scan and repair, resumable backfill |
| `Decimal` | amount printing and parsing, plain and exponent notation |
| `BytecodeScan` | the two PUSH-aware bytecode scanners |
| `RiskRegistry`, `RiskScan`, `RiskClock`, `RiskScore` | rule order, failure isolation under one abort signal and against the clock, completeness and scoring |
| `Prelude`, `Arithmetic` | shared shapes, and facts about products and floors |

Code that works step by step is imperative here too (methods, loops, classes over shared state)
and is proved against functions, about which the properties are lemmas. Where the environment
decides (an await, an interleaving, a Redis fault, a schedule), the model takes every decision.

## What the proofs found

- **Chain safety is false in general.** The checkpoint is not rewound by a reorg and the backlog
  tier checks no parent, so a crash during recovery followed by the backlog tier leaves a height
  with only an orphaned row below the checkpoint (`IndexerLimits`). It holds in a run exactly when
  each write meets its guard (`IndexerGuards`). Coverage by some row holds in every run.
- **The lease can be taken while it is live.** Its delete names neither owner nor expiry, so the slower
  of two standbys removes the row that the faster one has just renewed, and both are in their loops, past
  their lease check (`IndexerLimits.LateDeleteTakesLiveLease`). The faster one writes the checkpoint at most
  once more and stops at its next renewal. Every worker that relies on the lease owns it, throughout a
  run, exactly when that delete never hits a row in use and nobody stops a running loop (`IndexerLease`).
- **The lock does not make computing a thing done once.** A caller that has missed and then takes the free
  lock does not look at the cache again, so without any fault two calls can compute one key
  (`CacheReuse.LateTakerComputesAgain`). Nobody computes what is cached exactly when nobody takes the lock
  after the value has come in.
- **An orphaned row is not revived.** Inserts do nothing on conflict, so a height whose served block
  already has an orphaned row stays a gap through every repair (`GapScanner.RepairAndRescan`).
- **An acquisition of amount zero makes `fifoCostBasis` throw** (a bigint division by zero): a priced one
  always, an unpriced one when it is still queued at the end and there is a current price or nothing
  else is held. With non-negative amounts nothing else does.
- **An object with the single field `$bigint` shares its canonical text with a bigint**; the codec's round
  trip fails exactly on its own look-alikes and on what JSON drops or writes as null, and a dropped
  field can turn an object into a look-alike.
- **"Without affecting other rules" is not so in general.** A rule that overruns until the scan's signal
  aborts fails every rule behind it, and a failure that merely comes late can, for it leaves the others
  less time (`RiskClock.LateFailureIsFelt`). Isolation holds exactly when the instants at which the rule's
  turn may end are the same, or both past the abort, or both so early that the abort is out of reach.
- **A bytecode hash configured with a capital letter is never believed**: the configuration accepts it and
  the index is compared in any case, but the hash of the code is compared letter by letter.
- **`toRawAmount` adds the fraction of a negative amount to it**: `-1.5` at two decimals is read as -50, and
  the two parsers differ on every negative amount that keeps a fraction other than zero. A negative amount
  survives printing and parsing only when its fraction is zero or one digit short of the precision.
- **`decimalToRaw` accepts `e5` as zero**, as any mantissa without a digit that has an exponent, although
  plain text without a digit is refused, and prints a text without any digit for input such as `.5` with no
  decimals.
- **`containsSelector` does not lower-case the bytecode**, `hasSelector` does; they agree on every selector
  exactly when each PUSH4 operand also occurs in lower case.
- **A registry key can name two rules**: an at sign may shift between rule ID and version.
- **The holding window is open at its far end**: an ineligible observation may share its first instant;
  the window is closed exactly when no two observations do.
- **Code and comment differ** in `packages/queue/src/cache.ts`: the comment on `acquire` says that an
  unreachable Redis means computing directly; the code waits in `waitFor` first. The model follows the code.

## Model

| member | source | states |
|---|---|---|
| `IndexerCoverage.CheckpointCoverage` | apps/indexer/src/block-indexer.ts:241-444 | in every run of any number of workers, with forks, errors, crashes and restarts between any two steps, a stored `nextBlock = n` means that every height in [start, n) has a row |
| `IndexerCoverage.AtMostOneStaleWrite` | apps/indexer/src/block-indexer.ts:262-274 | over any stretch of a run in which a worker does not own the lease row it writes the checkpoint at most once, and not at all unless it had already passed its lease check |
| `IndexerCoverage.WritesFollowGrants` | apps/indexer/src/checkpoint-manager.ts:73-157 | each checkpoint write follows that worker's own acquire or renew with no other write of its own in between |
| `IndexerCoverage.OnlyDeletionHandsOver` | apps/indexer/src/checkpoint-manager.ts:73-169 | over any stretch of a run in which the lease row is not deleted, its owner stays the owner, nobody else is granted it, and whoever else renews stops |
| `IndexerCoverage.CreditStep` | apps/indexer/src/checkpoint-manager.ts:36-157 | one step of anybody: a checkpoint write spends the worker's credit, and only a grant of the row to it gives one |
| `IndexerLease.StepKeepsHoldersIff` | apps/indexer/src/checkpoint-manager.ts:73-169 | while every worker that relies on the lease owns its row, a step keeps that so exactly when it is neither a takeover's delete of a row in use nor a stop of a running worker |
| `IndexerLease.HoldersOwnIffUndisplaced` | apps/indexer/src/block-indexer.ts:209-375 | over every run of any workers, each worker that relies on the lease owns it in all states exactly when no event is one of those two |
| `IndexerLease.LoopsDoNotOverlap` | apps/indexer/src/block-indexer.ts:241-375 | in every such run no two workers are in their loops in any state |
| `IndexerLease.LeasedChainSafety` | apps/indexer/src/block-indexer.ts:241-375 | chain safety with the lease in place of the assumption that loops do not overlap |
| `IndexerChain.ChainSafety` | apps/indexer/src/block-indexer.ts:262-353 | over every run of any workers of which one at a time is in its loop, failover included, in a benign environment with forks, errors and crashes anywhere, the canonical rows are one parent-linked chain from the start height, without a hole below a cursor that is not stale, ending in the remembered hash |
| `IndexerChain.InsertKeepsChainIff` | apps/indexer/src/block-persister.ts:207-333 | exactly when storing a block keeps the canonical rows one chain that reaches its height |
| `IndexerGuards.WindowGuard` | apps/indexer/src/block-persister.ts:92-159 | an unchecked window leaves one chain with all its blocks on it exactly when each of them meets its guard in the rows the ones before it leave |
| `IndexerGuards.MarkGuard` | apps/indexer/src/reorg-detector.ts:135-147 | orphaning a range keeps one chain exactly when nothing canonical stands above what it takes away |
| `IndexerGuards.AlwaysOneChainIffGuarded` | apps/indexer/src/block-indexer.ts:241-444 | over every run of any workers in any environment: the canonical rows are one chain in every state, each block on it once stored, exactly when every write meets its guard |
| `IndexerGuards.BenignRunIsGuarded` | apps/indexer/src/block-indexer.ts:262-353 | every benign run meets all guards |
| `IndexerChain.MarkCutsChain` | apps/indexer/src/reorg-detector.ts:135-147 | orphaning from inside the chain to beyond its tip leaves exactly the part below |
| `IndexerChain.StepKeeps` | apps/indexer/src/block-indexer.ts:262-444 | each single step of the loop keeps the chain invariant, whatever the step |
| `IndexerFinality.FinalityIsEarned` | apps/indexer/src/block-indexer.ts:662-679 | over every run, a row that says finalized, safe or soft confirmed had that many blocks above it under some head that the provider has served |
| `IndexerFinality.FinalityIsStrongest` | apps/indexer/src/block-indexer.ts:662-679 | the finality is the strongest that the confirmations at hand allow |
| `IndexerFinality.PersistSaysWhatIs` | apps/indexer/src/block-persister.ts:42-90 | a block stored in the tail is canonical and says final exactly when the head is that far above it |
| `IndexerLimits.BacklogSkipsOrphanedHeight` | apps/indexer/src/block-indexer.ts:319-321 | a concrete run, crash in recovery then backlog tier, after which the checkpoint has passed a height without a canonical row, the rows are no chain, and a guard was not met |
| `IndexerLimits.LateDeleteTakesLiveLease` | apps/indexer/src/checkpoint-manager.ts:73-127 | a concrete run of two standbys that meet an expired row: the slower deletes the live row of the faster, and both are in their loops, past their lease check |
| `BlockIndexer.LiveIndexer.RunLiveMode` | apps/indexer/src/block-indexer.ts:241-375 | live mode, from taking the lease to giving it back, refines the step machine: whatever the calls answer, replies lost included, what happened is a run of it, ending stopped, and the stored checkpoint is covered; each turn is accounted for, and so is the ending |
| `BlockIndexer.LiveIndexer.Loop` | apps/indexer/src/block-indexer.ts:262-375 | turn after turn each is accounted for; it ends early only by a lost lease, and finished means all turns made and the row not its own |
| `BlockIndexer.LiveIndexer.AcquireLease` | apps/indexer/src/checkpoint-manager.ts:73-127 | the insert, its catch, and the retries after a deletion; it ends with the row granted, and gives up only if a call failed, or a row was there and then not expired, its own and gone, or back again after every deletion |
| `BlockIndexer.LiveIndexer.ReadCheckpoint` | apps/indexer/src/block-indexer.ts:251-263 | the loop starts from the stored checkpoint, created if there is none, unless a call throws |
| `BlockIndexer.LiveIndexer.Turn` | apps/indexer/src/block-indexer.ts:263-353 | it throws exactly if one of its calls did, with nothing moved; it is false only if the row was not its own; otherwise it waited because the head was below, the height was not served or the batch is empty, or it stored, recorded and published the fetched block, or stored and recorded a window, or went back to an ancestor that the provider serves |
| `BlockIndexer.LiveIndexer.DrainFinalizedBacklog` | apps/indexer/src/block-indexer.ts:377-444 | retry only with nothing moved and the first height withheld or the batch empty; advanced with exactly the blocks served up to the first one withheld stored and recorded, the cursor moved by their number, and the checkpoint holding cursor and last hash |
| `BlockIndexer.LiveIndexer.DetectReorg` | apps/indexer/src/reorg-detector.ts:23-103 | the ancestor search inside the loop: an ancestor whose stored hash the provider serves and above which everything was marked, or a search down to the bottom |
| `ReorgDetector.Detector.FindCommonAncestor` | apps/indexer/src/reorg-detector.ts:61-103 | returns the greatest positive height up to its start where the canonical row is the provider's block, or none exists |
| `ReorgDetector.Detector.DetectReorg` | apps/indexer/src/reorg-detector.ts:23-59 | records an event for the range above that ancestor exactly when the remembered hash disagrees and an ancestor exists |
| `ReorgDetector.MarkIsExact` | apps/indexer/src/reorg-detector.ts:135-147 | a mark orphans exactly the canonical rows of the range and changes nothing else |
| `ReorgDetector.MarkKeepsAncestor` | apps/indexer/src/reorg-detector.ts:105-147 | marking everything above the ancestor keeps it the ancestor |
| `ReorgDetector.CrashedMarksReplay` | apps/indexer/src/reorg-detector.ts:105-231 | after any number of marks the same ancestor is found and marking again gives the tables of an undisturbed recovery |
| `ReorgDetector.Detector.HandleReorg` | apps/indexer/src/reorg-detector.ts:105-231 | the range updates in order, cut off after any of them: the blocks, then table by table exactly the records of the range lose their standing and nothing else changes; the event is resolved only after the last |
| `ReorgDetector.Detector.RecoverThroughCrashes` | apps/indexer/src/reorg-detector.ts:23-231 | any number of processes that read the stored checkpoint, detect and die anywhere in handling, and one that survives, find one range and end with exactly its block rows orphaned and exactly its records of all eight tables not canonical; none is found exactly when the served block fits or no ancestor exists; each attempt leaves an event for that range, the last one resolved |
| `ConstantProduct.PaysTheMostAffordable` | packages/market-engine/src/liquidity-depth.ts:51-71 | the payouts that keep the fee-adjusted reserve product are exactly those up to the quote |
| `ConstantProduct.QuoteIsSafe` | packages/market-engine/src/liquidity-depth.ts:51-71 | the output is strictly below the out-reserve and the reserve product never decreases |
| `ConstantProduct.QuoteBounds` | packages/market-engine/src/liquidity-depth.ts:51-71 | every quote given has a price impact in [1, 10000], so the zero branch is dead |
| `ConstantProduct.RefusedIff` | packages/market-engine/src/liquidity-depth.ts:51-71 | well-formed input is refused exactly when it buys less than one unit |
| `ConstantProduct.RefusalIs` | packages/market-engine/src/liquidity-depth.ts:51-71 | which error a quote is refused with, exactly |
| `ConstantProduct.ImpactIsLeast` | packages/market-engine/src/liquidity-depth.ts:51-71 | the price impact is the least number of basis points by which the price paid falls short of the spot price |
| `ConstantProduct.TwoNeverBeatOne` | packages/market-engine/src/liquidity-depth.ts:51-71 | two quotes in a row never pay more than one for the summed input, floors included |
| `ConstantProduct.SplittingNeverPays` | packages/market-engine/src/liquidity-depth.ts:51-71 | the same for any split of an order into parts |
| `ConstantProduct.ConversionsAre` | packages/market-engine/src/liquidity-depth.ts:20-49 | normalizing and denormalizing move an amount times its price between decimals, rounded down, and refuse exactly what is unsigned or out of range |
| `ConstantProduct.ThereAndBackNeverGains` | packages/market-engine/src/liquidity-depth.ts:30-49 | normalizing and denormalizing never gains and loses less than one normalized unit's worth |
| `HolderConcentration.GiniIsPairwise` | packages/risk-engine/src/holder-analysis.ts:28-35 | the sorted formula equals the sum of pairwise differences over count times total, as the greatest number of ten-thousandths that does not exceed it |
| `HolderConcentration.NumeratorOfSorted` | packages/risk-engine/src/holder-analysis.ts:28-35 | the rank-weighted numerator of a sorted list is its sum of pairwise differences |
| `HolderConcentration.GiniIgnoresOrder` | packages/risk-engine/src/holder-analysis.ts:28-35 | the coefficient does not depend on the order of the balances |
| `HolderConcentration.GiniRange` | packages/risk-engine/src/holder-analysis.ts:28-35 | with a positive balance in the list the coefficient exists and lies in [0, 10000) |
| `HolderConcentration.GiniIgnoresScale` | packages/risk-engine/src/holder-analysis.ts:28-35 | scaling all balances changes nothing |
| `HolderConcentration.TransferToRicherNeverLowers` | packages/risk-engine/src/holder-analysis.ts:28-35 | moving value from a poorer holder to a no-poorer one never lowers it, in any list |
| `HolderConcentration.Allocate` | packages/risk-engine/src/holder-analysis.ts:36-78 | the loop gives each address class exactly what its holders hold |
| `HolderConcentration.AllocationsAddUp` | packages/risk-engine/src/holder-analysis.ts:36-78 | the classes share out all positive balances, nothing lost or counted twice |
| `CostBasis.FifoCostBasis` | packages/portfolio-engine/src/cost-basis.ts:50-141 | on well-formed histories the lots are the unsold units and every figure is the unit queue's, so realized plus unrealized is exact; there is a realized gain exactly when every sale is priced and every unit sold was there and of known price, and each warning appears exactly for its cause; on every non-negative history it throws exactly when some acquisition of nothing leaves a zero divisor; proceeds and fees are the sums over the flows |
| `CostBasis.FirstInFirstOut` | packages/portfolio-engine/src/cost-basis.ts:62-109 | without shortfall the units held are those acquired, in order, less as many first ones as were disposed of |
| `CostBasis.QueueIsSuffix` | packages/portfolio-engine/src/cost-basis.ts:62-109 | in every history, shortfalls or not, the units held are the last ones acquired |
| `CostBasis.ShortfallIs` | packages/portfolio-engine/src/cost-basis.ts:96-99 | what could not be sold is by how much, at the worst time, more had been disposed of than acquired |
| `CostBasis.RealizedIffKnown` | packages/portfolio-engine/src/cost-basis.ts:88-107 | a well-formed history has a realized gain exactly when every sale is priced, nothing was ever oversold, and every unit sold has a known price |
| `CostBasis.DisposalCharge` | packages/portfolio-engine/src/cost-basis.ts:82-107 | a disposal is charged the summed prices of the next unsold units |
| `CostBasis.UnitsConserved` | packages/portfolio-engine/src/cost-basis.ts:62-109 | held = acquired - disposed + shortfalls, in every history |
| `CostBasis.RealizedIdentity` | packages/portfolio-engine/src/cost-basis.ts:62-109 | realized = proceeds - cost of everything acquired + cost still held |
| `CostBasis.ReductionsInUnits` | packages/portfolio-engine/src/cost-basis.ts:110-132 | basis and unrealized gain over lots are those over units: no division loses anything |
| `CostBasis.Consume` | packages/portfolio-engine/src/cost-basis.ts:84-95 | the inner loop takes exactly the first units, charges their known prices and reports the rest |
| `RelationshipGraph.Build` | packages/risk-engine/src/relationships.ts:42-74 | the walk ends; with an empty queue the nodes are exactly the addresses within the depth limit and the edges exactly the canonical ones leaving them, once per key; edges are collected level by level, the addresses listed are the roots and the targets collected short of the depth limit, and a walk cut short returns nothing out of range |
| `RelationshipGraph.Exhausted` | packages/risk-engine/src/relationships.ts:49-66 | exactness of an exhausted walk, from its invariant |
| `RelationshipGraph.Turn` | packages/risk-engine/src/relationships.ts:49-66 | one visit keeps the breadth-first invariant, for a first visit and for a repeated one |
| `RelationshipGraph.Progress` | packages/risk-engine/src/relationships.ts:49-66 | one visit sees a new key or shortens the queue |
| `RelationshipGraph.SameKeyIff` | packages/risk-engine/src/relationships.ts:55 | edges with one key differ in nothing but whether they are canonical |
| `CanonicalKey.TextIsFaithful` | packages/risk-engine/src/canonical.ts:1-20 | two accepted values without an imitated bigint have one text exactly when they are equal up to key order and undefined fields |
| `CanonicalImitation.FaithfulIffNoImitation` | packages/risk-engine/src/canonical.ts:1-20 | a value is told from every value without imitators that differs from it exactly when it has no imitator in it, at any depth |
| `CanonicalKey.ImitationIsExact` | packages/risk-engine/src/canonical.ts:1-20 | an object and a bigint are confused exactly when the object's only defined field is `$bigint` with its digits |
| `CanonicalKey.ImitationCollides` | packages/risk-engine/src/canonical.ts:1-20 | for every integer, that object and the bigint do share their text |
| `CanonicalText.RefusedIff` | packages/risk-engine/src/canonical.ts:1-20 | the values that make it throw, exactly |
| `CanonicalText.EncodingEnds` | packages/risk-engine/src/canonical.ts:1-20 | the text is self-delimiting: equal texts with any continuations mean equal normal forms and equal continuations |
| `CanonicalText.SameTextIffSameNormalForm` | packages/risk-engine/src/canonical.ts:1-20 | equal text exactly for equal normal forms, on all accepted values |
| `CanonicalShape.ObjectShape` | packages/risk-engine/src/canonical.ts:12-18 | the text of an object is its defined fields, each with its own text, in rising key order |
| `CanonicalShape.LessIs` | packages/risk-engine/src/canonical.ts:14 | that order is by the first differing code unit, a text before its continuations |
| `CanonicalShape.QuoteReadsBack` | packages/risk-engine/src/canonical.ts:3 | a quoted string reads back as itself by the escapes of section 7 of RFC 8259 |
| `CanonicalShape.BigIntShape` | packages/risk-engine/src/canonical.ts:10 | a bigint is an object with the one field `$bigint`, its decimal digits in quotes |
| `CanonicalShape.Words` | packages/risk-engine/src/canonical.ts:2-4 | null, true and false are those words |
| `BigintCodec.ParseUndoesSerializeIff` | packages/discovery-engine/src/codec.ts:35-55 | serializing and parsing gives the value back exactly when JSON can write every part of it and no object in it looks like a wrapped bigint, on all values |
| `BigintCodec.DroppedFieldUnmasks` | packages/discovery-engine/src/codec.ts:35-55 | for every integer, an object that is no look-alike comes back as that bigint because a field of it is dropped |
| `BigintCodec.ParseIntegerIff` | packages/discovery-engine/src/codec.ts:43 | the texts that revive as a bigint, and which bigint |
| `SingleFlightCache.ReturnsOnlyComputedValues` | packages/queue/src/cache.ts:51-125 | under every interleaving, fault, expiry and lost lock, each returned value was produced by a compute of that key |
| `SingleFlightCache.SingleFlight` | packages/queue/src/cache.ts:51-125 | never two computes at once, and no lock remains when no call is active, over every run without the four breaking events, whatever else is lost or expires |
| `SingleFlightCache.StepKeepsExclusiveIff` | packages/queue/src/cache.ts:51-125 | a step keeps exclusion exactly when it is not the expiry of a held lock, a wait given up, an acquire lost on the way back or a release lost on the way out |
| `SingleFlightCache.ExclusiveIffUnbroken` | packages/queue/src/cache.ts:51-125 | over whole runs exclusion holds in every state exactly when none of those happens |
| `SingleFlightCache.ExpiryBreaksSingleFlight` | packages/queue/src/cache.ts:107-115 | a concrete run: one lock expiry alone allows two computes at once |
| `CacheReuse.WrittenStays` | packages/queue/src/cache.ts:75-96 | a value written, wanted and not lost is in the cache in every state until the next write or its expiry |
| `CacheReuse.CachedIsReturned` | packages/queue/src/cache.ts:57-68 | while a value is cached, a call that looks, at first or by a poll, returns that value and computes nothing |
| `CacheReuse.OneValueForAll` | packages/queue/src/cache.ts:51-82 | without fault, expiry or impatience, and if nobody takes the lock late, at most one compute succeeds and all calls that return a value return that one |
| `CacheReuse.SettledIffNobodyLate` | packages/queue/src/cache.ts:57-72 | without faults, nobody ever computes what is cached exactly when nobody takes the lock after the value has come in |
| `CacheReuse.ComputesOnceIff` | packages/queue/src/cache.ts:57-72 | without faults, at most one compute succeeds exactly when none does while a value is cached |
| `CacheReuse.LateTakerComputesAgain` | packages/queue/src/cache.ts:57-72 | a concrete run without any fault in which two computes succeed |
| `CacheCall.RedisCache.GetOrCompute` | packages/queue/src/cache.ts:51-125 | the imperative call refines the step machine; it looks first, and what a look that arrives finds it returns and does nothing more; after a miss it takes the lock, computes, stores what is wanted and unlocks, or polls until served, or polls as often as it may and computes without the lock; the value is one some compute produced |
| `Entitlement.GrantsAreEarned` | packages/entitlements/src/token-gating.ts:63-89 | a granted tier above free has an unbroken run of eligibility back to an observation at least the holding period ago |
| `Entitlement.WindowHolds` | packages/entitlements/src/token-gating.ts:63-89 | every observation strictly inside the last holding period was eligible for at least the granted tier |
| `Entitlement.PromotedIff` | packages/entitlements/src/token-gating.ts:63-89 | a higher tier is granted exactly when a streak of that very tier, undisturbed by transfers, began at least the holding period before |
| `Entitlement.StateIs` | packages/entitlements/src/token-gating.ts:63-89 | the state after any history, in terms of the history; the grant never exceeds the latest eligible tier |
| `Entitlement.WindowIsOpen` | packages/entitlements/src/token-gating.ts:63-89 | a concrete history with an ineligible observation exactly at the far end of the window |
| `Entitlement.ClosedWindowIff` | packages/entitlements/src/token-gating.ts:63-89 | for given times, every history observed at them is eligible at the far end of the window too, exactly when no two observations share the instant there |
| `Entitlement.TierIsHighestMet` | packages/entitlements/src/token-gating.ts:24-29 | the tier is the first, from the top, whose minimum is met |
| `Entitlement.EntitlementService.Reconcile` | apps/api/src/token-entitlement-service.ts:66-258 | an observation is recorded exactly when all seven checks pass, otherwise the first that fails is the reason and nothing changes; the stored row always is the replay of everything observed, resets included, and a pending row names the block at which its streak began |
| `Entitlement.NewCandidacyIff` | apps/api/src/token-entitlement-service.ts:185-213 | a pending candidacy is a new one exactly when the last observation began its streak |
| `Entitlement.EntitlementService.Check` | apps/api/src/token-entitlement-service.ts:66-140 | refuses nothing that all checks pass, and otherwise gives the first check that fails |
| `Entitlement.BelievableIff` | apps/api/src/token-entitlement-service.ts:104-131 | some evidence is believed exactly when the gate is enabled and its configured bytecode hash has no capital letter |
| `BlockWindow.FetchBlockWindow` | apps/indexer/src/block-fetcher.ts:206-248 | for any number of workers and any schedule, the sequential result, each height claimed once in order, rejected only when some fetch throws |
| `BlockWindow.SequentialIsLongestPrefix` | apps/indexer/src/block-fetcher.ts:206-248 | the result is the one longest hole-free ascending prefix |
| `Decimal.ParseUndoesPrintIff` | packages/shared/src/decimal.ts:4-18 | parsing a printed raw amount gives it back for every amount that is not negative, at every precision, and for a negative one exactly when its fraction is zero or one digit short of the precision |
| `Decimal.PrintIsShortest` | packages/shared/src/decimal.ts:11-18 | a printed amount has no point without a fraction and no zero at its end |
| `Decimal.PlainIsTruncatedIff` | packages/providers/src/geckoterminal.ts:29-41 | plain notation is value times 10^d truncated toward zero, exactly unless there is neither a whole part nor any decimals |
| `Decimal.ExponentIsTruncated` | packages/providers/src/geckoterminal.ts:29-54 | exponent notation always is, whatever the exponent |
| `Decimal.EmptyMantissaIsZero` | packages/providers/src/geckoterminal.ts:29-54 | every mantissa without a digit, with any sign, point, mark and exponent: refused plain, and zero with an exponent |
| `Decimal.AcceptedIff` | packages/providers/src/geckoterminal.ts:29-54 | the price parser reads exactly plain numbers with a digit, and a mantissa with a mark and an exponent |
| `Decimal.ReadExponentIff` | packages/providers/src/geckoterminal.ts:44-49 | an exponent is digits with an optional sign, and what they spell |
| `Decimal.ParseBigIntIff` | packages/shared/src/decimal.ts:8 | the integers that the shared parser reads, exactly |
| `Decimal.ParsersAgreeIff` | packages/providers/src/geckoterminal.ts:29-41 | on a plain decimal both parsers give one answer exactly when it has no digit, or it has a whole part and is not negative or keeps no fraction |
| `Decimal.FractionIsAdded` | packages/shared/src/decimal.ts:4-9 | the shared parser scales a negative whole part with its sign and adds the fraction to that |
| `Decimal.NegativeAmountIsWrong` | packages/shared/src/decimal.ts:4-9 | one such input: -50 from the shared parser where the price parser reads -150 |
| `Decimal.ShiftFloorIs` | packages/providers/src/geckoterminal.ts:29-41 | the digit shifts the results are stated in are multiplication and floor division by powers of ten |
| `BytecodeScan.HasSelector` | packages/risk-engine/src/privilege-analysis.ts:80-94 | the fused scan answers what decoding the lower-cased code and searching its PUSH4 operands would |
| `BytecodeScan.ContainsSelector` | packages/risk-engine/src/proxy-analysis.ts:292-295 | decoding first and then searching, with the code's own letter case |
| `BytecodeScan.DecodeOpcodes` | packages/risk-engine/src/proxy-analysis.ts:272-286 | the loop computes the decoding |
| `BytecodeScan.OneDecoding` | packages/risk-engine/src/proxy-analysis.ts:272-286 | a list of consecutive instructions that cannot be continued is unique, so the decoding is determined by that |
| `BytecodeScan.PushCarries` | packages/risk-engine/src/proxy-analysis.ts:279-281 | the instruction that pushes n bytes carries the n bytes behind it, and no other carries any |
| `BytecodeScan.TwoCharacters` | packages/risk-engine/src/proxy-analysis.ts:276-278 | what `parseInt` makes of any two characters, digits or not |
| `BytecodeScan.ScannersAgreeIff` | packages/risk-engine/src/privilege-analysis.ts:80-94 | both scanners give one answer for every selector exactly when each PUSH4 operand also occurs in lower case |
| `BytecodeScan.ScannersAgree` | packages/risk-engine/src/proxy-analysis.ts:272-295 | on lower-case bytecode both scanners give one answer, whatever the letter case of the selector |
| `BytecodeScan.DecodeLower` | packages/risk-engine/src/proxy-analysis.ts:272-286 | lower-casing the code moves no instruction boundary and changes no opcode |
| `BytecodeScan.InstructionsTile` | packages/risk-engine/src/proxy-analysis.ts:272-286 | opcodes and push data, put end to end, are the decoded prefix |
| `BytecodeScan.AssembleUndoesDecode` | packages/risk-engine/src/proxy-analysis.ts:272-286 | on whole bytes of lower-case text decoding never stops early and loses nothing |
| `RiskRegistry.RiskRuleRegistry.ResolveRuleset` | packages/risk-engine/src/registry.ts:63-79 | the referenced rules, each once, sorted, each with a penalty cap, or the first reference's problem |
| `RiskRegistry.RiskRuleRegistry.Register` | packages/risk-engine/src/registry.ts:46-53 | a valid rule with a new key is added; anything else changes nothing |
| `RiskRegistry.ValidateRule` | packages/risk-engine/src/registry.ts:19-37 | refuses exactly the invalid rules and blames the first bad data source |
| `RiskRegistry.CompareIsTotal` | packages/risk-engine/src/registry.ts:5-13 | the order is antisymmetric and ties only rules of one category, ID and version |
| `RiskRegistry.CompareIsTransitive` | packages/risk-engine/src/registry.ts:5-13 | the order is transitive |
| `RiskRegistry.CompareIsByCategoryFirst` | packages/risk-engine/src/registry.ts:5-13 | the order is by category as listed, then by rule ID, then by version |
| `RiskRegistry.ResolveIgnoresOrder` | packages/risk-engine/src/registry.ts:63-79 | neither the order of registration nor that of the references changes whether a ruleset resolves or what it resolves to |
| `RiskRegistry.ListIgnoresRegistrationOrder` | packages/risk-engine/src/registry.ts:59-61 | the list of rules does not depend on the order of registration |
| `RiskRegistry.RiskRuleRegistry.List` | packages/risk-engine/src/registry.ts:59-61 | every registered rule, each once, sorted |
| `RiskRegistry.KeysCollideIff` | packages/risk-engine/src/registry.ts:15-17 | two different ID and version pairs share a key exactly when an at sign shifts between them |
| `RiskRegistry.PlainKeysSeparate` | packages/risk-engine/src/registry.ts:15-17 | rule IDs without an at sign are told apart by their keys |
| `RiskScan.Scan` | packages/risk-engine/src/orchestrator.ts:316-390 | throws exactly on bad timeouts, differing methodologies, an unresolvable ruleset or sources duplicated or not pinned; otherwise one finding for each reference in the resolved order, the score of exactly those, and completed exactly when not cancelled and every rule concluded |
| `RiskScan.IsolatedIffSameSignal` | packages/risk-engine/src/orchestrator.ts:165-267 | with the later turns as they are, what happens in one rule's turn is invisible to every later rule exactly when it leaves the scan's abort signal as it would have been |
| `RiskClock.IsolatedIff` | packages/risk-engine/src/orchestrator.ts:165-356 | with the clock in the state: whether a rule behaves one way or another is invisible to all later rules, however these behave, exactly when its turn ends at one instant, or past the abort for one reason, or so early that the abort is out of reach |
| `RiskClock.SameFromIffAsGoodAsOne` | packages/risk-engine/src/orchestrator.ts:217-356 | exactly when the rules that start at an instant can tell it from another |
| `RiskClock.TimedAt` | packages/risk-engine/src/orchestrator.ts:337-356 | in a scan against the clock each rule's outcome is decided by the instant at which it starts |
| `RiskClock.LateFailureIsFelt` | packages/risk-engine/src/orchestrator.ts:337-356 | a concrete scan of 100 ms: the same failure after 80 ms instead of at once fails the two rules behind it |
| `RiskScan.EarlierRulesUnaffected` | packages/risk-engine/src/orchestrator.ts:316-356 | rules that have run already never notice |
| `RiskScan.SourceMap` | packages/risk-engine/src/orchestrator.ts:67-80 | every source by its key; accepted exactly when no key repeats and each is read at the scan's block and hash |
| `RiskScan.AbortFailsTheRest` | packages/risk-engine/src/orchestrator.ts:217-306 | once aborted, all rules that have not run fail, and completeness is bounded by the part that ran |
| `RiskScan.CompleteMeansNoFailures` | packages/risk-engine/src/orchestrator.ts:269-306 | every failed rule is counted unknown, and 10000 basis points mean exactly that rules ran and none is unknown |
| `RiskScan.CompletenessIs` | packages/risk-engine/src/orchestrator.ts:269-306 | the share of rules that concluded, rounded down to basis points; the sources known, asked for and not available; a reason for every cause and no other |
| `RiskScan.CodeTellsCause` | packages/risk-engine/src/orchestrator.ts:148-267 | what each failure code, and having none, says about the rule's turn, and what its finding takes from it |
| `RiskScan.DependencyFailureIsListed` | packages/risk-engine/src/orchestrator.ts:233-306 | a rule failing for want of data ends completeness, and a source it requires is either listed as unavailable or was never known to the scan |
| `RiskScan.FailureHidesButIsReported` | packages/risk-engine/src/orchestrator.ts:217-306 | with the later turns as they are, a rule that fails where it did not, alone or with an abort that fails all behind it, never lowers the score, and always ends completeness |
| `RiskScore.CalculateRiskScore` | packages/risk-engine/src/scoring.ts:18-55 | the loops compute the capped additive score and the category scores, and throw exactly for a finding without a rule |
| `RiskScore.GraverCosts` | packages/risk-engine/src/scoring.ts:4-55 | a graver status takes exactly the rise of its own cost off its category, all of the maximal penalty for a fail and half of it for a warning, down to the cap; what the category loses comes off the score, down to zero; nothing else moves |
| `RiskScore.AllClear` | packages/risk-engine/src/scoring.ts:4-55 | without a warning or a fail all scores are full |
| `RiskScore.GradeIsBand` | packages/risk-engine/src/scoring.ts:10-16 | the grades are bands a thousand points wide from 6000 up |
| `RiskScore.ScoreIgnoresOrder` | packages/risk-engine/src/scoring.ts:18-55 | the score and each category score do not depend on the order of the findings |
| `RiskScore.WorseNeverScoresHigher` | packages/risk-engine/src/scoring.ts:4-55 | from pass to warning to fail the score never rises, the grade never improves, and the fall is at most the finding's own added penalty |
| `RiskScore.ScoreRange` | packages/risk-engine/src/scoring.ts:31-40 | score and category scores lie in [0, 10000] |
| `GapScanner.ScanForGaps` | apps/indexer/src/gap-scanner.ts:16-83 | exactly the maximal runs of missing canonical heights, ascending and non-adjacent |
| `GapScanner.MaximalRunsUnique` | apps/indexer/src/gap-scanner.ts:16-83 | there is only one such list |
| `GapScanner.GetMissingBlocks` | apps/indexer/src/gap-scanner.ts:85-109 | the missing heights, ascending, each once: the union of those runs |
| `GapScanner.RepairAndRescan` | apps/indexer/src/block-indexer.ts:508-557 | after gap repair a rescan is empty exactly when every missing height was served and not blocked by a stored row of that block |
| `PoolBackfill.Backfill.Run` | apps/indexer/src/pool-backfill.ts:75-127 | however early one process dies, finishing from the stored cursor still reaches the same pools, the cursor never goes back and passes no index that was not read; it dies no earlier than its writes allow, standing where exactly that many writes lead; a process that finishes reports the indices read and the pools added |
| `PoolBackfill.Backfill.RunThroughCrashes` | apps/indexer/src/pool-backfill.ts:75-127 | any number of interrupted processes and one that survives end with the pools and cursor of an undisturbed run, and have read every index between them, from the first one if there was no cursor |
| `PoolBackfill.ReplayFrom` | apps/indexer/src/drizzle-pool-backfill-store.ts:32-61 | replaying a stretch that was partly inserted gives what inserting it once gives |
| `PoolBackfill.FirstAnswerStands` | apps/indexer/src/drizzle-pool-backfill-store.ts:32-61 | for a new address the first answer in the registry is the one stored |

## Left out

- ChainSafety: holds for benign runs (one worker in its loop at a time, a calm provider at each unchecked fetch, an ancestor found); the exact condition, which needs none of that, is `AlwaysOneChainIffGuarded`, and `IndexerLimits` has a run that misses it.
- AlwaysOneChainIffGuarded: asks for each block just stored to be canonical too, so an insert that is ignored because its row is there orphaned misses its guard.
- AcquireLease: the retries after a deletion are bounded by a parameter, and live mode runs for a given number of turns; running on is the same steps again.
- OnlyDeletionHandsOver: the clock is whatever each step reads, so nothing is said of how long a lease lasts.
- RecoverThroughCrashes: each restart meets the tail again; `BacklogSkipsOrphanedHeight` shows what the backlog tier does to a restart.
- CheckpointCoverage: speaks of some row per height, not of canonical rows, because the code promises no more across reorgs; retention pruning, which deletes rows, is off. The provider is taken to answer with a block of the number asked for: rows are stored under the number the block itself names.
- DrainFinalizedBacklog: the window is read height by height; the concurrent schedule, with the same result, is `FetchBlockWindow`, and `fetchLogWindow` is not part of this model.
- InsertKeepsChainIff: transactions, logs and derived rows written with a block are not in the table; the finality read is one step with the insert.
- Scan: the evaluation is a reply; suppressions, fingerprints and finding texts are not modelled, and lists that the source sorts and de-duplicates are sets.
- FailureHidesButIsReported: holds the later turns fixed; that a rule which fails sooner leaves later ones more time is `RiskClock`.
- IsolatedIff: timers fire when they are due; a rule that blocks the thread is not modelled, nor the time of anything but the evaluations.
- ResolveRuleset: takes the ruleset after schema parsing; a rule's frozen state is not modelled.
- HasSelector: letter case is ASCII, as in any hexadecimal text.
- TextIsFaithful: finite numbers are their JSON texts; how JavaScript prints a float is not modelled.
- ParseUndoesSerializeIff: stated on value trees; the JSON text in between is not parsed, and `BigInt` text is decimal digits with a sign.
- ExponentIsTruncated: has no limit on the exponent where a float or a string length would have one, and takes trimmed text.
- SingleFlight: one key at a time; JSON-safe values only; the namespace and metrics are left out.
- GetOrCompute: `compute` and `cacheIf` are given by what they come to; the deadline is a number of polls.
- Reconcile: the calls' answers are one record and their errors are left out; the row's descriptive columns are left out.
- Run: one database statement at a time, a fixed registry and fixed answers.
- FifoCostBasis: lot identifiers, provenance and confidence are left out; amounts are integers, as bigints are.
- RealizedIffKnown: histories with a negative or empty acquisition, which chains do not report, have only the throwing condition and the sums.
- Addresses are compared in lower case by the source and are identities here; hashes are identities too, except where their letter case decides (`BelievableIff`), and composite string keys are tuples where no text property depends on them.
- Historical mode and `fetchBlockRange` skip holes while the cursor advances, so no coverage is claimed for them.
- `concentrations`, `concentrationChange`, `getGapStats` and the other gap statistics: single sums and tables that add only easy claims.
- `readLayers`, `contractClosure` and `deduplicate`: visited-bounded walks of the shape proved in `RelationshipGraph`.
- Replay of an old unresolved reorg event after re-indexing: it marks the same heights again, so recovery is claimed only back to back.
- Network, SQL, Redis and queue clients, HTTP wiring, notifications, schemas, hashing and encryption: foreign calls, present here as atomic steps or arbitrary answers.
