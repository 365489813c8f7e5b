# Satya, modelled and proved

Satya keeps an in-memory copy of a Bitcoin node's mempool and reads fee tiers off a projection
of the next blocks. This project models, in Dafny, the four parts of it whose correctness is
hardest to see, and proves what they promise.

**The projector** (`src/gbt.rs`). `Projector.dfy` holds the loops of the implementation: the
memoised ancestor search (`Ancestry.dfy`), the max-heap of scored entries (`ScoreHeap.dfy`),
package building, placing, deferring, refreshing descendants and closing blocks. Each is proved
to compute what `Packing.dfy` specifies: one iteration of the packing loop as a function `Step`
of the loop's state. `PackingRun.dfy` shows that every in-range input, cyclic or not, has
exactly one complete run of that loop, and the ancestor search is a function (`Search`) of the
input, so nothing depends on hash iteration order. The promises are then theorems about every
run on every acyclic input (`PackingTheorems.dfy`, `PackingClosing.dfy`, `Completeness.dfy`,
`Stranding.dfy`). An `Input` is `Exact` when its parent graph is acyclic and its ancestor sets
are exactly reachability; by `ClosuresAreAncestors` that is so of every acyclic input, and on a
cyclic one the sets still hold only ancestors.

One promise is false of the code. The comment at `src/gbt.rs:224-228` intends that no
transaction is lost to an overflow queue that is never requeued, but the `continue` at
`src/gbt.rs:183-185` skips the check for a drained heap: when the last heap entry is a stale
one of an already placed transaction, the loop ends with deferred work in no block. The model
keeps the code as it is. `TrapLosesFiller` exhibits the loss: a parent, its child and one more
transaction, all paying the same rate. `CompleteIffRoomForAll` gives the exact condition a
caller can check beforehand, from the settings and from what the transactions weigh: everything
is sure to be placed if and only if at most one block is asked for, or one block has room for
all, or there are too few for a parent, its child and one more. `CompleteIffAtMostOneBlock` is
the condition on the settings alone, `PlacesAllIffNeverStrands` the exact condition on a run,
`IndependentTxsAllPlaced` and `TwoTxsPlaceAll` are further conditions on the input, and
`DrainingAlwaysPlacesAll` shows that running the same check on the skipping path
(`alwaysDrain`) repairs it for every acyclic input. At the default limits the loss reaches the
fee tiers: by `ArrivalLowersTier` an arrival can lower the next-block tier to the floor.

**Fee tiers** (`src/fees.rs`). `Tiers.dfy` proves the cumulative scan of the sorted list
against a definition of the tier that mentions no order; `FeePipeline.dfy` joins snapshot,
projector and tiers, and `ArrivalEffects.dfy` is about the pipeline as a whole.

**The simulated node** (`src/sim/mock_node.rs`). `PackageIndex.dfy` says what a truthful
package index is, `PackageOps.dfy` and `PackageConfirm.dfy` what the operations do to it, and
`MockNode.dfy` is the class that performs them in place. Each method states what it does to
parent references and own figures (`Shapes`), of newcomers, survivors and those that leave, and
that the index stays truthful; by `ShapesDetermineTotals` that determines the child index and
all totals. Which transactions an eviction hits is left open, as hash order decides it.
`Mirror.dfy` connects the node's integer rate with the projector's score.

**The sync loop** (`src/sync/mod.rs`, `src/sync/decision.rs`, `src/mempool.rs`).
`SyncModel.dfy` defines one tick against an arbitrary node and clock (a `Weather`: any call may
fail, any fetch may vanish, fail or stay unresolved, in any order), `SyncLoop.dfy` is the class
that performs ticks in place, `SyncTicks.dfy` says what a tick does in terms of answers and
clock alone, and `SyncRuns.dfy` proves honesty, convergence, resync spacing, that nothing is
lost to caps and errors, and estimate provenance over whole runs.

`dafny verify dfyconfig.toml` checks everything.

## Model

| member | source | states |
|---|---|---|
| Ancestry.BuildAncestors | src/gbt.rs:272-299 | On any in-range graph, cyclic or not, the memoised search terminates, restores the recursion stack, and returns and memoises exactly the sets `Search` gives, each without repetition, whatever order hash sets are walked in |
| Ancestry.SearchGenuine | src/gbt.rs:279-298 | On any in-range graph a search returns only genuine ancestors and never changes a filled slot |
| Ancestry.SearchComplete | src/gbt.rs:279-298 | On an acyclic graph with an exact memo it returns exactly the ancestors and leaves every slot exact |
| Ancestry.BuildAllAncestors | src/gbt.rs:154-162 | One search per transaction sharing the memo gives every transaction the set `ClosuresOf` says |
| Ancestry.ClosuresAreAncestors | src/gbt.rs:154-162 | Those sets hold only what is reachable through parents, and on acyclic graphs all of it |
| Ancestry.ClosuresHoldParents | src/gbt.rs:288-293 | On cyclic graphs too every parent is among the ancestors found |
| ScoreHeap.BinaryHeap.Push | src/gbt.rs:165-172 | Adds exactly one entry and keeps the heap order |
| ScoreHeap.BinaryHeap.Pop | src/gbt.rs:181-181 | Removes exactly one entry, one that no other entry outranks; nothing only from an empty heap |
| ScoreHeap.TopUnique | src/gbt.rs:98-108 | Score, then smaller order, then smaller uid leaves no ties, so the popped entry is determined |
| Projector.ScoreOf | src/gbt.rs:70-82 | The summing loop computes the lower of own rate and the rate of the package of unplaced ancestors |
| Projector.SortByKey | src/gbt.rs:206-213 | Sorting by ancestor count, order and uid yields the one arrangement of the set that this total order allows, whatever order the hash set listed it in |
| Projector.BuildPackage | src/gbt.rs:199-214 | The package is the unplaced ancestors in package order, then the transaction |
| Projector.Totals | src/gbt.rs:216-217 | Weight and fee are summed over the package members |
| Projector.CommitPackage | src/gbt.rs:232-238 | Exactly the members become used, join the block, add their weight and get the package's rate |
| Projector.RefreshDescendants | src/gbt.rs:309-338 | The stack search reaches every descendant, through used and unused children alike, and pushes one fresh entry for each that is not placed and nothing else |
| Projector.BuildAudits | src/gbt.rs:134-162 | Children are exactly the reversed parent edges, ancestors the sets of the search |
| Projector.FillHeap | src/gbt.rs:164-172 | The initial heap has one entry with its exact score per transaction |
| Projector.PackOrDefer | src/gbt.rs:219-241 | A package that fits, or meets an empty or unlimited block, is placed; any other is deferred |
| Projector.CloseIfFull | src/gbt.rs:243-258 | A limited block is closed when failures pass the limit or the heap is drained, and only then are deferrals requeued with fresh scores (when that is over a run: ClosedEarlyIff, DrainedClosesIff) |
| Projector.Iterate | src/gbt.rs:181-259 | One pass of the loop body computes the specified step, including the skip of used entries and the lazy rescore |
| Projector.ProjectWith | src/gbt.rs:120-269 | For every in-range input, cyclic or not, the method terminates and returns what the one complete run of the packing loop leaves |
| PackingRun.StepProgress | src/gbt.rs:301-308 | Every iteration, on cyclic graphs too, decreases lexicographically: unplaced transactions, limited blocks left, heap size, entries whose score is not current |
| PackingRun.RunCompletes | src/gbt.rs:181-259 | Every run can be carried on to an empty heap |
| PackingRun.CompleteRunUnique | src/gbt.rs:199-214 | An input with given ancestor sets has one complete run |
| PackingRun.ProjectionUnique | src/gbt.rs:120-269 | Every in-range input, cyclic or not, has one projection, whatever order hash sets are walked in |
| PackingTheorems.HeapStaysFresh | src/gbt.rs:186-197 | At every loop head, on cyclic graphs too, each unplaced transaction is deferred or has a heap entry with its exact current score |
| PackingTheorems.NoJustifiedEnvy | src/gbt.rs:181-242 | Whenever a package is placed its target scores at least as high, up to 1e-9, as every unplaced transaction whose package would still fit, and as every unplaced one if the block is empty or unlimited |
| PackingTheorems.CpfpOnlyLifts | src/gbt.rs:199-242 | Every member of a placed package ends with the package's rate, which is at least its own score at that moment up to 1e-9 |
| PackingTheorems.EveryRateLifts | src/gbt.rs:199-242 | Every rated transaction was placed by some iteration and ends with that package's rate, which is at least its own score at that moment up to 1e-9 |
| PackingTheorems.RootsNeverBelowOwnRate | src/gbt.rs:70-82 | A transaction without parents never ends below its standalone rate, up to 1e-9 |
| PackingTheorems.Conservation | src/gbt.rs:181-268 | At the end the blocks hold each rated transaction exactly once, and together with the left-over deferrals they partition the input |
| PackingTheorems.TopologicalOrder | src/gbt.rs:199-214 | Parents come before children in the concatenated blocks |
| PackingTheorems.PrefixIsAncestorClosed | src/gbt.rs:233-238 | The first k blocks contain all ancestors of what they contain |
| PackingTheorems.BlockLimits | src/gbt.rs:216-263 | At most max(1, max_blocks) blocks, none empty; each limited block respects the weight limit or is exactly one package, the one its transaction needed when the block was opened |
| PackingTheorems.FeeConservation | src/gbt.rs:58-65 | With positive weights, effective rate times weight summed over placed transactions is four times their fees |
| PackingTheorems.DeferralLosesNothing | src/gbt.rs:219-258 | From its deferral until its block closes a transaction stays unplaced and block weight plus its remaining package stays above the limit |
| PackingTheorems.DrainedBlockIsMaximal | src/gbt.rs:243-258 | A block closed because the heap drained leaves no unplaced package that would have fitted |
| PackingClosing.ClosedEarlyIff | src/gbt.rs:243-258 | While entries are left, a block is closed exactly when more than 1000 packages have failed to fit since the last placement or closing, and at the last of these failures |
| PackingClosing.ClosedEarlyDefersMany | src/gbt.rs:243-258 | A block closed while entries are left leaves over 1000 deferred packages to the next |
| PackingClosing.DrainedClosesIff | src/gbt.rs:243-258 | When the last entry has just been placed or postponed, the block is closed exactly if another one may follow |
| PackingClosing.HighestFirst | src/gbt.rs:98-108 | Each iteration deals with the entry of highest score, of equal ones that of smaller order, then of smaller uid |
| PackingClosing.ActsOnCurrentEntries | src/gbt.rs:183-197 | An entry is placed or postponed exactly if its transaction is not placed and its score is current up to 1e-9 |
| PackingClosing.DriftedEntryRescored | src/gbt.rs:190-197 | An entry whose score drifted by more is replaced by an exact one, and nothing else happens |
| PackingClosing.PlacedInOrder | src/gbt.rs:199-214 | A placement appends the missing ancestors by number of ancestors, then order, then uid, and then the target |
| PackingClosing.WeightlessScoresZero | src/gbt.rs:59-61 | A transaction without weight competes with score zero, whatever it pays |
| PackingClosing.WeightlessRatedZero | src/gbt.rs:59-61 | A package without weight gets the rate zero |
| Completeness.PlacesAllIffNeverStrands | src/gbt.rs:181-259 | Everything is placed if and only if the run never skips a stale entry that empties the heap while work is deferred |
| Completeness.DrainingAlwaysPlacesAll | src/gbt.rs:224-228 | With the drained-heap check also on the skipping path every acyclic input is placed completely |
| Completeness.OneBlockPlacesAll | src/gbt.rs:219-222 | With at most one block everything is placed |
| Completeness.SmallInputPlacesAll | src/gbt.rs:219-222 | If one block has room for the whole input everything is placed |
| Completeness.IndependentTxsAllPlaced | src/gbt.rs:181-263 | If no transaction has a parent everything is placed |
| Completeness.TwoTxsPlaceAll | src/gbt.rs:181-263 | Inputs of at most two transactions are placed completely |
| Stranding.TrapLosesFiller | src/gbt.rs:183-185 | For any weights of a parent, its child and an unrelated filler that all pay one rate and do not fit one block together, and two or more blocks, parent and child make up the only block and the filler is in none |
| Stranding.CompleteIffRoomForAll | src/gbt.rs:181-263 | Acyclic inputs whose transactions weigh at least `least` each and at most `total` together are all placed completely if and only if at most one block is asked for, or the reserve and `total` are within the limit, or `total` is below three times `least` |
| Stranding.CompleteIffAtMostOneBlock | src/gbt.rs:219-258 | The settings under which every acyclic input is placed completely are exactly those with at most one block |
| Tiers.TierAtDepth | src/fees.rs:50-60 | The scan of the sorted list returns the largest rate above the floor that transactions of at least depth times 3,996,000 weight units pay at least, or the floor if there is none |
| Tiers.RecommendedTiers | src/fees.rs:67-82 | All four tiers are those of the unsorted input, at 3,996,000, 11,988,000, 23,976,000 and 31,968,000 weight units, non-increasing with depth and at least the floor |
| Tiers.TierIsQuantile | src/fees.rs:50-60 | Depth counts 3,996,000 weight units a block, as far as a 64-bit number can: the tier is the largest rate above the floor that so much weight pays at least, or the floor |
| Tiers.TierPermuted | src/fees.rs:73-73 | A tier does not depend on the order of the list |
| Tiers.TierUnique | src/fees.rs:45-60 | The order-free definition determines the tier |
| Tiers.TierAboveFloorIff | src/fees.rs:45-60 | A tier exceeds the floor exactly when enough weight pays at least some rate above the floor |
| Tiers.ShortMempoolAtFloor | src/fees.rs:45-49 | A mempool with less weight than the depth asks for has the floor as tier |
| Tiers.TierNonIncreasing | src/fees.rs:48-49 | Deeper tiers are never higher |
| Tiers.MoreDemandNeverLowers | src/fees.rs:62-66 | One more rate and weight in the list of rated transactions never lowers a tier (one more transaction in the mempool can: see ArrivalLowersTier) |
| FeePipeline.SnapshotToGbt | src/fees.rs:87-110 | The map-filling loop and the adaptation produce the snapshot's representation |
| FeePipeline.RepresentsMeans | src/fees.rs:84-110 | That representation has dense uids, in-range parents, and as parents exactly the listed dependencies that are in the mempool, at the last position that lists them |
| FeePipeline.RepresentsUnique | src/fees.rs:87-110 | A snapshot has one representation |
| Txids.LeadingBytesAreFirst | src/fees.rs:102-103 | The tie-breaker is the first four of the 32 bytes of an id |
| FeePipeline.Project | src/gbt.rs:116-118 | The projection is that of 8 blocks of 4,000,000 weight units with 4,000 reserved |
| FeePipeline.ComputeEstimate | src/fees.rs:113-131 | The estimate has the tiers of the effective rates of a complete run on the snapshot; unplaced transactions have no say |
| FeePipeline.EstimateMeans | src/fees.rs:112-131 | The tiers are read off the effective rates of a projection of the snapshot at 1, 3, 6 and 8 blocks of weight, each placed transaction counted once with its weight, and no other |
| FeePipeline.EstimateDeterministic | src/fees.rs:112-131 | Two computations from the same snapshot, whatever its dependencies, give the same tiers |
| ArrivalEffects.ArrivalLowersTier | src/fees.rs:112-131 | At the default limits a mempool whose next-block tier is the rate everybody pays, up to 1e-9, has the floor instead once a child paying that rate arrives, because the projector then loses a transaction as large as a block |
| PackageIndex.TotalsAreChainSums | src/sim/mock_node.rs:61-65 | In a truthful index all four totals of every transaction equal the sums along its chain, and chains repeat nobody |
| PackageIndex.LineageMirrorsOffspring | src/sim/mock_node.rs:64-65 | Being an ancestor by parent references and being a descendant by the child index are the same relation |
| PackageIndex.ShapesDetermineTotals | src/sim/mock_node.rs:155-162 | Parent references and own figures determine the child index and all totals of a truthful index |
| PackageOps.AttachedTruthful | src/sim/mock_node.rs:386-403 | Inserting a child and bumping its ancestors keeps the index truthful and chains within the maximum |
| PackageOps.LeafRemovedTruthful | src/sim/mock_node.rs:405-422 | Removing a leaf and subtracting it from its ancestors keeps the index truthful |
| PackageOps.DescendantTotalsCover | src/sim/mock_node.rs:378-381 | Every ancestor's descendant totals include the transaction, so the saturating subtraction never stops at zero |
| PackageConfirm.SurvivorsRepairing | src/sim/mock_node.rs:163-186 | After rerooting and removal only the children of new roots have stale ancestor totals |
| PackageConfirm.RepairStep | src/sim/mock_node.rs:190-203 | Recomputing one child from its parent moves the staleness one step down its chain |
| MockNode.Node.constructor | src/sim/mock_node.rs:92-101 | A new node holds exactly its first arrivals and is loaded and truthful |
| MockNode.Node.AncestorsOf | src/sim/mock_node.rs:313-326 | The walk returns the lineage above the transaction, nearest first |
| MockNode.Node.AdjustDescendantTotals | src/sim/mock_node.rs:370-384 | Exactly the transaction's lineage has its descendant totals moved |
| MockNode.Node.AttachChild | src/sim/mock_node.rs:388-403 | Adds the child with its link and figures and a fee of exactly the maximum rate times its size, capped at 64 bits; changes nobody else's, and stays truthful with chains within the maximum |
| MockNode.Node.RemoveLeaf | src/sim/mock_node.rs:408-422 | Removes exactly the leaf and its link, or nothing if it is absent or has a child, and stays truthful |
| MockNode.Node.EvictOne | src/sim/mock_node.rs:111-121 | Descends to the end of some chain and removes exactly that transaction |
| MockNode.Node.MassDrop | src/sim/mock_node.rs:131-144 | Removes exactly the given fraction rounded down, nothing if it is negative, everything from one on; the survivors keep their parents and figures, and nobody is orphaned |
| MockNode.Node.PickParent | src/sim/mock_node.rs:336-365 | Returns the cheapest of up to 8 draws, ties to the smaller id, from the childless transactions whose chain has room; none exactly when chaining is off or nothing is eligible |
| MockNode.Node.AllDrawn | src/sim/mock_node.rs:352-364 | If the draws cover all eligible transactions, the pick is the one of lowest own rate, and of smallest id among these |
| MockNode.Node.AddArrival | src/sim/mock_node.rs:426-437 | If it tries to attach and some childless transaction has room in its chain, the arrival becomes the child of the picked parent and pays the maximum rate; otherwise it stands alone and pays its own rate: its fee is rate times size, capped at 64 bits; nothing else changes |
| MockNode.Node.AddArrivals | src/sim/mock_node.rs:102-104 | Afterwards the mempool is what it was, untouched, and exactly the arrivals |
| MockNode.Node.Advance | src/sim/mock_node.rs:109-125 | Evictions then arrivals: the exact size, all arrivals and nobody else new, survivors untouched, a reload over, the index truthful |
| MockNode.Node.ConfirmSet | src/sim/mock_node.rs:163-204 | Confirming any ancestor-closed set removes it, reroots exactly the survivors whose parent left, and every total is exact again |
| MockNode.Node.MineBlock | src/sim/mock_node.rs:210-250 | Confirms what the greedy pass over the ranking confirms: an ancestor-closed set of weight at most 4,000,000 that leaves no room for any chain it leaves out, each of those crowded out by chains ranking at least as high; the tip advances by one |
| MockNode.MinedUnique | src/sim/mock_node.rs:216-221 | The same mempool gives the same block, however its hash maps are walked: ties are broken by id |
| MockNode.BetterRankedConfirmed | src/sim/mock_node.rs:216-221 | If a lone transaction is confirmed, so is every lone one no larger that has a higher rate, or the same rate and a smaller id |
| MockNode.BlockVsize | src/sim/mock_node.rs:210-250 | A block holds at most a million virtual bytes, and what is left of any chain not confirmed would exceed that |
| Mirror.MirrorAcyclic | src/fees.rs:87-110 | The projector's graph of the simulated mempool is acyclic |
| Mirror.PackageTotals | src/sim/mock_node.rs:146-153 | The projector's package sums equal the node's ancestor totals |
| Mirror.SimulatorMirrorsProjector | src/sim/mock_node.rs:146-153 | The node's integer rate is the floor of the score the projector starts the transaction with |
| Decision.MassDropIsFifth | src/sync/decision.rs:31-34 | For any cache size that fits the machine word the saturating test means: at least 100 cached and the node holds less than a fifth |
| Decision.ReactionMeans | src/sync/decision.rs:60-80 | A reaction is called for exactly by a node that is not loaded or a mass drop, the first reason taking precedence, and the cooldown decides between waiting and downloading |
| SyncLoop.FetchNewEntries | src/sync/mod.rs:487-564 | The consuming loop and the drain after the budget keep exactly the found answers among those consumed, each converted field by field, count the failures, and report incompleteness exactly when a candidate was not resolved |
| SyncModel.ConvertCaches | src/mempool.rs:42-69 | Fees and parents are cached as reported, sizes capped at 32 bits, the weight reported or four times the virtual size, time zero if absent |
| SyncLoop.SortSnapshot | src/sync/mod.rs:119-131 | The snapshot lists the cache once, sorted by id |
| SyncLoop.SizeAdds | src/sync/decision.rs:94-101 | The predicted size is the real new cache size and its subtraction does not underflow |
| SyncLoop.Sync.SetSynced | src/sync/mod.rs:60-90 | The flag is set and exactly its changes are logged |
| SyncLoop.Sync.ApplyBulkSuccess | src/sync/mod.rs:98-102 | Both freshness fields are set together |
| SyncLoop.Sync.BulkResync | src/sync/mod.rs:574-615 | If all three calls succeed the cache is exactly the reported mempool, field by field, with the reported minimum fee and tip; otherwise everything is left alone |
| SyncLoop.Sync.MaybeRecomputeFees | src/sync/mod.rs:109-154 | Stores an estimate of exactly the current cache unless throttled or the computation fails |
| SyncLoop.Sync.ColdStart | src/sync/mod.rs:282-299 | Retries until a bulk load succeeds and loads the first reply that does, then stamps the cooldown and forces a first estimate |
| SyncLoop.Sync.SteadyTick | src/sync/mod.rs:305-477 | A tick takes the loop to a state the model allows, which the SyncTicks rows spell out; exactly the incremental ticks report a size, and it is the real one |
| SyncTicks.UnansweredTick | src/sync/mod.rs:313-343 | A tick that cannot ask the node changes nothing but calls the cache stale |
| SyncTicks.DistrustedTick | src/sync/mod.rs:350-392 | A node that says it is loading, or holds less than a fifth of a cache of 100 or more, is left alone within 60 seconds of the last download attempt, and then downloaded as a whole: the cache becomes exactly the dump and fresh, or stays and is stale if a call fails |
| SyncTicks.TrustedTick | src/sync/mod.rs:394-462 | Otherwise what is no longer listed is dropped, exactly the consumed found answers are added as reported, and the rest stays |
| SyncTicks.TrustedTickFlags | src/sync/mod.rs:417-462 | The minimum fee and, if it came, the tip are taken over; the cache is fresh exactly if every listed transaction that was not cached has been asked for and answered without error |
| SyncTicks.ConsumedIsResolved | src/sync/mod.rs:534-553 | The answers used are those up to the one that exceeds the time budget and those at hand then |
| SyncTicks.AsksForNew | src/sync/mod.rs:487-504 | A tick asks for up to 2000 of the listed transactions that are not cached, and no others |
| SyncTicks.UnsaidMeansLoaded | src/sync/mod.rs:323-324 | A node that does not say whether it is loaded is treated as loaded |
| SyncTicks.RenewsEstimate | src/sync/mod.rs:109-154 | A stale tick leaves the estimate alone; a download renews it, and any other fresh tick does once the interval is over, and not before |
| SyncTicks.StartIsDump | src/sync/mod.rs:282-299 | The cold start leaves exactly the reported mempool, called fresh |
| SyncTicks.EstimateReadsTiers | src/sync/mod.rs:119-134 | A stored estimate reads its tiers off a projection of the whole cache, each transaction once with its fee, weight and parents, with the minimum fee as floor |
| SyncRuns.HonestTick | src/sync/mod.rs:417-462 | The cache is called fresh exactly when this tick downloaded everything or resolved every new transaction without error |
| SyncRuns.HonestyOverRuns | src/sync/mod.rs:305-462 | Between ticks of any run, fresh implies a last-success time and evidence from the tick before: the keys of the dump, or the node's list less exactly the transactions whose fetch answered that they are gone |
| SyncRuns.EntryProvenance | src/sync/mod.rs:394-455 | Every cached entry is what the node reported in the initial load, a tick's dump or a consumed answer, field by field, cached unchanged since |
| SyncRuns.BulkSpacing | src/sync/mod.rs:350-392 | Bulk attempts, failed ones included, are at least 60 seconds apart, and the first at least 60 seconds after the initial load |
| SyncRuns.EstimateProvenance | src/sync/mod.rs:464-476 | Every stored estimate was computed from a cache that was fresh at the time |
| SyncRuns.CalmTick | src/sync/mod.rs:394-462 | Against a node that stands still a tick drops what the node no longer has and fetches min(2000, missing) of the rest |
| SyncRuns.MissingFalls | src/sync/mod.rs:394-462 | After k ticks max(0, missing - 2000 k) transactions are missing and no mass drop has arisen |
| SyncRuns.Convergence | docs/sync-explained.md:68-70 | The cache is fresh, and equal to the node's set, from exactly tick max(1, ceil(missing / 2000)) on |
| SyncRuns.SteadyTickAddsUp | src/sync/mod.rs:394-462 | Whatever the fetches answer, a tick against a steady node makes exactly what it fetched no longer missing and drops nothing the node has |
| SyncRuns.NothingLost | src/sync/mod.rs:479-486 | Over any run against a steady node, with calls failing, caps, fetch errors and budget bails, what is missing and what was fetched add up to what was missing at first, what was cached of the node's stays cached, and no mass drop arises |
| SyncRuns.MassDropWaits | src/sync/mod.rs:353-361 | During the cooldown after a mass drop the cache is untouched and called stale |
| SyncRuns.MassDropRecovers | src/sync/mod.rs:365-389 | The first tick after the cooldown makes the cache equal to the node's set |
| SyncRuns.CacheDeterminesEstimate | src/sync/mod.rs:128-131 | The same cache gives the same tiers however its hash map is walked |

## Left out

- Rounding and NaN: rates are exact reals; the zero-weight guard and the 1e-9 tolerance are kept.
- Integer widths of sums: fees, weights and totals are unbounded; the clamps, saturating products and saturating subtractions the code writes out are modelled.
- Projector.CommitPackage: the body of the packing loop is split into methods, and the loop's variables besides the used flags and the heap travel as one record.
- ScoreHeap.BinaryHeap.Pop: the heap is an implicit binary tree over a sequence; the standard library's own heap is not part of this model.
- MockNode.Node.AttachChild: random sizes and ids are parameters; ids are assumed fresh.
- MockNode.Node.Evict: which transaction each eviction starts from is arbitrary, as hash order decides it.
- Fee sampling, seeds and the power-law distribution of the simulator.
- Waiting for the node to finish loading, sleeping, wake-ups, reconnecting and logging text; the log is modelled as the set of its transitions.
- Concurrency inside a tick beyond the order in which fetches complete: the cache has one writer, and each critical section is atomic.
- RPC transport, JSON decoding, HTTP server, configuration and command line.
