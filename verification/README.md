# Air-HUIM in Dafny

Air-HUIM mines high-utility itemsets (HUIs) under a memory budget. An itemset is of high utility when
some transaction contains it and its summed utility over the transactions that contain it reaches the
threshold. Every exact engine of the repository has to print exactly these itemsets, whatever it
prunes, spills or evicts on the way. This project models the engines, the byte ledger and the storage
they spill through, and proves that they do.

The specification is in `Huim.dfy`, once for all engines: `Utility`, `Twu`, `Supported`, `IsHui`, `Huis`,
and `Emits(db, out, F)`, which says that the output `out` names each member of the family `F` once, with
its utility in `db` and with nothing else. `Sound(db, out, F)` says the same without "each": nothing
wrong and nothing twice. Every engine is sound whatever fails.

| Files | Subject |
|---|---|
| `Huim` | specification; families of itemsets and their branches; sums over the database |
| `TwuFilter`, `UtilityLists`, `Eucs`, `FilteredDb` | filtering and order, utility lists and joins, co-occurrence table, the filtered database |
| `Fhm` | FHM and FHM+ (one search, `Lengths` tells them apart) |
| `TopK`, `Tko`, `TkoTermination` | TKO: bounded heap; state machine of interleaved workers; a bound on all schedules |
| `TkoTables`, `TkoSchedule` | TKO on a table the guard cut short; a run whose result depends on the schedule |
| `TwoPhase` | vertical depth-first search |
| `Efim` | EFIM and EFIM-Closed (one search, `closedOnly` tells them apart) |
| `WeightedPaths`, `TreeArena`, `PrefixTree`, `ConditionalTrees`, `PatternBase`, `CandidateCheck` | what IHUP and UP-Growth share |
| `Ihup`, `UpGrowth` | the two tree engines |
| `Bytes`, `PageLayout`, `ChunkStore`, `Lru`, `BufferPool`, `PoolRuns` | storage below the engines |
| `MemoryGuard`, `GuardProtocol`, `OverFree` | the byte ledger: sequential, as atomic steps of many threads, and with clients that free what they were refused |
| `Chunker` | transactions packed into pages, and the directory over them |
| `Limits` | no overflow, and why each assumption on the input is needed |
| `Output`, `Options` | result lines; `Option` |

## What is assumed of the input

`ValidDatabase`: transaction ids rise, items within a transaction are distinct, no utility is negative,
and the transaction utility is at least the sum of its items. `FitsWidths`: twice the total transaction
utility fits in `i64`, ids fit in `u32`, and the database has fewer than about 2^27 transactions.
`FitsProjection` (EFIM): filtered transactions have fewer than 2^16 items. `Limits.dfy` shows by
counterexample that utilities must not be negative and that "twice" cannot be dropped.

## How failure is modelled

What happens to every disk operation is an input: the store is given a schedule of outcomes (`Disk`), in
which any operation may be refused or a write cut short after any number of bytes, and counts the
operations that failed (`ChunkStore.faults`); `ResultWriter` is given which lines reach the output
(`Device`) and knows how many did not (`Lost`). Every contract ties failure to these: an engine returns
an error, or drops work where the source ignores errors, only if an operation failed during the run, or
the pool is too small for a single page it needs, or, for the trees, 32-bit pointers may run out
(`Excused`, `ArenaExcused`). So each run states, over the inputs and these counts alone, when it succeeds
and what it then writes. The ghost results `clean` record a dropped error.

Tasks that the source hands to a thread pool run one after the other here, except in `Tko.dfy`, where
the engine's result depends on the interleaving, and in `PoolRuns.dfy` and `GuardProtocol.dfy`, which
interleave any number of clients. For the other engines tasks share only the pool, the guard and the
writer: pool steps of other clients change no page (`PoolRuns.Run`), the results hold for any answers
of the guard, and the order of output lines does not matter (`Huim.EmitsPermuted`).

## Where code and documentation disagree

- `src/mining/components/eucs.rs:49-50` says that a table cut short by the guard only prunes less. A
  missing pair is pruned (`eucs.rs:69-71`), so results can be lost: `Fhm.RefusalLosesResults` is a run
  that loses one. Which pairs the table then holds, and with which amounts, is a function of the
  database and of the room in the guard (`EucsTable.FinalKeys`, `EucsTable.FinalAmounts`). A run is exact
  at one threshold exactly when the pairs inside HUIs survive (`Fhm.ExactIffPairsSurvive`), and at
  every threshold exactly when all pairs that occur together fit (`Fhm.ExactAtEveryThreshold`). TKO runs
  on with the same table: it is exact for every k and every schedule exactly when all pairs fit
  (`TkoTables.ExactForEveryK`); otherwise its result can depend on the schedule
  (`TkoSchedule.DependsOnSchedule`).
- `src/types/transaction.rs:4` says utilities are signed to support negative ones. Pass 1, which every
  engine runs first, keeps all HUIs at every threshold exactly when the TWU of an item bounds the utility
  of every supported itemset that contains it (`Limits.FilterSafeIff`). Negative utilities can break
  this (`Limits.NegativeUtilityLost`); the engines are proved for utilities that are not negative.
- `src/preprocessing/chunker.rs:49` says 12 bytes per item entry; the code writes 16, as the note on the
  next line says.
- `src/mining/algorithms/two_phase.rs:166-183` takes a row that cannot be read as an empty one. With a
  threshold of zero or less it then writes the item with utility 0 (`TwoPhase.WriteRoot`), the one way in
  which a failing disk can make an engine write a wrong line.
- `src/mining/algorithms/efim.rs:31` calls a projection entry 28 bytes; it is serialized as 24.
- `src/mining/algorithms/efim.rs:302` frees a branch's bytes also when they were refused and spilled, so
  bytes that others hold stop being counted. If no work is dropped, the ledger ends where it began
  exactly when all projections on the way to any prefix the search visits fit the guard together
  (`Efim.Run`, `Efim.AllFitIff`); `Efim.RunIntoFullGuard` runs into the other case and is then granted what
  does not fit. With many threads the counter falls below the bytes held by at most what was freed too
  much (`OverFree.FallBounded`), and two overlapping frees of this kind can take it below zero, where
  the source's wraps (`OverFree.TwoOverFrees`). The repository's README calls the budget a mathematical limit; that holds of granted
  bytes under disciplined frees (`GuardProtocol.RunExact`), not of forced ones.

## Model

| member | source | states |
|---|---|---|
| Huim.HuiSubsetTwu | src/mining/algorithms/two_phase.rs:274 | every subset of a HUI is supported and has a TWU of at least the threshold: the anti-monotonicity every TWU test relies on |
| Huim.CoveredStep | src/mining/algorithms/fhm.rs:222-246 | the i-th turn of a left-to-right loop over extensions covers exactly the branch over the later ones, and nothing covered before |
| Huim.ReportsLoopStep | src/mining/algorithms/fhm.rs:222-285 | appending what one branch reported to what the branches before reported keeps the output sound and free of repetitions, and complete if both were |
| Huim.EmitsPermuted | src/mining/core/context.rs:73-121 | the order in which parallel workers deliver their lines does not matter to exactness |
| Huim.SameResults | src/experiment/exactness_checker.rs:35-56 | two exact outputs for one database agree line by line: no false positive, no false negative, no utility mismatch |
| TwuFilter.Compute | src/preprocessing/twu_filter.rs:72-91 | one pass yields exactly the supported items whose TWU reaches the threshold, with that TWU, in ascending (TWU, id) order |
| TwuFilter.Apply | src/preprocessing/twu_filter.rs:34-54 | None exactly when no item passes; otherwise exactly the kept entries, sorted, carrying all utility of kept items |
| TwuFilter.SuffixUtility | src/mining/algorithms/fhm.rs:78-89 | in a filtered transaction what remains behind an entry is the utility of all kept items after it in the global order |
| TwuFilter.HuiKept | src/preprocessing/twu_filter.rs:84 | filtering loses nothing: every item of every HUI passes |
| TwuFilter.TwuOfIs | src/preprocessing/twu_filter.rs:72-91 | the filter's map is a function of database and threshold: there is one such map, and its keys are the items that pass |
| TwuFilter.SortedUnique | src/preprocessing/twu_filter.rs:86-88 | the (TWU, id) sort has one result, whatever order the hash map yields |
| UtilityLists.ULSums | src/types/utility_list.rs:45-63 | a list's sums are the exact utility and the remaining utility of its itemset, and it is empty exactly when the itemset is unsupported |
| UtilityLists.PrunedIff | src/types/utility_list.rs:52-63 | a list is pruned exactly when its itemset is unsupported or its utility and what may still be added miss the threshold together, and is reported exactly when it is a HUI |
| UtilityLists.MergeTwo | src/mining/components/ul_join.rs:71-91 | the two-pointer merge of the lists of two items is the list of the pair, with matching sums |
| UtilityLists.SeekPrefix | src/mining/components/ul_join.rs:105-111 | the prefix pointer finds the prefix's utility in the common transaction |
| UtilityLists.MergeThree | src/mining/components/ul_join.rs:93-118 | the three-pointer merge of the lists of P, Px and Py is the list of Pxy: ids are the support, utilities count P once |
| UtilityLists.Merge | src/mining/components/ul_join.rs:59-119 | the empty-prefix switch picks the right merge for every prefix: the result is always the list of the union |
| UtilityLists.SerializeBody | src/mining/components/ul_join.rs:13-22 | twenty bytes per entry in the documented layout |
| UtilityLists.BodyRoundTrip | src/mining/components/ul_join.rs:13-33 | a spilled list decodes to itself |
| UtilityLists.ULFits | src/mining/components/ul_join.rs:17-19 | every entry of every list fits its integer types when the total utility does |
| UtilityLists.JoinFits | src/mining/components/ul_join.rs:112 | px + py before the prefix is subtracted stays in i64 when twice the total utility does |
| UtilityLists.SumsFit | src/types/utility_list.rs:48-50 | iutils and rutils sums, while a list is built and when it is whole, and the bound that adds them, stay in i64 |
| EucsTable.CompleteKeepsHuis | src/mining/components/eucs.rs:64-72 | a complete table cuts no pair inside a HUI |
| EucsTable.Eucs.AddTransaction | src/mining/components/eucs.rs:18-31 | granted or refused, the new table is exactly the pairs bumped in visiting order up to the first new one without room; success is reported exactly when every pair of the transaction got in, which is when there are 32 more bytes for each pair that is new; the ledger grows by 32 bytes per new entry |
| EucsTable.FinalKeys | src/mining/components/eucs.rs:18-31 | after any database the table holds exactly the first distinct pairs the passes meet, as many as there was room for |
| EucsTable.FinalAmounts | src/mining/components/eucs.rs:18-31 | and a pair's amount is the utility of exactly those transactions that reach it before a pair that is not in the table |
| EucsTable.AllIn | src/mining/components/eucs.rs:22-26 | every pair gets in if and only if there is room for all co-occurring pairs of kept items |
| EucsTable.FinalComplete | src/mining/components/eucs.rs:18-31 | with that room the table is complete: all co-occurring pairs, with their exact TWU |
| EucsTable.RecordedTwu | src/mining/components/eucs.rs:27 | a recorded amount is never above the pair's TWU |
| Fhm.GetBody | src/mining/algorithms/fhm.rs:290-307 | a body, resident or spilled, resolves to the same entries whatever the pool evicted |
| Fhm.JoinUtilityLists | src/mining/components/ul_join.rs:59-149 | the joined header and body are those of the union, in memory below 4096 bytes and as a page from there on |
| Fhm.PrunedBranch | src/types/utility_list.rs:54-56 | when iutils + rutils misses the threshold, nothing in the whole branch is a HUI |
| Fhm.CutItems | src/mining/algorithms/fhm.rs:250-253 | skipping extensions the table cuts against x loses nothing that is wanted |
| Fhm.StoppedBranch | src/mining/algorithms/fhm_plus.rs:242 | below the longest length nothing is admitted |
| Fhm.StopsIff | src/mining/algorithms/fhm_plus.rs:242 | FHM+ stops extending exactly where no longer itemset is admitted |
| Fhm.BuildNext | src/mining/algorithms/fhm.rs:242-273 | the next level holds exactly the joins with later extensions the table keeps |
| Fhm.Visit | src/mining/algorithms/fhm.rs:222-285 | one turn of the search emits exactly the wanted itemsets of its branch, or, when it fails, some of them and nothing else |
| Fhm.Search | src/mining/algorithms/fhm.rs:212-287 | the recursive search emits exactly the wanted itemsets that extend the prefix, once each; when it fails, some of them and nothing else |
| Fhm.CollectTransaction | src/mining/algorithms/fhm.rs:78-89 | pass 2 keeps every item's list canonical, transaction by transaction |
| Fhm.Pass2 | src/mining/algorithms/fhm.rs:63-91 | lists of single items are exact; the table is the final table of the database and the guard's room, whatever is refused; it is complete if and only if all co-occurring pairs fit |
| Fhm.FirstLevel | src/mining/algorithms/fhm.rs:93-134 | the first level has one extension per kept item, in (TWU, id) order, with exact headers |
| Fhm.Run | src/mining/algorithms/fhm.rs:42-209 | a run that meets no fault on disk or output, with 20 bytes of pool per transaction, succeeds; a successful run writes exactly the HUIs of admitted length whose pairs the final table keeps, once each with exact utilities, that table being a function of database, threshold and room; with 32 bytes for every co-occurring pair these are all HUIs, for FHM+ those of at least the shortest and at most the longest length; the ledger grows by 32 bytes per entry |
| Fhm.CompleteWanted | src/mining/algorithms/fhm.rs:157-165 | with a complete table nothing but length restricts the HUIs that are found |
| Fhm.SurvivesIffNotCut | src/mining/components/eucs.rs:64-72 | the search does not cut a pair exactly when it is among the first that fit and its unbroken transactions reach the threshold |
| Fhm.WrittenIff | src/mining/algorithms/fhm.rs:242-273 | what a run writes: exactly the HUIs all of whose pairs survive |
| Fhm.ExactIffPairsSurvive | src/mining/components/eucs.rs:64-72 | at one threshold a run is exact if and only if every pair inside some HUI survives, stated over the inputs alone |
| Fhm.ExactAtEveryThreshold | src/mining/components/eucs.rs:18-31 | runs are exact at all thresholds if and only if the guard has room for all pairs of items that occur together |
| Fhm.NoRoomOnlySingles | src/mining/components/eucs.rs:69-71 | for every database, a run without room for one entry writes exactly the single-item HUIs |
| Fhm.RefusalLosesResults | src/mining/components/eucs.rs:22-26 | a run on two-item databases, with less than one entry of room in the guard, loses a HUI |
| TopK.PushPopTopK | src/mining/algorithms/tko.rs:41-44 | offering one result at a time keeps the heap the k greatest (utility, itemset) pairs of all offered |
| TopK.TopKUnique | src/mining/algorithms/tko.rs:24-28 | there is only one set of k greatest pairs |
| TopK.LexOrder | src/mining/algorithms/tko.rs:25 | vectors are compared by a strict total order, so ties in utility are decided |
| TopK.LexLessIs | src/mining/algorithms/tko.rs:25 | which way they are decided: the smaller vector is a proper prefix, or has the smaller item where the two first differ |
| TopK.TkoState.Update | src/mining/algorithms/tko.rs:39-57 | heap and threshold after one update: push, pop of the least beyond k, threshold raised to the least of a full heap; what leaves a full heap has the least utility and, among those, the vector that comes first by position |
| TopK.TkoState.Peek | src/mining/algorithms/tko.rs:46 | the least member of the heap |
| TopK.TkoState.Drain | src/mining/algorithms/tko.rs:249-254 | all members, each once, in strictly descending order |
| Tko.Prepare | src/mining/algorithms/tko.rs:101-174 | whatever is refused, both passes produce a valid configuration whose table is the final table of the database and the guard's room, and exact lists of single items; the table is complete if every request is granted |
| Tko.PrunedBelow | src/mining/algorithms/tko.rs:284-288 | a branch pruned at a threshold read earlier contains nothing that reaches that threshold |
| Tko.CutBelow | src/mining/algorithms/tko.rs:311-313 | an extension a complete table cuts at a threshold leads to nothing that reaches it |
| Tko.LocalSound | src/mining/algorithms/tko.rs:271-339 | a worker's step creates no pending work and drops only itemsets below the current threshold or with a pair the table, complete or not, cuts at it |
| Tko.OfferInv | src/mining/algorithms/tko.rs:297-299 | an update takes exactly the offered itemset out of what is pending: nothing is offered twice, also when the threshold read was stale |
| Tko.RaiseInv | src/mining/algorithms/tko.rs:45-55 | raising keeps the threshold justified by a full heap and never lowers it |
| Tko.StepInv | src/mining/algorithms/tko.rs:176-243 | with any table, every step of every worker keeps the invariant: each itemset is offered, or dropped at the threshold, or pending with exactly one owner |
| Tko.ThresholdRises | src/mining/algorithms/tko.rs:45-55 | over every schedule the threshold never decreases |
| Tko.ThresholdBelowKthBest | src/mining/algorithms/tko.rs:45-56 | at every moment of every schedule the threshold is at most the true k-th best utility |
| Tko.FinalHeap | src/mining/algorithms/tko.rs:176-265 | with a complete table, whatever the interleaving and however stale the reads, the final heap is exactly the k best of all supported itemsets, or all if fewer |
| Tko.ScheduleIndependent | src/mining/algorithms/tko.rs:176-243 | with a complete table any two complete schedules end with the same heap |
| Tko.Progress | src/mining/algorithms/tko.rs:39-57 | no schedule gets stuck: while work is left, some worker can step |
| TkoTermination.StepWork | src/mining/algorithms/tko.rs:271-339 | every step of every worker decreases a bound on the steps that are left |
| TkoTermination.ScheduleBounded | src/mining/algorithms/tko.rs:176-243 | so the length of every schedule is bounded in advance by the number of tasks |
| TkoTermination.MaximalFinishes | src/mining/algorithms/tko.rs:176-265 | every schedule that nobody can continue has finished, with a complete table with exactly the k best in the heap |
| TkoTermination.Completes | src/mining/algorithms/tko.rs:176-243 | every schedule can be continued until it has finished, with a complete table with the k best |
| TkoTables.OnlyTabled | src/mining/algorithms/tko.rs:311-313 | with any table, at every moment of every schedule the heap holds only supported itemsets all of whose pairs are in the table |
| TkoTables.ShortTableHeap | src/mining/algorithms/tko.rs:119-121 | when the heap is wide enough for all supported itemsets, every schedule of a run with refused requests ends with exactly those all of whose pairs got in |
| TkoTables.SurvivingBest | src/mining/algorithms/tko.rs:311-313 | for any k, a short table does no harm in any schedule if every pair inside the k best has an amount the k-th best utility does not pass |
| TkoTables.NoScheduleExact | src/mining/algorithms/tko.rs:119-121 | without room for all pairs, and k at least the number of supported itemsets, no finished schedule holds the k best |
| TkoTables.ExactForEveryK | src/mining/algorithms/tko.rs:119-121 | for every database: all finished schedules are exact for all k if and only if the guard has room for all pairs of items that occur together |
| TkoTables.RunExists | src/mining/algorithms/tko.rs:176-243 | every configuration has a finished schedule |
| TkoSchedule.DependsOnSchedule | src/mining/algorithms/tko.rs:196-203 | without that room, two finished schedules of one run end with different heaps, one exact and one not |
| Tko.EverySetSpelled | src/mining/algorithms/tko.rs:317-318 | every supported itemset has exactly one spelling in search order, so pairs and itemsets correspond |
| Tko.WriteResults | src/mining/algorithms/tko.rs:247-265 | what is written is the final heap, best first, each with its utility |
| TwoPhase.NodesRoundTrip | src/mining/algorithms/two_phase.rs:32-72 | spilled lists and index rows decode to themselves |
| TwoPhase.Intersect | src/mining/algorithms/two_phase.rs:242-263 | the two-pointer intersection is the list of the union; its running sums are the exact TWU and utility |
| TwoPhase.Extend | src/mining/algorithms/two_phase.rs:228-286 | one candidate is written exactly if it is a HUI and kept exactly if it is supported with enough TWU |
| TwoPhase.SurvivorsSuffice | src/mining/algorithms/two_phase.rs:274-302 | passing down only surviving siblings loses no HUI |
| TwoPhase.Dfs | src/mining/algorithms/two_phase.rs:210-317 | the search emits exactly the HUIs that extend the prefix by candidate items; whatever fails, it never emits anything else |
| TwoPhase.RenumberSums | src/mining/algorithms/two_phase.rs:119-133 | counting transactions by position changes no utility and no TWU |
| TwoPhase.BuildRows | src/mining/algorithms/two_phase.rs:115-134 | the inverted database has the exact list of every kept item |
| TwoPhase.StoreRows | src/mining/algorithms/two_phase.rs:136-144 | every row is behind its page |
| TwoPhase.Task | src/mining/algorithms/two_phase.rs:163-201 | a task emits exactly the HUIs whose first item is its own; it drops work only after a disk operation failed, or when the pool has less than 24 bytes per transaction |
| TwoPhase.Run | src/mining/algorithms/two_phase.rs:82-206 | when no disk operation fails and the pool has 24 bytes per transaction the run succeeds, and writes exactly the HUIs if no line is lost and the guard has 8 bytes per transaction; nothing without those; with a positive threshold every line it writes is a HUI with its utility, and none is written twice, whatever fails; the ledger ends where it began |
| FilteredDb.FilterDbHuis | src/mining/algorithms/efim.rs:97-119 | the filtered database has the same HUIs with the same utilities |
| FilteredDb.ClosedByItems | src/mining/algorithms/efim_closed.rs:303-324 | an itemset is closed if and only if no further item is in all its transactions |
| FilteredDb.ClosedInFiltered | src/mining/algorithms/efim_closed.rs:162-183 | a HUI is closed in the filtered database if and only if it is closed in the raw one |
| FilteredDb.CommonItemKept | src/mining/algorithms/efim_closed.rs:303-324 | an item in every transaction of a HUI passes the TWU filter itself |
| Efim.ProjTxRoundTrip | src/mining/algorithms/efim.rs:49-82 | a projection entry decodes to itself |
| Efim.DecodeProj | src/mining/algorithms/efim.rs:67-82 | a spilled projection decodes to itself |
| Efim.ProjectionFits | src/mining/algorithms/efim.rs:153-158 | indices, offsets and utilities of every projection fit their integer types |
| Efim.SubtreeBounds | src/mining/algorithms/efim.rs:233-234 | su bounds the utility of every itemset in the item's branch |
| Efim.SubtreeBelowLocal | src/mining/algorithms/efim.rs:251-252 | su never exceeds lu, so the lu test never removes what su let through |
| Efim.ComputeBounds | src/mining/algorithms/efim.rs:225-236 | the loops compute exactly lu and su of every item behind the prefix, and no other item |
| Efim.Project | src/mining/algorithms/efim.rs:254-270 | the new projection is exactly the support of the extended prefix with exact prefix and path utilities |
| Efim.IsClosed | src/mining/algorithms/efim_closed.rs:304-324 | the flag loops decide closedness in the filtered database |
| Efim.Spill | src/mining/algorithms/efim.rs:287-295 | a projection stands for the same entries, in memory exactly if its bytes are granted, otherwise as a new page |
| Efim.Resolve | src/mining/algorithms/efim.rs:209-219 | and resolves to them again |
| Efim.BranchesCover | src/mining/algorithms/efim.rs:241-252 | the branches of the items su keeps contain every HUI that extends the prefix |
| Efim.AllFitIff | src/mining/algorithms/efim.rs:285-303 | all projections below a prefix fit the guard, path by path, if and only if each branch's own projection fits and everything below it does |
| Efim.LedgerFreed | src/mining/algorithms/efim.rs:287-303 | one branch: nothing is lost from the ledger exactly when its projection is granted and everything below fits, and refused bytes are lost when it is spilled |
| Efim.MineStep | src/mining/algorithms/efim.rs:246-250 | taking the extensions in any order emits every branch once |
| Efim.Mine | src/mining/algorithms/efim.rs:195-305 | the search emits exactly the (closed) HUIs that extend the prefix, unless a branch was dropped, and never anything else; the ledger never gains, and if nothing was dropped it ends where it began, or at zero, if and only if everything below the prefix fits |
| Efim.Descend | src/mining/algorithms/efim_closed.rs:300-351 | one extension emits exactly the (closed) HUIs of its branch, whatever the guard refuses; if no work was dropped its ledger is exact if and only if the branch fits |
| Efim.LoadDatabase | src/mining/algorithms/efim.rs:101-119 | the loaded columns are the filtered database with remaining utilities |
| Efim.InitialProject | src/mining/algorithms/efim.rs:146-160 | the first projection is the support of the item with its utilities |
| Efim.Run | src/mining/algorithms/efim.rs:88-192 | when no disk operation fails, no line is lost and the pool has 24 bytes per transaction: exactly the HUIs of the raw database; for EFIM-Closed exactly those without a superset of equal support. If no work is dropped, the ledger ends where it began if and only if the projections of every visited prefix fit the guard, or it began at zero |
| Efim.RunIntoFullGuard | src/mining/algorithms/efim.rs:287-303 | for every database with a kept item, a run with a full guard lets the guard grant afterwards what does not fit beside the bytes held |
| WeightedPaths.ChainSum | src/mining/algorithms/ihup.rs:174-190 | the nodes of an item below a set of others carry together exactly the weight of the paths on which it follows them |
| WeightedPaths.ChainExists | src/mining/algorithms/ihup.rs:174-190 | and such a node exists exactly when such a path does |
| WeightedPaths.TrieFound | src/mining/algorithms/ihup.rs:135-141 | adding to an existing node keeps every node's weight the total of the paths through it |
| WeightedPaths.TrieNew | src/mining/algorithms/ihup.rs:145-162 | a new node starts with exactly the weight it must have |
| WeightedPaths.CutSnoc | src/mining/algorithms/ihup.rs:223-230 | cutting a path to kept items preserves the weight of every set of kept items |
| TreeArena.NodeRoundTrip | src/mining/algorithms/ihup.rs:13-22 | a 28-byte node decodes to itself |
| TreeArena.PutNodeAt | src/mining/algorithms/ihup.rs:92-103 | overwriting one slot of a page changes that slot only |
| TreeArena.SlotsWrite | src/mining/algorithms/ihup.rs:49-103 | over all pages, writing a slot updates one element and writing past the end appends one |
| TreeArena.NodeArena.AllocateNode | src/mining/algorithms/ihup.rs:49-78 | the next pointer, the node sequence grown by exactly the new node, a new page after every 2340 nodes; on failure nothing changed, and without a disk fault only a pool below one arena page or the last 32-bit pointer is a reason |
| TreeArena.NodeArena.GetNode | src/mining/algorithms/ihup.rs:80-90 | the node last stored, whatever the pool evicted |
| TreeArena.NodeArena.SetNode | src/mining/algorithms/ihup.rs:92-103 | exactly one node replaced, no page outside the arena touched |
| TreeArena.NodeArena.Reset | src/mining/algorithms/ihup.rs:221-233 | resetting the pointer keeps all nodes below it |
| WeightedPaths.TrieSize | src/mining/algorithms/ihup.rs:129-160 | a tree of n paths of at most m items has at most 1 + n m nodes |
| WeightedPaths.ChainCount | src/mining/algorithms/ihup.rs:174-190 | a header chain has at most one node per path |
| PatternBases.BaseWithin | src/mining/algorithms/ihup.rs:173-190 | a pattern base has no more paths than the tree, and shorter ones |
| ConditionalTrees.CrowdedRun | src/mining/algorithms/ihup.rs:219-233 | so all trees nested at any moment of a run need no more pointers than a number computed from the size of the database and its longest transaction |
| PrefixTrees.SpineGrow | src/mining/algorithms/ihup.rs:146-158 | linking in a new child keeps parent, child and sibling pointers a tree that names every path once |
| PrefixTrees.FindChild | src/mining/algorithms/ihup.rs:129-143 | the sibling walk ends and finds the child of the item, or none exactly when there is none |
| PrefixTrees.LinkChild | src/mining/algorithms/ihup.rs:147-158 | exactly the parent's and the new node's links change |
| PrefixTrees.PathAbove | src/mining/algorithms/ihup.rs:178-185 | the parent walk ends and yields the items above the node, root first |
| ConditionalTrees.TopLevel | src/mining/algorithms/ihup.rs:289 | the global tree is a level of the recursion |
| ConditionalTrees.NextLevel | src/mining/algorithms/up_growth.rs:428-465 | a pattern base cut to locally kept items and sorted by any order is again a level for the longer prefix: no weight has changed |
| ConditionalTrees.BranchKept | src/mining/algorithms/ihup.rs:203-217 | local pruning removes no item of any heavy itemset |
| ConditionalTrees.BranchRoot | src/mining/algorithms/ihup.rs:192-194 | prefix + item is heavy exactly when its header chain reaches the threshold; if not, nothing in its branch is |
| PatternBases.GatherDone | src/mining/algorithms/ihup.rs:173-190 | a whole header chain yields a pattern base with the weights of the original paths |
| PatternBases.LocalTwu | src/mining/algorithms/ihup.rs:203-208 | the exact total weight of every item in the pattern base, and no other item |
| PatternBases.CutBaseStep | src/mining/algorithms/up_growth.rs:455-465 | each filtered and sorted path keeps the cut base equivalent for kept items |
| CandidateCheck.CandidateUtility | src/mining/algorithms/ihup.rs:302-311 | a candidate's utility in a transaction, or nothing exactly when an item is missing |
| CandidateCheck.SumUtilities | src/mining/algorithms/ihup.rs:293-316 | one pass yields every candidate's exact utility |
| CandidateCheck.ResultTasks | src/mining/algorithms/ihup.rs:320-326 | the tasks list exactly the candidates that reach the threshold |
| CandidateCheck.WriteTasks | src/mining/algorithms/ihup.rs:330-332 | all tasks are written, except for the lines that are lost |
| CandidateCheck.HeavyHasHuis | src/mining/algorithms/ihup.rs:291-326 | among the itemsets of sufficient TWU, those of sufficient utility are exactly the HUIs |
| Ihup.HeadLinksGrow | src/mining/algorithms/ihup.rs:152-160 | inserting at the head keeps every header chain: newest to oldest, every node of the item once |
| Ihup.IhupTree.Advance | src/mining/algorithms/ihup.rs:128-163 | one step of an insertion: the arena holds the tree of the path's next prefix |
| Ihup.IhupTree.Insert | src/mining/algorithms/ihup.rs:126-165 | after any weighted insertion the arena holds exactly the tree of all inserted paths; nodes below the tree's root are untouched |
| Ihup.WalkChain | src/mining/algorithms/ihup.rs:170-190 | the chain walk ends and returns the item's total weight and its pattern base |
| Ihup.BuildConditional | src/mining/algorithms/ihup.rs:222-230 | the conditional tree is that of the cut base, built above all enclosing trees |
| Ihup.MineItem | src/mining/algorithms/ihup.rs:169-234 | one item lists exactly the heavy itemsets of its branch and leaves the arena as it was |
| Ihup.MineBelow | src/mining/algorithms/ihup.rs:219-233 | building, mining and discarding a conditional tree leaves every node of every enclosing tree unchanged |
| Ihup.MineTree | src/mining/algorithms/ihup.rs:168-236 | lists exactly the heavy itemsets over the tree's items, once each; the ledger grows by their bytes |
| Ihup.MineDatabase | src/mining/algorithms/ihup.rs:270-289 | phase 1 lists exactly the supported itemsets of sufficient TWU; the ledger holds their bytes |
| Ihup.ChainIsTwu | src/mining/algorithms/ihup.rs:174-190 | at every depth, whatever was cut, the header-chain sum is the TWU of prefix + item in the original database |
| Ihup.GlobalStep | src/mining/algorithms/ihup.rs:273-285 | the global paths carry the TWU of every kept itemset, transaction by transaction |
| Ihup.GlobalHeavy | src/mining/algorithms/ihup.rs:288-289 | what the tree search lists is exactly the supported itemsets of sufficient TWU |
| Ihup.Run | src/mining/algorithms/ihup.rs:247-337 | when no disk operation fails, the pool holds an arena page and 32-bit pointers suffice for the longest transaction, the run succeeds; its candidates are exactly the itemsets of TWU at or above the threshold, and if no line is lost it writes exactly the HUIs; the ledger ends where it began |
| UpGrowth.TailLinksGrow | src/mining/algorithms/up_growth.rs:169-178 | appending at the tail keeps every header chain: oldest to newest, every node of the item once |
| UpGrowth.UpTree.Insert | src/mining/algorithms/up_growth.rs:128-183 | the arena holds the tree of all inserted paths, each node with the prefix utilities of the paths through it |
| UpGrowth.UpTree.InsertLocal | src/mining/algorithms/up_growth.rs:185-229 | the same with one weight per path |
| UpGrowth.SumChain | src/mining/algorithms/up_growth.rs:384-391 | the first chain walk ends and returns the item's total weight |
| UpGrowth.CollectBase | src/mining/algorithms/up_growth.rs:398-416 | the second chain walk returns its pattern base |
| UpGrowth.FillConditional | src/mining/algorithms/up_growth.rs:455-465 | the conditional tree is that of the cut base, each path sorted by local weight |
| UpGrowth.BuildLocal | src/mining/algorithms/up_growth.rs:428-465 | it starts above all enclosing trees, and its header bytes are in the ledger |
| UpGrowth.MineLocal | src/mining/algorithms/up_growth.rs:428-481 | building, mining and discarding a conditional tree leaves arena and ledger as they were |
| UpGrowth.MineUpTree | src/mining/algorithms/up_growth.rs:373-485 | one item lists exactly the heavy itemsets of its branch |
| UpGrowth.MineAll | src/mining/algorithms/up_growth.rs:467-477 | all items list exactly the heavy itemsets over the tree's items, once each |
| UpGrowth.MineDatabase | src/mining/algorithms/up_growth.rs:263-315 | phases 2 and 3 list exactly the itemsets whose estimate reaches the threshold |
| UpGrowth.PrefixUtilityIs | src/mining/algorithms/up_growth.rs:137-140 | a node's share of a transaction is the utility of the kept items up to it |
| UpGrowth.GlobalStep | src/mining/algorithms/up_growth.rs:281-300 | the global paths carry, for every kept itemset, the utility up to its last item over its support |
| UpGrowth.ChainBounds | src/mining/algorithms/up_growth.rs:385-393 | at every depth, despite re-sorting, the header-chain sum bounds the utility of every itemset mined below |
| UpGrowth.UpHeavyBetween | src/mining/algorithms/up_growth.rs:302-318 | the candidates include every HUI and never more than the itemsets of sufficient TWU |
| UpGrowth.Deduplicate | src/mining/algorithms/up_growth.rs:317-318 | sorting, hashing and listing the candidates in any order keeps each exactly once |
| UpGrowth.Run | src/mining/algorithms/up_growth.rs:241-370 | under the same conditions the run succeeds and writes exactly the HUIs; the ledger ends where it began and no foreign page changes |
| PageLayout.ToBytes | src/storage/page_layout.rs:31-40 | the in-place writes fill the 24-byte layout |
| PageLayout.HeaderRoundTrip | src/storage/page_layout.rs:31-51 | a header decodes to itself |
| PageLayout.HeaderInverse | src/storage/page_layout.rs:42-51 | bytes that decode are the encoding of what they decode to, up to the reserved bytes |
| Storage.DecodeEncoded | src/storage/chunk_store.rs:48-110 | what reading a just-written page yields, for any payload length |
| Storage.StoreRoundTrip | src/storage/chunk_store.rs:48-110 | a page below 4 GiB reads back as written, compressed or not |
| Storage.StoreRoundTripLimit | src/storage/chunk_store.rs:68 | uncompressed, 4 GiB is exactly where the round trip stops |
| Storage.CompressedIff | src/storage/chunk_store.rs:52-62 | a page is stored compressed exactly when that saves the required 15 percent, rounding included |
| Storage.OnlyPagesRead | src/storage/chunk_store.rs:80-110 | byte by byte, exactly which files are read as a page: magic number, id, known flags, length, checksum |
| Storage.ForeignPage | src/storage/chunk_store.rs:90-92 | a stored page is never read under another id |
| Storage.CorruptionDetected | src/storage/chunk_store.rs:97-101 | bytes changed on disk are refused exactly when they change the checksum |
| Storage.TornWrite | src/storage/chunk_store.rs:73-75 | a write cut short at any byte is never mistaken for a page |
| Storage.ChunkStore.WritePage | src/storage/chunk_store.rs:48-78 | on a disk that does what its schedule of outcomes says: one page replaced, or, if the operation fails, the page reads as before, as written, or not at all, and no other page changed; every failure is counted |
| Storage.ChunkStore.ReadPage | src/storage/chunk_store.rs:80-110 | the stored payload, or an error, a disk error exactly if the operation fails |
| Storage.ChunkStore.NextPageId | src/storage/chunk_store.rs:126-128 | an id never handed out before, refused only after 2^64 |
| Storage.ChunkStore.NoFaults | src/storage/chunk_store.rs:126-128 | while ids last, no fault is on record exactly when every disk operation so far was carried out |
| Lru.LruPolicy.PickVictim | src/buffer_pool/eviction/lru.rs:32-47 | the known unpinned page touched longest ago; none exactly when there is none |
| Lru.LruPolicy.Touch | src/buffer_pool/eviction/lru.rs:18-26 | the page becomes strictly the most recent |
| Pool.BufferPool.Pin | src/buffer_pool/pool.rs:48-95 | no page changes; on success the page is resident, pinned and most recent; full only if pinned bytes and the page exceed the budget |
| Pool.BufferPool.PinMut | src/buffer_pool/pool.rs:97-144 | the same, for a guard that may write |
| Pool.BufferPool.Load | src/buffer_pool/pool.rs:60-94 | a miss is refused as full exactly when the pinned bytes and the page exceed the budget, and evicts nothing when there is room |
| Pool.BufferPool.MakeRoom | src/buffer_pool/pool.rs:69-77 | the eviction loop ends with enough room, or with every frame pinned; it changes no page and no pinned frame, takes pages in the order they were last touched, and takes none it did not have to |
| Pool.BufferPool.EvictOne | src/buffer_pool/pool.rs:207-221 | exactly the least recently touched unpinned frame leaves, written back first if dirty; none exactly when all are pinned |
| Pool.BufferPool.ChooseVictim | src/buffer_pool/pool.rs:208-213 | over any snapshot order, the least recently touched unpinned page |
| Pool.BufferPool.Flush | src/buffer_pool/pool.rs:189-205 | a dirty frame is written as it is and clean afterwards, or there is an error and it is still dirty; a clean one is not written; no page changes either way |
| Pool.BufferPool.InsertPage | src/buffer_pool/pool.rs:149-175 | the new page joins the flat map; full exactly when pinned bytes leave no room |
| Pool.BufferPool.Read | src/buffer_pool/frame.rs:28-31 | a guard yields the page's last bytes |
| Pool.BufferPool.Write | src/buffer_pool/frame.rs:49-55 | writing through a mutable guard replaces exactly that page |
| Pool.BufferPool.MarkDirty | src/buffer_pool/frame.rs:57-58 | first half of dropping a mutable guard: no page changes, the frame must be written back |
| Pool.BufferPool.FinishDrop | src/buffer_pool/frame.rs:59-60 | second half: one pin less |
| Pool.BufferPool.Fetch | src/mining/algorithms/fhm.rs:301-305 | what a reading caller gets: the page's bytes, or a disk error, or a page larger than the pool |
| Pool.BufferPool.InsertNew | src/mining/components/ul_join.rs:125-128 | what a spilling caller gets: a fresh id that stands for the bytes |
| Pool.FlushStep | src/buffer_pool/pool.rs:197-202 | writing back keeps the invariant that a clean, unwritten frame equals its stored copy |
| Pool.EvictStep | src/buffer_pool/pool.rs:216-217 | dropping a clean unpinned frame loses nothing and frees exactly its bytes |
| Pool.TouchStep | src/buffer_pool/pool.rs:177-187 | pin counts, bytes and dirty marks may change together with the guards without breaking the invariant |
| PoolRuns.Run | src/buffer_pool/pool.rs:48-221 | any sequence of steps by any clients is a run of a machine of flat pages, guards and reserved ids, within the budget: a step is taken only if that machine enables it, and on a disk that does not fail exactly if it does, whatever happens to be resident |
| PoolRuns.FaultlessIsIdeal | src/buffer_pool/pool.rs:48-221 | so without faults pages, guards and ids after the run are a function of the steps |
| PoolRuns.LoadableIs | src/buffer_pool/pool.rs:60-77 | within the budget, whether a page can be pinned depends only on the pages with a guard |
| PoolRuns.LastWriteWins | src/buffer_pool/pool.rs:48-221 | after any such run a page holds the bytes last written or inserted |
| PoolRuns.CleanDrop | src/buffer_pool/pool.rs:189-217 | dropping a frame without writing it back is harmless exactly when it equals its stored copy |
| PoolRuns.UnpinningFirstLosesWrites | src/buffer_pool/frame.rs:56-61 | in the other drop order an eviction in between loses every changed byte |
| Memory.MemoryGuard.TryAlloc | src/mining/core/memory_guard.rs:27-35 | granted exactly when it fits, and a refusal leaves the count unchanged |
| GuardProtocol.TryAllocAlone | src/mining/core/memory_guard.rs:27-35 | undisturbed, the atomic steps of one request do what the sequential guard does: granted exactly when it fits, and a refusal is taken back |
| GuardProtocol.FreeAlone | src/mining/core/memory_guard.rs:43-48 | and those of one free subtract exactly the bytes freed |
| GuardProtocol.StepExact | src/mining/core/memory_guard.rs:27-48 | every atomic step keeps the counter equal to the bytes held plus the bytes in flight |
| GuardProtocol.RunExact | src/mining/core/memory_guard.rs:27-48 | so in every interleaving the counter is exact, and bytes granted or about to be granted never exceed the budget |
| GuardProtocol.FreeIsExact | src/mining/core/memory_guard.rs:43-48 | a client that frees what it holds subtracts exactly that, whatever its relaxed load returned |
| GuardProtocol.AddedFrom | src/mining/core/memory_guard.rs:28-29 | every addition still to be compared was made at one earlier moment, whose counter it saw |
| GuardProtocol.RefusedExactlyWhenFull | src/mining/core/memory_guard.rs:28-34 | whatever others do between addition and comparison: refused exactly when it did not fit beside all bytes counted at the addition, forced ones and ones in flight included; a refusal leaves the client's bytes alone |
| GuardProtocol.QuietLedger | src/mining/core/memory_guard.rs:27-48 | with no call in progress the counter is the bytes held: refusals leave no trace |
| GuardProtocol.SpuriousRefusal | src/mining/core/memory_guard.rs:28-31 | a schedule in which a request that fits is refused because of one that is itself refused |
| OverFree.FallBounded | src/mining/core/memory_guard.rs:43-48 | when clients also free bytes they were refused, in every interleaving the counter is below the bytes held by at most the bytes freed that way |
| OverFree.TwoOverFrees | src/mining/core/memory_guard.rs:43-48 | that bound is reached, and two such frees that both load before either subtracts take the counter below zero exactly when together they exceed the bytes held |
| OverFree.OverFreeAlone | src/mining/core/memory_guard.rs:43-48 | undisturbed, a free of more than the counter stops at zero: only overlapping frees can go below |
| OverFree.DisciplinedStep | src/mining/core/memory_guard.rs:27-48 | clients that free only what they hold take the same steps here as in `GuardProtocol` |
| Chunking.SerializeTx | src/preprocessing/chunker.rs:81-92 | the documented layout of one transaction |
| Chunking.PageRoundTrip | src/preprocessing/chunker.rs:43-50 | a page decodes to exactly its transactions |
| Chunking.FindExact | src/preprocessing/chunker.rs:32-37 | looking up an id returns exactly the page whose range contains it, and None outside all ranges |
| Chunking.FoundPageHolds | src/preprocessing/chunker.rs:32-37 | for every transaction added, the page found for its id decodes to a list that contains it |
| Chunking.Chunker.FlushPage | src/preprocessing/chunker.rs:115-142 | the page being filled becomes one more stored page, marked as a transaction page, and directory entry; nothing is lost or added, and after a failed write nothing has changed |
| Chunking.Chunker.AddTransaction | src/preprocessing/chunker.rs:95-112 | the stream grows by the transaction; the page being filled is flushed before it exactly when it is not empty and would exceed the limit with it; without a disk fault the call succeeds, and after a failed write nothing has changed |
| Chunking.Chunker.Finalize | src/preprocessing/chunker.rs:145-148 | all transactions are in stored pages with disjoint, ordered ranges and right counts; no page had room for the first transaction of the next one |
| Chunking.FewestPages | src/preprocessing/chunker.rs:98-101 | no other way to cut the stream into pages within the limit, or of one transaction, has fewer pages |
| Limits.RunningTwuFits | src/preprocessing/twu_filter.rs:77-81 | every running TWU stays in i64 |
| Limits.TableFits | src/mining/components/eucs.rs:27 | every amount of the co-occurrence table, before and after each addition and also after refusals, stays in i64 |
| Limits.EfimBoundsFit | src/mining/algorithms/efim.rs:228-236 | 0 <= su <= lu within i64, after any number of transactions |
| Limits.UpNodesFit | src/mining/algorithms/up_growth.rs:149 | no node weight exceeds the total transaction utility |
| Limits.TwiceIsNeeded | src/mining/components/ul_join.rs:112 | with the total in range but not twice the total, px + py can overflow although the result fits |
| Limits.FilterSafeIff | src/preprocessing/twu_filter.rs:84 | for any database, pass 1 keeps every HUI at every threshold if and only if no supported itemset has a utility above the TWU of one of its items |
| Limits.ValidTwuCovers | src/preprocessing/twu_filter.rs:84 | which holds of every valid database |
| Limits.NegativeUtilityLost | src/types/transaction.rs:4 | with a negative utility it can fail: a family of databases in which pass 1 drops an item that is a HUI |

## Left out

- Huim.SameResults: the checker's parsing of output files and its counts of mismatches are not modelled, only that two exact outputs leave it nothing to count.
- Text parsing and printing: runs start from parsed transactions and end with (itemset, utility) lines; I/O errors while reading the dataset are not modelled.
- Command line, wizard, terminal interface, progress counters, metrics, experiment reports, RAM probing (`apply_os_safety_net`; the pool's budget may be set to any value by `SetBudget`).
- hup_tree.rs, hui_trie.rs (copies of IHUP), tku.rs, rept.rs (copies of TKO), hup_miner.rs, mhui_miner.rs, hui_miner.rs (FHM without the table), haui_miner.rs (copy of EFIM): each engine is modelled once.
- GA, BPSO, ACO, SHUIM, IncFHM and sliding-window wrappers: they delegate to FHM.
- UP-Growth+: its extra reductions are all zero.
- Prefetch queue, predictors and the mining-aware eviction policy: they only suggest pages to read early.
- CRC and LZ4 are arbitrary functions with a 32-bit result and with decompression inverting compression; directories and shards are a map from id to bytes.
- Storage.ChunkStore.NextPageId: reports an error when 64-bit ids run out, where the source wraps around.
- TreeArena.NodeArena.AllocateNode: reports an error when 32-bit pointers run out, where the source overflows; `ConditionalTrees.CrowdedRun` bounds how many a run needs. Node bytes are little-endian, as on all supported targets.
- Pool.BufferPool.Pin: each pool operation is one atomic step; races inside one operation (two threads missing the same page, two evictions picking one victim) are not modelled. Pin counts are unbounded, and the tick and load-time statistics of a frame are omitted.
- Lru.LruPolicy.Touch: the clock is unbounded, where the source's is 64 bits.
- Pool.BufferPool.InsertPage: requires an id that is not resident, as all callers guarantee by taking a new one; the source would overwrite the frame and count its bytes twice.
- Fhm.Run: tasks run one after the other, and a failed pool operation in a task ends the run with an error where the source panics.
- TwoPhase.Run: `prefix` push and pop are written as longer sequences.
- Efim.Run: the second, stable sort by TWU is omitted because the filtered transaction is already in that order; the extension order is arbitrary rather than by position in the first transaction.
- Efim.MineItems: the ledger clauses are about tasks one after the other; what other threads add or free meanwhile is the subject of `GuardProtocol` and `OverFree`.
- TopK.TkoState.Update: requires that the pair is not in the heap, which the search guarantees (`Tko.OfferInv`); the standard library's binary heap is a set with its least member.
- TKO without k: the engine is then FHM, so only the search with k is modelled.
- Chunking.PageDirectory.FindPage: the readers that look pages up are not part of this model; `Chunking.FoundPageHolds` says what they find.
- Tko.FinalHeap: lists are the ones `Fhm.JoinUtilityLists` is proved to build, so a step of the state machine refers to header values directly; spilling and pool errors inside TKO are not repeated there.
- GuardProtocol.RunExact: the counter is unbounded; sums near 2^64 would wrap in the source.
- Chunking.Chunker.AddTransaction: when 64-bit page ids have run out nothing is promised but a valid store.
- UpGrowth.Run: the recursion's progress calls are omitted, and candidates are sorted with the same insertion sort the other engines use.
- Deleting pages, MemoryGuard's own spill and load, and the unused `Eucs::build`: no engine modelled here calls them.
