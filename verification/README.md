# Merging compile commands: a verified model

The tools in this repository merge thousands of compile commands into fewer translation units, decide which merged units
may replace which originals, publish the result, and work out what to index again after a branch switch. A mistake in
any of these steps loses a source file, compiles one twice, or leaves readers with half a publication. This project
models the decision procedures of those tools in Dafny and proves what they are relied on for.

The code that works step by step is modelled as methods with loops (and, for the byte reader, the file stream and the
disk, as classes whose fields the methods update). Each method is tied to a specification function or predicate, and the
main results are lemmas about that specification.

- **Branch switch** (`IncludeClosure`, `GreedyCover`, `LptSplit`, `ReindexPlan`): reachability over includes, the greedy
  weighted cover of changed files with Chvatal's bound, the longest-first split with the 4/3 - 1/(3m) bound, in files to
  read, against every other split, and the plan that puts them together.
- **Unity planners** (`GreedyDivision`, `ChunkOrder`, `UnityChunks`, `StrictChunks`, `UnityPlanner`, `ModulePacking`,
  `ModulePlanner`): the contiguous packer is optimal, every chunk replans to itself, the replanning loop ends with at most
  one original of each class per cross-class chunk, and the whole-module packer is maximal. `UnityMeaning` and
  `ModuleMeaning` say when entries are merged in terms of the entries alone.
- **Owners and coverage** (`OwnerSelection`, `OwnerUpgrade`, `OwnerRender`, `CoverageGate`, `CoverageOfSelection`): the
  state machine of accepted owners, rendering and reading back, and exactly which rendered databases pass the
  independent gate. `OwnerOutcome` gives the exact conditions under which an upgrade or adoption takes effect,
  `OwnerMeaning` what selections and renderings are, `CoverageMeaning` what the gate accepts.
- **Acceleration** (`Batching`, `FallbackWorklist`, `TierAcceleration`, `TierMerge`, `TierPlans`, `BisectionWorklist`):
  the worklists keep every source, whatever the qualifying runs answer. `WorklistMeaning` and `BatchMeaning` say what is
  tried, what is accepted and what database that leaves.
- **Index shards** (`ShardBytes`, `ShardFormat`, `ShardWriting`, `ShardRoundTrip`, `ShardDecoder`, `ShardOwner`,
  `ShardOwnerAgrees`, `RecordKeys`, `FileGraph`): a written shard decodes to itself, the decoder's loops compute what the
  bytes mean, the fast owner reader agrees with the decoder, record keys tell records apart, and the file graph of many
  shards does not depend on their order. `ShardLayout` reads the format off literal bytes.
- **Publication** (`FaultyDisk`, `Transaction`, `FailedPublication`): staging, publishing, rollback and cleanup over a disk
  that logs every operation and on which any of them may fail, and exactly which failures lead to which outcome.
- **Ordered wrappers** (`MacroScope`, `OrderedUnity`, `OrderedPlanner`, `OrderedCommand`, `OrderedCandidates`): every merged
  source sees its own macro definitions, and the command of a built candidate means what the originals' commands meant.
  `OrderedMeaning` and `CommandSpelling` say which originals are admitted and how options are spelled.
- **Graph admission** (`GraphTables`, `GraphCollector`, `Admission`, `AdmissionOrder`, `AdmissionGate`): an accepted merge
  loses nothing, and acceptance does not depend on the order of the originals. `AdmissionMeaning` says exactly what is
  accepted, of the graphs themselves.
- **Command texts** (`Argv`, `CommandDigest`): quoting and splitting Windows command lines, and a digest that means the
  multiset of commands as long as the hash does not collide on them.

`Prelude` holds the shared vocabulary (options, results, sequences), `Sorting` Python's stable `sorted`.

## Where the code differs from what is expected of it

- **Coverage of rendered selections.** A receipt names its originals without their `output` field
  (`tools/cdb_verified_batch.py:143-144`), while the gate's key keeps it (`tools/clangd_batch_activation.py:82-86`). So a
  rendered selection passes if and only if no owned original carries an `output` field
  (`CoverageOfSelection.RenderedPasses`; `CoverageOfSelection.OutputIsRefused` is one that does not).
- **Recovery after a failed cleanup.** `commit` cleans up in a `finally` block, and an error there replaces the one in
  flight. So the recovery list is not reported if and only if a restore failed and so did an unlink of the cleanup
  (`Transaction.Commit`, `Transaction.VerdictMeans`); the backups it names are still on disk. `FailedPublication.LostRecovery`
  is such a run.
- **Leftover temporaries.** A temporary is recorded only when its replacement is staged completely. After a cleanup without
  failures one stays behind if and only if staging failed after creating it, or the recovery list names it
  (`Transaction.StaysBehind`, `Transaction.HalfStaged`). `FailedPublication.LeakedTemporary` is such a run.
- **Dead branches.** The inner error of `select_cover` (`tools/clangd_switch_reindex.py:82-83`), the `unterminated` varint
  error (`tools/clangd_index_graph.py:60`) and the `claimed` check on the stack of `_batch_groups`
  (`tools/cdb_verified_batch.py:1682`) can never act (`GreedyCover.SelectCover`, `ShardBytes.VarFits`,
  `BisectionWorklist.TopIsFree`).
- **Equal graphs can be refused.** `compare_graphs` compares the languages of the preferred records of the originals with
  those of all records of the candidate, so even a candidate with equal tables is refused when a symbol's declarations
  carry a language that its definitions do not (`Admission.UnchangedIsAccepted` gives the exact condition,
  `Admission.TwoLanguagesAreRefused` such a graph).
- **Record keys.** `_record_key` calls its keys collision-free (`tools/clangd_index_graph.py:221`). They are for values of one
  shape, so for all shard records; a list and a record in the same place can share a key (`RecordKeys.KeyMeansValue`,
  `RecordKeys.ShapesCollide`).
- **Fast reader.** `read_owner` refuses an empty URI and metadata chunks over 256 MiB, which the decoder accepts. On
  shards that the decoder reads, these and the number of own nodes are the only differences (`ShardOwnerAgrees.OwnerAgrees`;
  `ShardOwnerAgrees.EmptyUriIsRefused` is a shard that only the decoder reads).

## Model

| member | source | states |
|---|---|---|
| IncludeClosure.Closure | tools/clangd_switch_reindex.py:60-67 | The returned set holds exactly the files that some chain of direct includes reaches from the main, and the main itself. |
| IncludeClosure.ReachesMore | tools/clangd_switch_reindex.py:64-66 | Reaching a file is enough to reach what it includes. |
| IncludeClosure.ClosedHoldsChain | tools/clangd_switch_reindex.py:60-67 | A set closed under includes that holds the start of a chain holds its end, so the stack search misses nothing. |
| GreedyCover.SelectCover | tools/clangd_switch_reindex.py:70-87 | Fails exactly when a changed file is in no closure; otherwise covers every changed file with a greedy run that starts with all changed mains. The inner error cannot occur. |
| GreedyCover.MaxRatio | tools/clangd_switch_reindex.py:80 | The pick is the first candidate whose share of still uncovered files no other candidate exceeds. |
| GreedyCover.SomeCandidateGains | tools/clangd_switch_reindex.py:79-83 | While a known file is uncovered, some candidate still covers part of the rest. |
| GreedyCover.BestGains | tools/clangd_switch_reindex.py:80-83 | If any candidate covers something, the best one does, which is why the inner error is dead. |
| GreedyCover.CandidatesPop | tools/clangd_switch_reindex.py:81 | Popping the pick leaves exactly the candidates that were not selected, in order, so nothing is picked twice. |
| GreedyCover.NextSelection | tools/clangd_switch_reindex.py:79-86 | One turn keeps the selection greedy and duplicate-free, and the pick covers something. |
| GreedyCover.PickIsCheap | tools/clangd_switch_reindex.py:79-86 | No family that covers the rest pays less per newly covered file than the greedy pick. |
| GreedyCover.HarmonicGap | tools/clangd_switch_reindex.py:79-86 | H(r) - H(r-c) is at least c/r: what a pick pays is charged to the files it covers. |
| GreedyCover.HarmonicDoubles | tools/clangd_switch_reindex.py:79-86 | The factor H grows like a logarithm: H(1) is 1 and doubling the files adds at most 1. |
| GreedyCover.GreedyCostSoFar | tools/clangd_switch_reindex.py:79-86 | At every point of the run the cost so far is at most the difference of two harmonic numbers times the cost of any rival family. |
| GreedyCover.GreedyWithinHarmonic | tools/clangd_switch_reindex.py:79-86 | The greedy picks cost at most H(r) times any family covering the r files left after the changed mains. |
| GreedyCover.PickIsBudgeted | tools/clangd_switch_reindex.py:79-86 | A pick costs at most what it takes off the family's budget, where each closure of the family is charged its own H of the files it still has left. |
| GreedyCover.GreedyIsBudgeted | tools/clangd_switch_reindex.py:79-86 | So all picks together cost at most the budget of any covering family. |
| GreedyCover.GreedyWithinChvatal | tools/clangd_switch_reindex.py:79-86 | Chvatal's bound: the greedy picks cost at most H(d) times any family covering the files that were left, where no closure of it holds more than d of them. |
| LptSplit.SplitLpt | tools/clangd_switch_reindex.py:95-102 | Fails exactly when mains are to be spread over no worker; otherwise returns the longest-first split. |
| LptSplit.LongestFirstSorts | tools/clangd_switch_reindex.py:98 | The order is a permutation of the mains in which no closure holds more files than the one before it, and closures of one size keep their order. |
| LptSplit.WeightIsFiles | tools/clangd_switch_reindex.py:98-101 | The load of a bin is the number of files its mains have to read, each main's closure counted as a set. |
| LptSplit.LptIsUnique | tools/clangd_switch_reindex.py:98-101 | The rule (first least loaded worker) leaves one possible assignment. |
| LptSplit.PlaceNext | tools/clangd_switch_reindex.py:99-101 | One turn moves nothing already placed and adds the job to its worker's bin and load. |
| LptSplit.SplitIsPartition | tools/clangd_switch_reindex.py:95-102 | The returned bins hold each selected main exactly as often as the selection, are at most `workers`, and none is empty. |
| LptSplit.RivalAssignment | tools/clangd_switch_reindex.py:95-102 | Any other split into at most m bins is an assignment of the same jobs with the same loads, so the bounds below quantify over every split. |
| LptSplit.LptWithinFourThirds | tools/clangd_switch_reindex.py:95-102 | Graham's bound for jobs: no load exceeds 4/3 - 1/(3m) times the largest load of any assignment. |
| LptSplit.LptWithinAverage | tools/clangd_switch_reindex.py:95-102 | No load exceeds total/m + (1 - 1/m) times the largest job. |
| LptSplit.SplitWithinFourThirds | tools/clangd_switch_reindex.py:95-102 | No returned bin has more files to read, over the closures of its mains, than 4/3 - 1/(3m) times what the fullest bin of any split of the same mains has. |
| LptSplit.SplitWithinAverage | tools/clangd_switch_reindex.py:95-102 | Every returned bin has at most the m-th part of all files to read plus (1 - 1/m) of the largest closure. |
| ReindexPlan.Changed | tools/clangd_switch_reindex.py:149 | A source is unchanged exactly when both manifests store the same stamp for it, or both say nothing or that it did not exist. |
| ReindexPlan.ToDo | tools/clangd_switch_reindex.py:335-338 | What is to be done is what changed and what is listed, nothing else. |
| ReindexPlan.AllClosures | tools/clangd_switch_reindex.py:346 | Each main is mapped to what it reaches, in the order of the mains. |
| ReindexPlan.CoveredIsReached | tools/clangd_switch_reindex.py:346-347 | Being in some selected closure is being reached from some selected main. |
| ReindexPlan.SelectedIsBinned | tools/clangd_switch_reindex.py:352-374 | What the selection reaches is reached by one of the bins: the split loses no coverage. |
| ReindexPlan.ChoiceServes | tools/clangd_switch_reindex.py:352-374 | A longest-first split of a greedy covering selection reaches every changed source, runs every changed main, and runs no main twice. |
| ReindexPlan.PlanBins | tools/clangd_switch_reindex.py:352-374 | The bins hold no main twice, every changed main, and reach every changed source; they are the longest-first split of a greedy cover. |
| ReindexPlan.ChoiceIsCheap | tools/clangd_switch_reindex.py:352-374 | The selected mains that did not change themselves have at most H(r) times as many files to read as any family of mains that reaches the r changed sources no changed main reaches. |
| ReindexPlan.ChoiceWithinChvatal | tools/clangd_switch_reindex.py:352-374 | And at most H(d) times as many, where no main of the family reaches more than d of those sources. |
| ReindexPlan.ChoiceIsEven | tools/clangd_switch_reindex.py:352-374 | No bin of the plan has more files to read than 4/3 - 1/(3m) times what the fullest bin of any split of the same selection has. |
| ReindexPlan.PlanReindex | tools/clangd_switch_reindex.py:335-374 | Without a stored baseline a full prepare is needed; otherwise nothing is done exactly when nothing changed or is listed, a prepare is needed exactly when some such source is uncovered, new or deleted, with exactly those reported, and else the bins of a greedy cover and its longest-first split serve every change. |
| ChunkOrder.SortedIsUnique | tools/build_hot_super_unity_cdb.py:330 | Chunks with different first entries have one sorted order, so sorting a plan forgets exactly the bucket order. |
| ChunkOrder.SortByFirst | tools/build_hot_super_unity_cdb.py:330 | The sorted list holds the same chunks, by first entry. |
| ChunkOrder.SortIndexesSorts | tools/build_hot_super_unity_cdb.py:472 | The indexes of a bin in ascending order are a permutation of them. |
| UnityChunks.FitsPrefix | tools/build_hot_super_unity_cdb.py:306-327 | A prefix of a run within the byte, unit, source and same-stem limits is within them. |
| UnityChunks.FitsSuffix | tools/build_hot_super_unity_cdb.py:306-327 | So is a suffix: limits are about runs, not about where a run starts. |
| UnityChunks.RunsDivide | tools/build_hot_super_unity_cdb.py:302-330 | The greedy loop cuts each bucket into consecutive runs that each fit, oversized entries standing alone. |
| GreedyDivision.GreedyStaysAhead | tools/build_hot_super_unity_cdb.py:302-330 | The exchange argument for any limits that are kept when a run loses a beginning or an end. |
| UnityChunks.GreedyStaysAhead | tools/build_hot_super_unity_cdb.py:302-330 | Against every other division into consecutive feasible runs the greedy one never has more runs and, on a tie, never a longer last run. |
| UnityChunks.GreedyIsOptimal | tools/build_hot_super_unity_cdb.py:302-330 | No division of a bucket into consecutive feasible runs has fewer runs. |
| UnityChunks.PlanIs | tools/build_hot_super_unity_cdb.py:302-330 | The plan is the list, sorted by first entry, of exactly the greedy runs of at least two entries of all buckets. |
| UnityChunks.ChunkFacts | tools/build_hot_super_unity_cdb.py:258-330 | A chunk has at least two entries, in database order, of one module, compiler context and member class, within every limit. |
| UnityChunks.ChunksDisjoint | tools/build_hot_super_unity_cdb.py:258-330 | No entry is in two chunks of a plan. |
| UnityPlanner.RejectsIsUnfit | tools/build_hot_super_unity_cdb.py:312-315 | The incremental test on running totals and stem sets decides exactly whether the longer run would fit. |
| UnityPlanner.PackBucket | tools/build_hot_super_unity_cdb.py:303-329 | The loop over a bucket yields exactly the greedy runs of at least two entries. |
| UnityPlanner.FileEntries | tools/build_hot_super_unity_cdb.py:258-269 | Each eligible entry is filed once, under its module, context and class, buckets in order of first use. |
| UnityPlanner.SecondaryUnityChunks | tools/build_hot_super_unity_cdb.py:230-330 | Fails exactly on non-positive budgets; otherwise returns the plan. |
| UnityPlanner.StrictUnityChunks | tools/build_hot_super_unity_cdb.py:610-640 | The replanning loop ends on every input with the strict plan of all entries; it fails exactly on non-positive budgets. |
| StrictChunks.ChunkReplans | tools/build_hot_super_unity_cdb.py:302-330 | Every planned chunk planned alone under the same limits is exactly that one chunk again. |
| StrictChunks.RoundShrinks | tools/build_hot_super_unity_cdb.py:610-640 | A round that plans something leaves strictly fewer available entries, so the loop ends. |
| StrictChunks.SettledIsStable | tools/build_hot_super_unity_cdb.py:610-640 | When the loop stops, the same-class planner finds nothing in what is left. |
| StrictChunks.OneOfEachClass | tools/build_hot_super_unity_cdb.py:610-640 | If the same-class planner finds nothing, a chunk planned across classes holds at most one entry of each class. |
| StrictChunks.FinalPassCrossesClasses | tools/build_hot_super_unity_cdb.py:610-640 | Hence every chunk of the final cross-class pass holds at most one original of each member class. |
| StrictChunks.StrictReplans | tools/build_hot_super_unity_cdb.py:610-640 | Every chunk of the strict plan, from whichever phase, planned alone is that one chunk. |
| StrictChunks.StrictWithin | tools/build_hot_super_unity_cdb.py:610-640 | The strict plan only uses available entries. |
| StrictChunks.StrictDisjoint | tools/build_hot_super_unity_cdb.py:610-640 | No entry is in two chunks of the strict plan, across rounds and phases. |
| UnityMeaning.SameClassMeans | tools/build_hot_super_unity_cdb.py:264-265 | Two entries are of one member class exactly when they agree on whether all members are generated and on whether any is. |
| UnityMeaning.SameKeyMeans | tools/build_hot_super_unity_cdb.py:266-269 | They are filed in one bucket exactly when they agree on module, context and language and, for C++ with split classes, on both of these. |
| UnityMeaning.BytesAreCells | tools/build_hot_super_unity_cdb.py:271-300 | The bytes of a run are the sum of its entries' sizes; an entry whose size cannot be read alone breaks the budget. |
| UnityMeaning.NoPairsMeans | tools/build_hot_super_unity_cdb.py:309-315 | The stem test lets a run pass exactly when no two entries hold a source and its generated twin. |
| UnityMeaning.FitsMeans | tools/build_hot_super_unity_cdb.py:306-327 | A run fits exactly when all sizes are known, bytes, unities and members are within their limits, and no twins meet where they must not. |
| UnityMeaning.ChunkMeans | tools/build_hot_super_unity_cdb.py:258-330 | Every chunk merges candidates of one module, context, language and, when split, member class, within the limits, said of the entries. |
| UnityMeaning.WholeIsPlanned | tools/build_hot_super_unity_cdb.py:258-330 | The planner merges all its entries into one chunk if and only if all are candidates that belong together and fit: it refuses nothing else. |
| UnityMeaning.StrictMeans | tools/build_hot_super_unity_cdb.py:610-640 | Every strict chunk merges candidates of one module and context within the limits that are all of one member class or all of different ones. |
| UnityMeaning.WholeIsStrict | tools/build_hot_super_unity_cdb.py:610-640 | The strict planner merges all its entries into one chunk if and only if they are such a chunk. |
| ModulePacking.FirstFitPacks | tools/build_hot_super_unity_cdb.py:455-471 | Every bin stays within the unity, byte and closure-union limits with no shared definition name, and each bin refused the module that opened any later one. |
| ModulePacking.FirstFitIsMaximal | tools/build_hot_super_unity_cdb.py:455-471 | No two bins, put together, would keep every limit and share no definition name. |
| ModulePacking.FirstFitPartitions | tools/build_hot_super_unity_cdb.py:455-471 | The bins hold each module once: nothing is lost, split or repeated. |
| ModulePacking.AdmittedAre | tools/build_hot_super_unity_cdb.py:431-453 | Admitted modules are those that pass every check with all their entries, each name once. |
| ModulePacking.PlannedBinIs | tools/build_hot_super_unity_cdb.py:431-473 | A planned bin holds complete admitted modules of one compatibility key within the limits. |
| ModulePacking.ChunkIsWholeModules | tools/build_hot_super_unity_cdb.py:426-473 | An index is in a chunk exactly when it is an eligible entry of one of the chunk's modules: modules are never cut. |
| ModulePacking.SharedModule | tools/build_hot_super_unity_cdb.py:431-473 | Two planned bins with a module of the same name are the same bin. |
| ModulePacking.ChunksDisjoint | tools/build_hot_super_unity_cdb.py:426-473 | No entry is in two module chunks. |
| ModulePacking.PlanIsMaximal | tools/build_hot_super_unity_cdb.py:454-473 | No two different planned bins of one key, put together, would be packed. |
| ModulePlanner.PlaceModule | tools/build_hot_super_unity_cdb.py:457-471 | The for-else search puts the module where first fit puts it and keeps each bin's running totals right. |
| ModulePlanner.PackModules | tools/build_hot_super_unity_cdb.py:455-471 | The bins are the first-fit bins of the bucket. |
| ModulePlanner.GroupEntries | tools/build_hot_super_unity_cdb.py:426-430 | Entries are grouped by module in database order. |
| ModulePlanner.FileModules | tools/build_hot_super_unity_cdb.py:431-453 | Each admitted module lands under its key; every other one is reported with its entries and the first check it fails, and nothing else is. |
| ModulePlanner.CollectChunks | tools/build_hot_super_unity_cdb.py:472 | Bins of at least two modules become chunks with ascending indexes. |
| ModulePlanner.ChunkKeys | tools/build_hot_super_unity_cdb.py:454-472 | The chunks of all buckets, in bucket order. |
| ModulePlanner.SortPlan | tools/build_hot_super_unity_cdb.py:473 | Sorting by first entry gives the plan, whatever the bucket order. |
| ModulePlanner.Tier2UnityChunks | tools/build_hot_super_unity_cdb.py:411-473 | Fails exactly on non-positive budgets; otherwise returns the first-fit plan and a diagnostic for exactly the modules that may not be packed. |
| ModuleMeaning.AdmitMeans | tools/build_hot_super_unity_cdb.py:431-453 | A module is admitted if and only if its wrappers and sizes can be read, its compilation did not fail, its entries share one context and one key, and bytes, unities and closure are within the limits, all as sets of bytes, entries and files. |
| ModuleMeaning.AdmitReason | tools/build_hot_super_unity_cdb.py:431-453 | A module that is not admitted is reported with the first of these checks, in the source's order, that fails. |
| ModuleMeaning.PackedMeans | tools/build_hot_super_unity_cdb.py:457-471 | Modules of one key may share a bin exactly when the entries of all of them together may be compiled as one. |
| ModuleMeaning.ModuleChunkMeans | tools/build_hot_super_unity_cdb.py:411-473 | Every planned chunk holds, in ascending order, the entries of at least two whole modules that may be compiled as one. |
| ModuleMeaning.ModulePlanIsMaximal | tools/build_hot_super_unity_cdb.py:454-473 | The plan is maximal: the entries of two different planned bins of one key may not be compiled as one. |
| ModuleMeaning.WholeIsModulePlan | tools/build_hot_super_unity_cdb.py:411-473 | All candidates become one chunk if and only if they are of several modules and may be compiled as one. |
| OwnerSelection.RenderedLength | tools/cdb_background_batch.py:716-733 | A valid selection renders to the original length minus what its owners save. |
| OwnerSelection.OutputEntries | tools/cdb_background_batch.py:736-743 | The reported `output_entries` is the length of the rendered database. |
| OwnerSelection.KeptIsValid | tools/cdb_background_batch.py:699-708 | Dropping whole owners leaves disjoint owners whose anchors are the remaining replacement keys. |
| OwnerSelection.ReplacedIsValid | tools/cdb_background_batch.py:699-710 | Popping the anchors of whole owners cannot fail, the result is valid, and it saves owners + newcomers - 1 more units. |
| OwnerUpgrade.ReplaceNeverSplits | tools/cdb_background_batch.py:352-393 | After a replacement every earlier accepted owner lies inside one accepted owner. |
| OwnerUpgrade.ReplaceEffect | tools/cdb_background_batch.py:699-710 | Replacing whole owners shrinks the rendered database by the units they were, minus one. |
| OwnerUpgrade.UpgradeEffect | tools/cdb_background_batch.py:666-713 | An upgrade that takes effect keeps the invariant, splits no owner, and shrinks the rendered database by owners replaced + newly covered - 1, at least one unit unless it carries a recipe. |
| OwnerUpgrade.AdoptionEffect | tools/cdb_background_batch.py:352-393 | An adoption that takes effect does the same and always shrinks the database. |
| OwnerUpgrade.StepKeeps | tools/cdb_background_batch.py:352-713 | Any single step, taken or refused, keeps the invariant, splits nothing and never grows the database. |
| OwnerUpgrade.RunKeeps | tools/cdb_background_batch.py:352-713 | So do all states of any run of adoptions and upgrades, whatever the proof store answers: between any two of them no owner is split and the database does not grow. |
| OwnerOutcome.UnitsMeans | tools/cdb_background_batch.py:336-349 | The count of translation units before a merge is the number of accepted owners inside plus the originals without owner. |
| OwnerOutcome.ReplacedMeans | tools/cdb_background_batch.py:699-710 | When no owner reaches out of the group, replacing cannot fail; the candidate stands at the least original, no other original of the group has a replacement, the group's owners gave way to the new one, and nothing else changed. |
| OwnerOutcome.UpgradeOutcome | tools/cdb_background_batch.py:666-713 | For every valid selection: exactly when an upgrade takes effect and what it leaves then, exactly when it is reported as accepted, that it changes nothing otherwise, and the reason reported. |
| OwnerOutcome.FlatUpgradeOutcome | tools/cdb_background_batch.py:666-713 | Without a recipe the selection changes if and only if no owner reaches out of the group, the proof is one candidate for exactly the whole group, and owners inside plus unowned originals number at least two. |
| OwnerOutcome.AdoptionOutcome | tools/cdb_background_batch.py:352-393 | The same for adopting a planned chunk: exactly when the selection changes and to what, and exactly when an unchanged one is reported as adopted. |
| OwnerMeaning.ValidMeans | tools/cdb_background_batch.py:716-733 | A selection is valid if and only if its accepted owners are disjoint groups of at least two originals and its replacements stand exactly at their least originals. |
| OwnerMeaning.RenderedMeans | tools/cdb_background_batch.py:716-733 | The rendered database is, in order, each original that no owner with a smaller one has, replaced where a replacement stands. |
| OwnerRender.ClaimAll | tools/cdb_background_batch.py:244-261 | The claiming loop succeeds exactly on disjoint in-range groups that may merge, and computes consumed, claimed and anchors. |
| OwnerRender.Replacements | tools/cdb_background_batch.py:243-280 | Succeeds exactly when the output can be read as the originals with proven candidates at the anchors, and returns that reading; it fails only when there is none. |
| OwnerRender.RenderAt | tools/cdb_background_batch.py:716-733 | Where an original that is not consumed shows in the rendered list. |
| OwnerRender.CursorShows | tools/cdb_background_batch.py:264-279 | The cursor stands on the candidate or the original of the current index under every reading. |
| OwnerRender.ReadsBackUnique | tools/cdb_background_batch.py:243-280 | An output determines its candidates: rendering and reading back are inverse. |
| OwnerRender.RenderSelection | tools/cdb_background_batch.py:716-733 | Renders exactly the valid selections and rejects all others. |
| OwnerMeaning.ReadsBackMeans | tools/cdb_background_batch.py:243-280 | An output reads back as replacements if and only if it renders a valid selection whose owners merge only unities (in Tier 1 also exact sources) and whose candidates carry their receipts. |
| OwnerRender.ComposeAdds | tools/cdb_background_batch.py:770-782 | Two families with disjoint owners compose to a valid selection whose savings add up. |
| CoverageGate.FileOriginals | tools/clangd_batch_activation.py:94-99 | Fails exactly when an original command is listed twice. |
| CoverageGate.FileReceipts | tools/clangd_batch_activation.py:100-107 | Fails exactly when a candidate is an original command or has two different receipts. |
| CoverageGate.BadPrefix | tools/clangd_batch_activation.py:109-126 | If a part of the expansion repeats a command or leaves the originals, the database cannot pass: stopping early is right. |
| CoverageGate.CoverMembers | tools/clangd_batch_activation.py:120-126 | The inner loop extends the covered set by one published command, or the database does not pass. |
| CoverageGate.Coverage | tools/clangd_batch_activation.py:93-128 | Succeeds exactly when expanding every published batch into its receipt's originals lists each original command once and uses each receipt once. |
| CoverageMeaning.SameMeans | tools/clangd_batch_activation.py:82-90 | Two commands have one key exactly when directory, file, arguments and output agree. |
| CoverageMeaning.AgreeMeans | tools/clangd_batch_activation.py:94-107 | The filing of receipts succeeds exactly when receipts of one candidate are equal and none is of an original command. |
| CoverageMeaning.UsesMean | tools/clangd_batch_activation.py:108-128 | The batches are used in order exactly when the candidate of each receipt is published once. |
| CoverageMeaning.ExpansionMeans | tools/clangd_batch_activation.py:108-128 | The members are covered in order exactly when every published command stands for originals only and each original has exactly one place. |
| CoverageMeaning.PassesMeans | tools/clangd_batch_activation.py:93-128 | The gate lets a database through if and only if it covers the originals, said of commands and receipts alone. |
| CoverageOfSelection.BlocksCover | tools/cdb_background_batch.py:716-733 | The rendered positions stand for blocks that hold every original once. |
| CoverageOfSelection.ExpansionIs | tools/cdb_background_batch.py:716-733 | Expanding a rendered selection lists, block by block, each original as its owner's receipt names it. |
| CoverageOfSelection.ExpansionCovers | tools/cdb_background_batch.py:716-733 | Without output fields on owned originals the expansion lists every original command once. |
| CoverageOfSelection.OutputIsUncovered | tools/clangd_batch_activation.py:82-90 | An owned original that has an output field is covered by nothing: receipts drop the field, the gate's key keeps it. |
| CoverageOfSelection.UsedAre | tools/clangd_batch_activation.py:114-117 | Every published candidate is used once and nothing else is. |
| CoverageOfSelection.RenderedPasses | tools/clangd_batch_activation.py:82-128 | A rendered selection whose candidates are new, distinct and receipted passes the gate if and only if no owned original carries an output field. |
| CoverageOfSelection.OutputIsRefused | tools/clangd_batch_activation.py:82-128 | A concrete selection of two originals, valid and receipted, that the gate refuses because the first has an output field. |
| Transaction.AfterUntouched | tools/cdb_transaction.py:216-218 | Publishing some replacements changes no other path. |
| Transaction.CommitPoint | tools/cdb_transaction.py:190-218 | Until the last replacement is published the last destination is as before: the active database is the commit point. |
| Transaction.PrefixIs | tools/cdb_transaction.py:216-218 | After k publications exactly the first k destinations are new and the others as before. |
| Transaction.StageFile | tools/cdb_transaction.py:203-210 | The directory, the temporary and its bytes are tried in this order up to the first failure; on success the temporary holds the new bytes. |
| Transaction.StageBackup | tools/cdb_transaction.py:211-214 | The backup is created and filled in this order up to the first failure; on success it holds the old bytes. |
| Transaction.StageOne | tools/cdb_transaction.py:202-215 | Staging one replacement changes no live file, creates exactly the files its successful operations say, and succeeds exactly when none of its operations failed. |
| Transaction.StageAll | tools/cdb_transaction.py:201-215 | Staging changes nothing a reader sees, wherever it fails; it stops at the first failed operation, and what was half staged then is not recorded. |
| Transaction.PublishAll | tools/cdb_transaction.py:216-218 | Every state a reader could see while publishing is a published prefix, which ends at the first failed replacement. |
| Transaction.RestoreStep | tools/cdb_transaction.py:220-225 | Restoring the last published destination goes back exactly one prefix. |
| Transaction.RestoreOne | tools/cdb_transaction.py:221-226 | A restore either puts the destination back as it was or changes nothing. |
| Transaction.Rollback | tools/cdb_transaction.py:219-228 | Every published replacement is tried once, from the last back, with its own restore; exactly those whose restore failed are listed and still show the new bytes, each with an intact backup if it existed; the last destination is never touched. |
| Transaction.AllRestored | tools/cdb_transaction.py:219-228 | With an empty recovery list all live files are as before. |
| Transaction.CleanOne | tools/cdb_transaction.py:232-235 | The temporary is unlinked, then its backup unless the list names it, up to the first failure. |
| Transaction.Cleanup | tools/cdb_transaction.py:231-235 | The unlinks are tried in this order up to the first failure; the cleanup succeeds exactly when none failed, removes exactly what was unlinked, and touches no live file and no listed backup. |
| Transaction.PublishOrRollBack | tools/cdb_transaction.py:216-230 | Published exactly when no replacement failed; otherwise rolled back exactly when no restore failed, and else the list names exactly the failed restores. States in between are prefixes unless a restore failed. |
| Transaction.Commit | tools/cdb_transaction.py:200-235 | For every fault plan the run follows the code phase by phase; the outcome is the verdict of that run, wrapped in a failed cleanup exactly when an unlink of the cleanup failed; each destination shows new bytes exactly when it was published and not restored; exactly the files left behind are there beside those of earlier owners; no state shows the last destination new before the others. |
| Transaction.EndsMeans | tools/cdb_transaction.py:216-235 | What each outcome means for the caller, hidden by a failed cleanup or not: everything is published; everything is as before; or some paths are listed, everything else is as before, and each listed path that existed has its old bytes in its backup. |
| Transaction.VerdictMeans | tools/cdb_transaction.py:216-230 | Before the cleanup: published if and only if no staging or publishing operation failed, rolled back if and only if one failed and no restore did, recovery required if and only if a restore failed. |
| Transaction.ListedMeans | tools/cdb_transaction.py:219-228 | For distinct destinations, one is on the recovery list if and only if it was published and its restore failed, so it stays new. |
| Transaction.StaysBehind | tools/cdb_transaction.py:201-235 | After a cleanup without failures exactly the listed backups and what was half staged are left. |
| Transaction.HalfStaged | tools/cdb_transaction.py:202-215 | Something half staged is left if and only if staging failed after the first `mkstemp` of a replacement had succeeded. |
| FailedPublication.LostRecovery | tools/cdb_transaction.py:219-235 | A concrete run: the second replacement, the restore of the first and an unlink fail; the caller sees the failed cleanup instead of the recovery list while the first destination stays new. |
| FailedPublication.LeakedTemporary | tools/cdb_transaction.py:202-235 | A concrete run: writing the temporary fails; nothing is published and the temporary stays. |
| ShardBytes.WordRoundTrip | tools/clangd_index_graph.py:48-49 | A 32-bit word survives its little-endian bytes. |
| ShardBytes.VarFromRoundTrip | tools/clangd_index_graph.py:51-60 | A varint written from any digit position reads back, whatever follows. |
| ShardBytes.VarRoundTrip | tools/clangd_index_graph.py:51-60 | Every 32-bit number survives unsigned LEB128 (section 7.6 of DWARF version 5). |
| ShardBytes.VarFits | tools/clangd_index_graph.py:51-60 | No accepted varint exceeds 32 bits, and the `unterminated` error can never be raised. |
| ShardBytes.CountRoundTrip | tools/clangd_index_graph.py:62-66 | The length guard accepts every count that the bytes behind it can hold. |
| ShardBytes.StringRoundTrip | tools/clangd_index_graph.py:68-72 | A string reference reads back as the string. |
| ShardBytes.Reader.TakeRaw | tools/clangd_index_graph.py:27-32 | Advances over exactly the requested bytes or fails without them. |
| ShardBytes.Reader.ReadByte | tools/clangd_index_graph.py:34-39 | Reads the next byte of what is left. |
| ShardBytes.Reader.U32 | tools/clangd_index_graph.py:48-49 | Reads the word that the next four bytes mean. |
| ShardBytes.Reader.ReadVar | tools/clangd_index_graph.py:51-60 | The shifting loop reads the number the next digits mean and stops behind them. |
| ShardBytes.Reader.ReadCount | tools/clangd_index_graph.py:62-66 | Reads a count and applies the length guard. |
| ShardBytes.Reader.ReadString | tools/clangd_index_graph.py:68-72 | Reads a reference into the string table, or fails when it is out of range. |
| ShardWriting.LocationRoundTrip | tools/clangd_index_graph.py:74-77 | A location survives writing and reading. |
| ShardWriting.HeaderRoundTrip | tools/clangd_index_graph.py:138-143 | A packed include header (count and two directive bits in one varint) comes apart again. |
| ShardWriting.HeadersRoundTrip | tools/clangd_index_graph.py:136-143 | So does any list of them. |
| ShardWriting.SymbolRoundTrip | tools/clangd_index_graph.py:127-143 | A symbol record survives, all fields. |
| ShardWriting.SymbolsRoundTrip | tools/clangd_index_graph.py:160-163 | So does the whole symbol chunk. |
| ShardWriting.UseRoundTrip | tools/clangd_index_graph.py:164-172 | One reference of a group survives. |
| ShardWriting.GroupRoundTrip | tools/clangd_index_graph.py:164-172 | One symbol's references survive. |
| ShardWriting.RefsRoundTrip | tools/clangd_index_graph.py:164-172 | References stored by symbol decode to the flat list, each with its symbol again. |
| ShardWriting.RelationRoundTrip | tools/clangd_index_graph.py:173-177 | A relation survives. |
| ShardWriting.RelationsRoundTrip | tools/clangd_index_graph.py:173-177 | So does the relation chunk. |
| ShardWriting.SourceRoundTrip | tools/clangd_index_graph.py:178-184 | An include-graph node survives. |
| ShardWriting.SourcesRoundTrip | tools/clangd_index_graph.py:178-184 | So does the include graph, one node per URI. |
| ShardWriting.CommandRoundTrip | tools/clangd_index_graph.py:185-191 | The compile command chunk survives. |
| ShardRoundTrip.SplitTable | tools/clangd_index_graph.py:105-124 | Splitting a NUL-terminated table of NUL-free strings gives the strings. |
| ShardRoundTrip.TableRoundTrip | tools/clangd_index_graph.py:105-124 | The string table survives, compressed or not. |
| ShardRoundTrip.ChunkRoundTrip | tools/clangd_index_graph.py:86-98 | A chunk survives, with the byte that pads an odd length. |
| ShardRoundTrip.ChunksRoundTrip | tools/clangd_index_graph.py:80-102 | Any order of distinct chunks decodes to the same chunk map. |
| ShardRoundTrip.FileRoundTrip | tools/clangd_index_graph.py:80-102 | A whole container survives, in any chunk order, with its required chunks and version. |
| ShardRoundTrip.RecordsRoundTrip | tools/clangd_index_graph.py:157-192 | The chunk bodies decode to the records they were written from. |
| ShardRoundTrip.ShardRoundTrips | tools/clangd_index_graph.py:77-192 | Decoding the written form of a shard gives exactly that shard, for every string table, compression choice and chunk order the writer may use. |
| ShardRoundTrip.EncodingIsInjective | tools/clangd_index_graph.py:77-192 | Two shards written to the same bytes, by whatever layouts, are the same shard. |
| ShardLayout.TwoDigits | tools/clangd_index_graph.py:51-60 | A varint of two digits has its low seven bits first. |
| ShardLayout.HeaderBytes | tools/clangd_index_graph.py:138-143 | Behind a header's text stands one number: two directive bits below its count. |
| ShardLayout.SymbolBytes | tools/clangd_index_graph.py:127-143 | A symbol with one header is read from 33 bytes, each field from its own offset. |
| ShardLayout.GroupBytes | tools/clangd_index_graph.py:164-172 | The references of a symbol with one of them are read from 23 bytes. |
| ShardLayout.RelationBytes | tools/clangd_index_graph.py:173-177 | A relation is read from 17 bytes: subject, kind, object. |
| ShardLayout.SourceBytes | tools/clangd_index_graph.py:178-184 | An include graph node with one include is read from 12 bytes. |
| ShardLayout.CommandBytes | tools/clangd_index_graph.py:185-191 | A command with one argument is read from three bytes, with nothing behind it. |
| ShardLayout.PartBytes | tools/clangd_index_graph.py:86-98 | A chunk is its name, its size with the least byte first, its bytes, and a zero behind an odd number of them. |
| ShardLayout.ExampleDecodes | tools/clangd_index_graph.py:80-192 | A whole container given byte by byte, with one record of every kind, decodes to exactly those records: names of the chunks, version, field order and byte order. |
| ShardDecoder.ReadSymbol | tools/clangd_index_graph.py:127-143 | Reads the symbol that the bytes mean, field by field in the source's order. |
| ShardDecoder.ReadSymbols | tools/clangd_index_graph.py:160-163 | Reads to the end of the chunk; fails where a record does. |
| ShardDecoder.ReadGroup | tools/clangd_index_graph.py:164-172 | Appends one symbol's references to the flat list. |
| ShardDecoder.ReadRefs | tools/clangd_index_graph.py:164-172 | Reads the whole reference chunk into the flat list. |
| ShardDecoder.ReadRelations | tools/clangd_index_graph.py:173-177 | Reads the whole relation chunk. |
| ShardDecoder.ReadSources | tools/clangd_index_graph.py:178-184 | Reads the include graph and rejects a repeated URI. |
| ShardDecoder.ReadCommand | tools/clangd_index_graph.py:185-191 | Reads the command and rejects bytes behind it. |
| ShardDecoder.ReadChunk | tools/clangd_index_graph.py:86-98 | Reads one chunk with its padding, rejecting a repeated tag. |
| ShardDecoder.ReadChunks | tools/clangd_index_graph.py:80-102 | The chunk loop computes the chunk map, or the container's first error. |
| ShardDecoder.DecodeShard | tools/clangd_index_graph.py:157-192 | The decoder computes what the bytes mean, on every input. |
| RecordKeys.RecordKeyIs | tools/clangd_index_graph.py:220-237 | The short cuts for references and symbols give the key that the general branch would give. |
| RecordKeys.LocationInjective | tools/clangd_index_graph.py:205-209 | Coordinates laid flat behind their lengths come apart again: a location's key determines it. |
| RecordKeys.KeyMeansValue | tools/clangd_index_graph.py:212-237 | Values with one key are equal if and only if lists stand where lists stand and records where records stand. |
| RecordKeys.ShapesCollide | tools/clangd_index_graph.py:212-237 | Without that the keys collide: the record with `a` = 1 has the key of the list `[["a"], 1]`. |
| RecordKeys.RefKeys | tools/clangd_index_graph.py:220-237 | Two references of shards have one key exactly when they are the same reference. |
| RecordKeys.RelationKeys | tools/clangd_index_graph.py:220-237 | So for relations. |
| RecordKeys.OneHeaderKeys | tools/clangd_index_graph.py:220-237 | So for include headers. |
| RecordKeys.SymbolKeys | tools/clangd_index_graph.py:220-237 | So for symbols, all sixteen fields. |
| FileGraph.KeysOrderRecords | tools/clangd_index_graph.py:266-271 | Sorting records by key is sorting by a total order of the records. |
| FileGraph.EntryIsCanonical | tools/clangd_index_graph.py:263-271 | Two shards of a file get the same entry if and only if they hold the same symbols, references, relations and includes, in whatever order, include headers within a symbol too. |
| FileGraph.Merge | tools/clangd_index_graph.py:254-274 | The loop over the shards fails exactly when some shard has not one own node or two shards of a file differ, and otherwise holds one entry per file. |
| FileGraph.CanonicalFileGraph | tools/clangd_index_graph.py:240-281 | Fails exactly in these cases or when a file to be ignored has records; otherwise returns the entries of all files not ignored. |
| FileGraph.DifferingAreRejected | tools/clangd_index_graph.py:272-273 | Differing records for one file are never merged: accepted together, two shards of a file say the same. |
| FileGraph.GraphIsCanonical | tools/clangd_index_graph.py:240-281 | Shards in another order, repeated, or with their records in another order are accepted alike and give the same graph. |
| ShardOwner.Stream.Read | tools/clangd_shard_owners.py:38-45 | Reads up to the requested bytes and stops at the end of the file. |
| ShardOwner.ReadOwnerChunk | tools/clangd_shard_owners.py:50-68 | Keeps a metadata chunk or skips any other one, checking sizes first, so no read comes up short. |
| ShardOwner.ReadOwners | tools/clangd_shard_owners.py:78-88 | Collects the URIs with a digest, rejecting empty and repeated URIs. |
| ShardOwner.ReadOwner | tools/clangd_shard_owners.py:35-91 | The fast reader computes the one own URI or the first error, on every input. |
| ShardOwnerAgrees.OneChunkAgrees | tools/clangd_shard_owners.py:50-68 | On a chunk the decoder reads, the fast reader reads the same or objects only to an oversized metadata chunk. |
| ShardOwnerAgrees.ChunksAgree | tools/clangd_shard_owners.py:50-68 | On a container the decoder reads, the fast reader keeps exactly its metadata chunks. |
| ShardOwnerAgrees.OneSourceAgrees | tools/clangd_shard_owners.py:78-88 | Both read a node alike, up to the refusal of an empty URI. |
| ShardOwnerAgrees.SourcesAgree | tools/clangd_shard_owners.py:78-88 | On an include graph the decoder reads, the fast reader succeeds exactly without an empty URI and then collects the same own URIs. |
| ShardOwnerAgrees.OwnerAgrees | tools/clangd_shard_owners.py:35-91 | If the decoder succeeds, the fast reader succeeds if and only if there is exactly one own node, no empty URI and no oversized metadata chunk; and then it names that node. |
| ShardOwnerAgrees.EmptyUriIsRefused | tools/clangd_shard_owners.py:78-91 | A concrete written shard with an empty URI: the decoder reads it back and the fast reader refuses it. |
| MacroScope.RunView | tools/cdb_ordered_unity.py:207-213 | Names do not interfere: a run seen at one macro is that macro's own run. |
| MacroScope.BalancedRestores | tools/cdb_ordered_unity.py:207-213 | Code balanced in its own pushes and pops leaves what was pushed before it. |
| MacroScope.Definitions | tools/cdb_ordered_unity.py:93-114 | The loop computes the summary of a Definitions header, or rejects its first unsupported line. |
| MacroScope.SummaryIsEffect | tools/cdb_ordered_unity.py:93-114 | The summary of an accepted header is exactly the effect of including it, from any macro state. |
| MacroScope.PrologueView | tools/cdb_ordered_unity.py:210-212 | When an original's source is reached, its own Definitions have been applied to the state before it, and that state is saved. |
| MacroScope.EpilogueView | tools/cdb_ordered_unity.py:212-213 | The pops bring the saved state back, whatever a balanced source did. |
| MacroScope.WrapperRestores | tools/cdb_ordered_unity.py:207-213 | After the wrapper every touched macro, and everything pushed before, is as it was. |
| MacroScope.BeforeIsPrefix | tools/cdb_ordered_unity.py:208-213 | The lines before original i, then its include, are the first lines of the wrapper. |
| MacroScope.SourceSeesOwnDefinitions | tools/cdb_ordered_unity.py:207-213 | For any number of originals and any balanced sources, original i's source sees at every touched macro what its own Definitions give from the common starting state. |
| OrderedUnity.IncludePath | tools/cdb_ordered_unity.py:34-38 | A path can stand in an include directive exactly when it holds no quote, line break or NUL; backslashes become slashes and nothing else changes. |
| OrderedUnity.Admit | tools/cdb_ordered_unity.py:145-175 | An admitted item is unambiguous and within the source budget, names its source by its include path, and carries the state its Definitions give and the context it is grouped by. |
| OrderedUnity.ExtendKeeps | tools/cdb_ordered_unity.py:183-191 | Adding an item keeps the runs consecutive and within both bounds. |
| OrderedUnity.RunsFit | tools/cdb_ordered_unity.py:180-191 | A group is cut into consecutive nonempty runs within both bounds, without losing an item. |
| OrderedUnity.RunsAreFewest | tools/cdb_ordered_unity.py:180-191 | No division of a group into consecutive runs within both bounds has fewer runs. |
| OrderedUnity.AllRunsHold | tools/cdb_ordered_unity.py:180-191 | The runs of all groups hold each item once. |
| OrderedUnity.AllRunsFit | tools/cdb_ordered_unity.py:180-191 | Every run is of one context and within both bounds. |
| OrderedUnity.CandidateIsLawful | tools/cdb_ordered_unity.py:180-198 | A candidate has at least two admitted originals of one context, within both bounds. |
| OrderedUnity.NothingMergedTwice | tools/cdb_ordered_unity.py:180-198 | No original is merged twice, within a candidate or across candidates. |
| OrderedUnity.OnlyLoneAreLeft | tools/cdb_ordered_unity.py:195-198 | An admitted original is merged if and only if it was not alone in its run. |
| OrderedMeaning.AdmitMeans | tools/cdb_ordered_unity.py:145-175 | An original is admitted if and only if no other entry has its source, each of its members is listed nowhere else, all are absolute, of one kind and within the budget, its command and Definitions can be read, and its path can be included; and what its item then holds. |
| OrderedMeaning.AdmitReason | tools/cdb_ordered_unity.py:150-178 | One that is not admitted is reported with the first of these checks, in the source's order, that fails. |
| OrderedMeaning.ContextMeans | tools/cdb_ordered_unity.py:117-122 | Two originals have one context exactly when directory, shared arguments and kind agree and their macros do, up to API macros that each leaves alone or defines as empty. |
| OrderedMeaning.CandidateMeans | tools/cdb_ordered_unity.py:180-198 | Every candidate merges at least two admitted originals that agree in this way, within the bounds on originals and on member sources, counted as a set. |
| OrderedMeaning.WholeIsCandidate | tools/cdb_ordered_unity.py:180-198 | All admitted originals become one candidate if and only if there are several, each two agree, and both bounds allow it. |
| OrderedPlanner.CandidateScopes | tools/cdb_ordered_unity.py:195-214 | In every candidate, each merged source sees its own Definitions and the wrapper restores the state before it. |
| OrderedPlanner.SharedContext | tools/cdb_ordered_unity.py:117-122 | Two merged originals differ at a macro only if it is an API macro that each leaves alone or defines as empty. |
| OrderedPlanner.MembersApart | tools/cdb_ordered_unity.py:141-152 | No member source belongs to two admitted originals, so no candidate compiles it twice. |
| OrderedPlanner.MapMembership | tools/cdb_ordered_unity.py:135-140 | Fails exactly when two paths have one key. |
| OrderedPlanner.GroupEntries | tools/cdb_ordered_unity.py:145-178 | Items are grouped by context in order; the retained commands and their reasons are exactly the entries not admitted. |
| OrderedPlanner.PackGroup | tools/cdb_ordered_unity.py:181-191 | The loop over a group yields its greedy runs. |
| OrderedPlanner.PackGroups | tools/cdb_ordered_unity.py:180-191 | The chunks of all groups, in group order. |
| OrderedPlanner.TouchedNames | tools/cdb_ordered_unity.py:200 | The touched names are exactly the macros that some Definitions header of the candidate mentions, each once. |
| OrderedPlanner.UnionSearch | tools/cdb_ordered_unity.py:201-206 | The include search holds each option of each original once. |
| OrderedPlanner.WriteOriginal | tools/cdb_ordered_unity.py:210-213 | The lines of one original: pushes, its Definitions, its source, pops in reverse. |
| OrderedPlanner.WriteLines | tools/cdb_ordered_unity.py:207-213 | The wrapper is those lines, original by original. |
| OrderedPlanner.RetainedIs | tools/cdb_ordered_unity.py:193-198 | A command is retained exactly when no candidate merges its entry. |
| OrderedPlanner.WriteCandidates | tools/cdb_ordered_unity.py:193-231 | Each chunk of at least two becomes one candidate with a wrapper that scopes its macros and the command that compiles it; lone ones are retained. |
| OrderedPlanner.BuildCandidates | tools/cdb_ordered_unity.py:125-234 | Fails exactly on unusable budgets; otherwise every entry is merged by a lawful candidate or retained, never both, and every rejection is reported with its reason. |
| OrderedCommand.Parse | tools/cdb_ordered_unity.py:41-90 | The argument walk computes the shared arguments, the search options and the Definitions, or the first error. |
| OrderedCommand.ParseMeans | tools/cdb_ordered_unity.py:41-90 | It succeeds if and only if the arguments split into known pieces with one source and every Definitions header behind the other forced inputs; the result is what those pieces mean. |
| OrderedCommand.SharedThenDefinitions | tools/cdb_ordered_unity.py:67-85 | Forced inputs are seen by the compiler as the shared ones and then the Definitions, the order the wrapper reproduces. |
| OrderedCommand.PiecesFit | tools/cdb_ordered_unity.py:41-90 | The pieces spell exactly the arguments. |
| OrderedCommand.FittingReadBack | tools/cdb_ordered_unity.py:41-90 | Arguments spelled by fitting pieces read back as those pieces. |
| CommandSpelling.IndirectSpelled | tools/cdb_ordered_unity.py:49-50 | Exactly response files, `--config` and `-ivfsoverlay`, joined or not, are refused. |
| CommandSpelling.SearchSpelled | tools/cdb_ordered_unity.py:19 | The search flags that take the next argument, letter by letter. |
| CommandSpelling.JoinedSpelled | tools/cdb_ordered_unity.py:62-66 | The search options that hold their directory, letter by letter. |
| CommandSpelling.ForcedSpelled | tools/cdb_ordered_unity.py:67 | The forced-input flags, alone or with an equals sign, letter by letter. |
| CommandSpelling.SearchPiece | tools/cdb_ordered_unity.py:56-61 | A search flag takes the next argument along and is refused without one. |
| CommandSpelling.ForcedPiece | tools/cdb_ordered_unity.py:67-77 | A forced input is read with its path made absolute, however it is spelled, and refused without one. |
| CommandSpelling.ForcedParse | tools/cdb_ordered_unity.py:41-90 | An included Definitions header leaves the command for the wrapper; every other forced input stays among the shared arguments. |
| OrderedCommand.CandidateReads | tools/cdb_ordered_unity.py:215-224 | The candidate's command reads back as the compiler, all search options, and the shared pieces with the wrapper as the one source. |
| OrderedCandidates.ItemIsParsed | tools/cdb_ordered_unity.py:157-174 | An admitted original carries what reading its own command gave, and its directory. |
| OrderedCandidates.OperandsAre | tools/cdb_ordered_unity.py:47-87 | The operands of a command are the arguments of its pieces other than the source. |
| OrderedCandidates.SharedCollected | tools/cdb_ordered_unity.py:215-224 | The shared pieces hold the shared arguments and the source, and no search option or Definitions header. |
| OrderedCandidates.OptionsFit | tools/cdb_ordered_unity.py:201-206 | Every option of the united search is read as that option in the merged command. |
| OrderedCandidates.CandidateParses | tools/cdb_ordered_unity.py:215-224 | End to end, for each original of a built candidate: the candidate's command reads as that original's compiler, the united search, and the rest of its command with the wrapper for the source; it parses to the shared arguments, the united search and no Definitions header. |
| Argv.SplitArgument | tools/cdb_argv.py:48-80 | The loop over one argument computes the argument and the rest, on every input. |
| Argv.SplitCommandLine | tools/cdb_argv.py:83-92 | Splitting ends on every command line with the arguments it means. |
| Argv.PlainScans | tools/cdb_argv.py:71-78 | Text without quotes and backslashes (and, outside quotes, without blanks) is taken as it is. |
| Argv.BlankEnds | tools/cdb_argv.py:56-58 | A space or tab outside quotes ends the argument and is dropped. |
| Argv.DoubledQuote | tools/cdb_argv.py:59-70 | A doubled quote inside quotes stands for one quote and ends the quoting. |
| Argv.DoubledQuoteSplits | tools/cdb_argv.py:48-92 | So text quoted around a doubled quote ends its argument at the next blank, and the quote that was meant to close it opens another. |
| Argv.QuotedPiece | tools/cdb_argv.py:59-70 | A pair of quotes is dropped and what stands between them is taken. |
| Argv.EscapeScansBack | tools/cdb_argv.py:48-80 | Escaped text reads back, with any run of backslashes before quotes and at the end. |
| Argv.QuoteScansBack | tools/cdb_argv.py:48-80 | One quoted argument reads back as itself and what follows it is untouched. |
| Argv.SplitJoins | tools/cdb_argv.py:83-92 | Quoting any list of strings by the CommandLineToArgvW rules, joining with spaces and splitting gives the same list, empty arguments included. |
| Argv.RequotingKeepsArguments | tools/cdb_argv.py:83-92 | Splitting any command line and quoting the result again does not change what it means. |
| CommandDigest.DecimalInjective | tools/cdb_unity_receipt.py:33 | Two numbers with the same decimal digits are the same number. |
| CommandDigest.FrameSplits | tools/cdb_unity_receipt.py:33-34 | A length-framed field can be split off a byte string in one way only. |
| CommandDigest.FramedInjective | tools/cdb_unity_receipt.py:33-34 | The framed bytes determine the list of fields. |
| CommandDigest.DecimalBytes | tools/cdb_unity_receipt.py:33 | The length is written in decimal digits, the last one last. |
| CommandDigest.FrameBytes | tools/cdb_unity_receipt.py:33-34 | A short field is framed as its one or two digits, a colon and its bytes. |
| CommandDigest.FramedCommand | tools/cdb_unity_receipt.py:28-34 | What is hashed is the framed directory, then the file, then each argument in order. |
| CommandDigest.CommandMeans | tools/cdb_unity_receipt.py:21-32 | An entry has a hash if and only if it has arguments, no field has a NUL, and directory, file and compiler are not empty. |
| CommandDigest.HashInjective | tools/cdb_unity_receipt.py:21-35 | When SHA-256 does not collide on the framed bytes of two commands, their entry hashes agree if and only if directory, file and arguments do. |
| CommandDigest.HashCounts | tools/cdb_unity_receipt.py:288-290 | Without a collision with a command, its hash stands in the list as often as the command does. |
| CommandDigest.SomeHashTells | tools/cdb_unity_receipt.py:288-290 | For any two commands some hash of the right width does not collide on them and tells their digests apart, so the assumptions can be met. |
| Sorting.SortSorts | tools/cdb_unity_receipt.py:289 | `sorted` puts the elements in order. |
| Sorting.SortPermutes | tools/cdb_unity_receipt.py:289 | It keeps each element as often as it was there. |
| Sorting.SortForgetsOrder | tools/cdb_unity_receipt.py:289 | Two lists sort to the same list if and only if they hold the same elements, each as often. |
| Sorting.SortIsStable | tools/cdb_unity_receipt.py:289 | Elements that compare equal keep their order. |
| CommandDigest.LexIsOrder | tools/cdb_unity_receipt.py:289 | Comparing hashes letter by letter is a total order. |
| CommandDigest.LexMeans | tools/cdb_unity_receipt.py:289 | One hash is before another when it is a prefix of it or smaller at the first letter where they differ. |
| CommandDigest.ConcatInjective | tools/cdb_unity_receipt.py:288-290 | Concatenated fixed-width hashes come apart again. |
| CommandDigest.DigestMeansHashes | tools/cdb_unity_receipt.py:288-290 | For every hash of 64 characters, the digest input is equal for two databases if and only if they have the same multiset of entry hashes. |
| CommandDigest.DigestMeansCommands | tools/cdb_unity_receipt.py:288-290 | So, when no two commands of the two databases collide, if and only if they hold the same multiset of commands. |
| CommandDigest.Commands | tools/cdb_unity_receipt.py:21-35 | Fails exactly when some entry lacks a valid directory, source or argument list. |
| CommandDigest.Complete | tools/cdb_unity_receipt.py:278-298 | Reports a change exactly when the stored digest is not the digest of the current commands. |
| CommandDigest.UnchangedMeansSame | tools/cdb_unity_receipt.py:278-298 | When neither the commands of two runs nor their digest texts collide, the second reports no change if and only if the commands are the same multiset, in any order. |
| GraphTables.TablesUnique | tools/clangd_batch_admission.py:110-140 | The collected tables do not depend on the order in which files are visited. |
| GraphCollector.AddEntryKeeps | tools/clangd_batch_admission.py:122-137 | Taking in one more file keeps the tables those of the files seen so far. |
| GraphCollector.TakeEntry | tools/clangd_batch_admission.py:116-137 | A file is refused exactly when it is uncompilable, a nonempty ignored wrapper, misfiled, or conflicts with an earlier copy; an empty ignored wrapper changes nothing. |
| GraphCollector.TakeGraph | tools/clangd_batch_admission.py:113-137 | The loop over one graph extends the tables, or the graphs cannot be collected. |
| GraphCollector.Collect | tools/clangd_batch_admission.py:110-140 | Fails exactly when the graphs have no tables; otherwise returns them. |
| Admission.NothingIsLost | tools/clangd_batch_admission.py:251-255 | An accepted candidate holds every reference and relation of every original. |
| Admission.SymbolsAreKept | tools/clangd_batch_admission.py:205-250 | It holds every symbol id of every original, and every place of definition. |
| Admission.AddedRefsAreProven | tools/clangd_batch_admission.py:256-279 | Every reference it adds was proven by the compiler callback for exactly the originals that hold the file. |
| Admission.UnchangedIsAccepted | tools/clangd_batch_admission.py:199-283 | A candidate with equal tables is accepted without callbacks if and only if, for each symbol, the definition-bearing records carry the same languages as all records. |
| Admission.TwoLanguagesAreRefused | tools/clangd_batch_admission.py:228-234 | A concrete graph with a declaration and a definition of one symbol in two languages is refused as a candidate for itself, whatever the callbacks say. |
| Admission.AcceptsTables | tools/clangd_batch_admission.py:195-283 | Acceptance is a property of the two collections of tables. |
| AdmissionOrder.CollectableMoves | tools/clangd_batch_admission.py:110-140 | Rearranging the originals keeps them collectable. |
| AdmissionOrder.TablesMove | tools/clangd_batch_admission.py:110-140 | Rearranging the originals only renames the graph indices in the tables. |
| AdmissionOrder.PreservesMoves | tools/clangd_batch_admission.py:199-283 | The comparison moves with the renaming. |
| AdmissionOrder.AcceptanceIsOrderFree | tools/clangd_batch_admission.py:161-285 | Acceptance does not depend on the order of the original graphs, with the callbacks' indices renamed alike. |
| AdmissionGate.ClosureIn | tools/clangd_batch_admission.py:79-90 | The stack search finds exactly the files of the graph reachable by includes. |
| AdmissionGate.ExposesIn | tools/clangd_batch_admission.py:75-77 | The memoised search answers as an unmemoised one would. |
| AdmissionGate.ValidProviders | tools/clangd_batch_admission.py:68-107 | True exactly when the changed header suggestions are provable providers in some original. |
| AdmissionGate.CheckSymbol | tools/clangd_batch_admission.py:220-250 | Finds no fault exactly when the symbol is kept. |
| AdmissionGate.CheckSymbols | tools/clangd_batch_admission.py:220-250 | Finds no fault exactly when all symbols are kept, and collects exactly those whose template arguments changed. |
| AdmissionGate.ProveTemplates | tools/clangd_batch_admission.py:259-268 | Finds no fault exactly when the callback proves every changed specialization. |
| AdmissionGate.ProveRefs | tools/clangd_batch_admission.py:269-279 | Finds no fault exactly when the callback proves every added reference. |
| AdmissionGate.CompareTables | tools/clangd_batch_admission.py:199-283 | Accepts exactly when the candidate's tables preserve the originals'. |
| AdmissionGate.CompareGraphs | tools/clangd_batch_admission.py:161-285 | Accepts exactly the acceptable candidates, and lists exactly the references no original holds. |
| AdmissionMeaning.CollectableMeans | tools/clangd_batch_admission.py:110-140 | Graphs can be compared if and only if each has files, all compiled, ignored ones bare, references kept under their own file, and files that two graphs share agree in digest and flags. |
| AdmissionMeaning.TablesExist | tools/clangd_batch_admission.py:110-140 | Collectable graphs always have tables, so what is said of all tables is said of some. |
| AdmissionMeaning.SourcesMean | tools/clangd_batch_admission.py:199-204 | The file test passes exactly when both sides have the same files with the same digest, flags and union of includes. |
| AdmissionMeaning.ProvidersMean | tools/clangd_batch_admission.py:68-107 | The header test passes exactly when the suggested headers and their directives are the same, or every new one is a header file of some original from which includes lead to the symbol, and to its body if they did from an old one. |
| AdmissionMeaning.PlacesMean | tools/clangd_batch_admission.py:242-250 | The place tests pass exactly when definitions are kept, a declared symbol stays declared, and every place of the candidate is an original's or stands in a reference of the right kind. |
| AdmissionMeaning.SymbolMeans | tools/clangd_batch_admission.py:220-250 | The tests of one symbol pass exactly when it has the same names, scopes, kinds, languages, nonempty types, signatures, return types and suffixes, the same flags but for documentation, and kept places and providers. |
| AdmissionMeaning.ArgumentsMean | tools/clangd_batch_admission.py:143-158 | A specialization's printed arguments are equal, or the callback proved them from exactly the records of every original that has any and of the candidate. |
| AdmissionMeaning.VerifiedMeans | tools/clangd_batch_admission.py:256-279 | An added reference was proven at its own place, for its symbol, in exactly the originals that hold its file. |
| AdmissionMeaning.AcceptsMeans | tools/clangd_batch_admission.py:161-285 | A candidate is accepted if and only if, said of the graphs alone: the graphs can be compared, the files are the same, every symbol stays, relations are the same, no reference is lost, and changed specializations and added references are proven. A difference in any one of them is refused. |
| Batching.PartsKeep | tools/cdb_verified_batch.py:1853-1855 | Accepting disjoint chunks only moves members between places: no source is lost or repeated. |
| Batching.PartIsCovered | tools/cdb_verified_batch.py:2164-2179 | The place of an entry holds exactly what the database covers there. |
| Batching.BackgroundCovers | tools/cdb_verified_batch.py:2178-2179 | Reading the background database in order covers the parts in order. |
| Batching.CoverageKept | tools/cdb_verified_batch.py:2178-2187 | Any acceptances of disjoint chunks leave a database that covers every source as often as the input: the member-count check cannot fire. |
| FallbackWorklist.PlanIsApart | tools/cdb_verified_batch.py:2056-2057 | Planned chunks have no entry in common and lie in the database. |
| FallbackWorklist.RenamedApart | tools/cdb_verified_batch.py:2173-2176 | Chunks of positions renamed to entries stay apart. |
| FallbackWorklist.FallbackWithin | tools/cdb_verified_batch.py:2009-2013 | Fallback chunks divide part of their chunk. |
| WorklistMeaning.FallbackMeans | tools/cdb_verified_batch.py:2001-2013 | A rejected chunk whose members are of different classes is planned again alone with split classes and no limit on sources; any other has no fallback. |
| WorklistMeaning.ChildrenMean | tools/cdb_verified_batch.py:2131-2177 | A job is followed by one fallback job per such chunk exactly when it was a planned one and a gate rejected it. |
| BatchMeaning.JobsAre | tools/cdb_verified_batch.py:2056-2177 | What is tried is each planned chunk and each fallback chunk of a planned one that a gate rejected, nothing else. |
| BatchMeaning.AcceptedAre | tools/cdb_verified_batch.py:2164-2170 | What is accepted is the chunk of each job whose verdict was to accept it. |
| BatchMeaning.BackgroundMeans | tools/cdb_verified_batch.py:2167-2180 | The database after a run holds, in order, every entry that gave way to no smaller one of its chunk, with the chunk's candidate at its least entry. |
| BatchMeaning.MembersAreJoined | tools/cdb_verified_batch.py:2164-2170 | A candidate holds the members of its entries, entry by entry. |
| FallbackWorklist.PlannedShare | tools/cdb_verified_batch.py:2131-2177 | A planned chunk is accepted or gives way to its fallback chunks, never both. |
| FallbackWorklist.AcceptedAreApart | tools/cdb_verified_batch.py:2056-2177 | For every pattern of verdicts the accepted chunks of a run have no entry in common. |
| FallbackWorklist.AcceptedInRange | tools/cdb_verified_batch.py:2056-2177 | And each lies in the database. |
| TierAcceleration.PendingGrows | tools/cdb_verified_batch.py:2056-2177 | The worklist grows only while planned chunks are tried, so it ends: fallback is one level deep. |
| TierAcceleration.AccelerateTier1 | tools/cdb_verified_batch.py:2056-2187 | For all verdicts the run ends with one record per job and the background of the accepted chunks, covers every source as before, and never invalidates its result. |
| TierMerge.QualifyModules | tools/cdb_verified_batch.py:2623-2728 | The first loop consumes exactly the accepted module chunks. |
| TierMerge.AllAcceptedApart | tools/cdb_verified_batch.py:2732-2749 | Module chunks and rebased residual chunks have no entry in common. |
| BatchMeaning.BothTiersAre | tools/cdb_verified_batch.py:2726-2749 | A run of both tiers accepts the accepted module chunks and, renamed, what a Tier 1 run accepts over the ascending list of the entries that none of them has. |
| TierMerge.MergedIsBackground | tools/cdb_verified_batch.py:2753-2754 | The merge of both tiers is the background of all accepted chunks. |
| TierMerge.ReceiptIsOwn | tools/cdb_verified_batch.py:2738-2747 | The receipt recorded for an accepted residual chunk is its own. |
| TierMerge.ByReceiptFinds | tools/cdb_verified_batch.py:2738-2747 | With distinct receipts the lookup finds each candidate's own output. |
| TierMerge.OriginalTakesReceipt | tools/cdb_verified_batch.py:2738-2749 | Receipts have to differ: a later original that already carries a chunk's receipt is what the lookup yields in place of its candidate. |
| TierMerge.BatchIsShown | tools/cdb_verified_batch.py:2753-2754 | Every accepted chunk has its candidate in the database. |
| TierMerge.CandidateFound | tools/cdb_verified_batch.py:2746-2748 | The lookup never misses, and with distinct receipts it yields the chunk's own candidate. |
| TierMerge.AttachCandidates | tools/cdb_verified_batch.py:2740-2749 | The second loop rebases every accepted record and attaches its candidate to its least entry. |
| TierMerge.AccelerateTier2 | tools/cdb_verified_batch.py:2623-2761 | The result always covers every source as before; with distinct receipts the final check never fires and the result holds every accepted chunk of both tiers. |
| TierPlans.BinIndexesDistinct | tools/cdb_verified_batch.py:2605-2607 | A planned module bin holds no entry twice. |
| TierPlans.ModulePlanIsApart | tools/cdb_verified_batch.py:2605-2607 | So a module plan meets what the two-tier run relies on. |
| BisectionWorklist.HintsApart | tools/cdb_verified_batch.py:1656-1667 | Cached groups are claimed only when clear of earlier claims. |
| BisectionWorklist.ClaimedIsPart | tools/cdb_verified_batch.py:1680-1691 | Halving: what is claimed of a planned chunk is part of it, each entry at most once. |
| WorklistMeaning.TriedMeans | tools/cdb_verified_batch.py:1679-1691 | What is tried of a planned chunk is the chunk itself and both halves, of at least two entries, of every tried group that admission rejected. |
| BatchMeaning.HintsMean | tools/cdb_verified_batch.py:1654-1667 | Only proven cached groups are claimed, and a proven one that is not claimed shares an entry with one that is. |
| BatchMeaning.ClaimedAre | tools/cdb_verified_batch.py:1633-1691 | What is claimed is these cached groups and every tried group that is proven. |
| BisectionWorklist.PlannedAreApart | tools/cdb_verified_batch.py:1668-1678 | Planned chunks are apart and clear of every cached group, in whichever order they are tried. |
| BisectionWorklist.StackStep | tools/cdb_verified_batch.py:1679-1691 | One turn of the stack is one step of the depth-first order. |
| BisectionWorklist.TopIsFree | tools/cdb_verified_batch.py:1681-1683 | The group on top of the stack is always clear of everything claimed: the check before it never skips one. |
| BisectionWorklist.ClaimedAreApart | tools/cdb_verified_batch.py:1633-1691 | No entry is in two claimed groups, cached or proven, whole or halved. |
| BisectionWorklist.BatchGroups | tools/cdb_verified_batch.py:1633-1691 | For all verdicts the stack empties, tries the groups in depth-first order, and claims exactly the accepted ones. |
| BisectionWorklist.StrictCoverageKept | tools/cdb_verified_batch.py:3426-3429 | The strict run leaves one candidate per claimed group and covers every source as before. |

## Left out

Abstractions in the modelled code:

- GreedyCover.MaxRatio: compares the ratios exactly, as fractions, while `select_cover` compares Python floats.
- UnityPlanner.SecondaryUnityChunks: reports no diagnostics. The planner's file reads are one `bytes` value per entry,
  absent when they fail (then the entry counts as one byte over the budget, as in the code).
- Reading module owners: the whole-module planner's reads of wrappers, headers and sizes are one `info` result per entry;
  which of several read errors is reported first is that of the first entry.
- ReindexPlan.PlanReindex: takes the state of the manifest, the stamps and the number of workers as given.
- FileGraph.Merge: leaves out the check of a shard's version number, which the decoder has already made.
- FileGraph.CanonicalFileGraph: likewise.
- OrderedPlanner.BuildCandidates: gives the items, lines and command of a candidate; the path of the wrapper, named by a
  hash, is an arbitrary function of them, and the definition hashes and the record written beside it are not modelled.
- OrderedCandidates.CandidateParses: asks of the originals' commands that they start with the compiler, and that no operand
  is the literal `<SOURCE>` mark or names the wrapper, which the code does not check.
- CommandDigest.Complete: starts from commands with argument lists; `normalize_cdb`, which splits command texts, is not
  part of it.
- Environment variables, path normalisation, file-name tests and the detection of generated files are inputs of the model.
- zlib is an arbitrary inflater that the writer's packing must invert; SHA-256 is an arbitrary function with results
  of 64 characters that does not collide on the commands being compared; JSON text is replaced by the values it denotes.
- Shard strings stay bytes: the UTF-8 decoding of the string table and the hexadecimal rendering of ids and digests, with
  its memo, are not modelled.
- Comparing records: graph admission and the file graph compare records where the code compares their keys, which
  `RecordKeys` proves to be the same for shard records. The order of the keys is an arbitrary total order.
- OrderedPlanner.TouchedNames: does not sort the names as the code does; the results hold for every order without
  repetition.
- Definitions text: line splicing, comment removal and the directive pattern are taken as done; the model starts from the
  logical lines and their kinds. The identity hash of a wrapper and `strip_write_only_flags` are not modelled.
- AdmissionGate.CompareGraphs: `compare_graphs` visits files and symbols in sorted order; the model proves when it
  accepts, not which of several failing symbols is reported. Flags, kinds and directives are sets of bit numbers. Graphs
  that lack a field (the `KeyError` and `TypeError` paths) cannot be expressed.
- Transaction.Commit: starts from the replacement list; building it (`tools/cdb_transaction.py:83-198`), an interrupt
  between a replacement and its recording, and the header-cache migration after the commit are not modelled.
- Qualifying a chunk (compiling, cached receipts, gates, rechecks) is an arbitrary verdict per job, in both tiers and in the
  strict run. The sort of `prioritize_small` is an arbitrary rearrangement of the planned chunks.
- Proof-store answers: what `_cache_only` returns for an upgrade is arbitrary, apart from the checks that `_replacements`
  has made on it. Owner identities stay in record order, which the comparison with a single identity cannot tell from
  sorted order.
- ShardOwner.ReadOwner: does not model the path checks, a file that changes while it is read, or the reported byte
  counter.

Parts of the repository that would only add easy members or are operating-system plumbing:

- `write_outputs_if_changed`, a smaller form of the publication transaction.
- `_reuse_completed`, `_verified_groups`, hint files, catalogs, directory inventories and receipt revalidation.
- Snapshots, manifests, `workers_for`, worker processes, job objects and memory guards of the branch switch.
- POSIX command splitting, the detection of the command syntax and `normalize_cdb`.
- libclang bindings, query-driver observation, the legacy converters, the C shims, LSP streams, command-line entry points,
  printed metrics and timings.
