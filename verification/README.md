# Verified model of the profiler's data path

The profiler samples a running process, turns kernel records into per-thread events, and answers
queries from them: a call tree, a per-address table, names for addresses. Beside it stands an
importer for evaluation-graph captures, and a stall detector. This project models that logic in
Dafny and proves what the components promise, alone and together.

| component | source | files |
|---|---|---|
| call tree, top table, aggregation walk | `stax-live/src/aggregator.rs` | `CallTrie`, `PathSums`, `TopTable`, `StackTree`, `Aggregator`, `AggregatorLaws`, `ThreadOrder`, `EventLog`, `LogFigures` |
| image registry, address lookup | `stax-live/src/binaries.rs` | `Sorting`, `Registry` |
| ELF symbol tables | `stax-linux-capture/src/elf.rs` | `ElfSymbols` |
| JIT regions, tables, publishing | `stax-linux-capture/src/jit.rs`, `session.rs` | `JitImages`, `JitDirty`, `JitTables`, `JitTracker`, `JitPublish`, `PerfMapNames` |
| perf-map reading | `stax-linux-capture/src/jit.rs` | `PerfMap`, `PerfMapTailer` |
| perf ring and record dispatch | `stax-linux-capture/src/sys.rs`, `session.rs` | `PerfRecords`, `PerfRing`, `RingMachine` |
| capture session | `stax-linux-capture/src/session.rs` | `Session`, `SessionSteps`, `SessionLaws`, `SessionTimeline`, `SessionThreads`, `SessionRecords`, `SessionEvents`, `CaptureSession` |
| session and aggregation together | both | `EndToEnd`, `BlockedTime` |
| stack splice | `stax-linux-capture/src/dwarf.rs` | `Splice` |
| evaluation-graph importer | `stax-eval-graph/src/lib.rs` | `EvalGraph`, `GraphLimits`, `GraphCommute`, `GraphAccounts`, `GraphTotals`, `GraphRuns`, `GraphVerdict`, `GraphRecords`, `GraphDetailVerdict`, `GraphQueries`, `GraphImporter` |
| stall detector | `cli/src/main.rs` | `Stalls` |

Code that the source writes as updates in place is modelled by classes and loops (`StackTree`,
`Aggregator`, `Registry`, `JitTracker`, `PerfMapTailer`, `PerfRing`, `CaptureSession`,
`GraphImporter`, `Stalls`); each method is proved equal to a function of the old state, and the
laws are proved about those functions. Machine integers are modelled with their width: counters
saturate, address arithmetic wraps. `Numbers`, `Sums` and `Sorting` hold what all files share.

Main results:

- **The two summaries agree.** Unless an address's total saturated, its total in the table is the sum
  over the tree's topmost nodes for it, and its self value is the sum over all its nodes of the
  node's value minus its children's, for every counter and for recursive stacks.
- **Merging is a homomorphism**, node for node, for the heap tree: saturation, off-CPU reasons and
  the first-wins kind included. The order in which threads are visited shows in no number, and in a
  kind if and only if the first spans of two threads that mark the place have different kinds.
- **The two-cursor walk is the plain filter**, no sample is used twice, and every nanosecond of the
  on-CPU total, of target time and of each off-CPU reason is accounted for.
- **Every figure is read off the log:** each counter of each tree node and table entry, and each total, is
  the capped sum, over the events the log holds, of what one event adds by its own fields. The log holds
  each thread's newest 100,000 events.
- **From record to credit:** in a whole query, for every thread whose sample records came at increasing
  times and whose log was never full, sample `i` is credited exactly the capped time to sample `i + 1`.
  Every absence that the records show is credited once, for its length, to its own stack and the reason
  of its leaf frame.
- **Lookups** among any images with distinct bases and sorted symbols: the image with the greatest base at
  or below the address answers, if it covers it, with its last symbol at or below the linked address, if
  that reaches it. There is no other answer.
- **JIT names are exact:** a step keeps every clean region published with its current table if and only
  if it is harmless: it hides no symbol that runs into a clean region, and puts no other image at a clean
  region's base. After any harmless run an address of a clean region resolves to the last symbol that
  starts at or below it, if that reaches it; when symbols arrive disjoint and are never replaced by
  shorter ones, that is the symbol that covers it. The registry finds the region if and only if others
  loaded no image that begins between the region's start and the address. A run with a shorter
  replacement shows a stale name. From the file to the name: what a runtime prints into its perf map is
  what the registry answers with.
- **The ring is a queue** under any interleaving of kernel writes and copies.
- **Threads do not interfere:** the session is its threads side by side; what it emits about one is a
  function of that thread's own records and the wakeups aimed at it. Its off-CPU intervals are exactly
  the pairs of a switch-out and a later next switch-in in the records, with the newest wakeup if it is
  fresh, and no record stands for two; each has the stack its switch-out blocked in. Teardown closes the
  others at the greatest time of the records.
- **Graph import:** definitions commute with mentions; a detail capture's graph is exactly what its
  records show, edge by edge and node by node, its diagnostics are counted exactly, and it is complete if
  and only if the file is well formed; asked page by page, a neighborhood lists every wanted edge once, in
  the map's order. A file is imported as a complete counts capture if and only if it is within the limits
  and well formed, header, lines and as a whole, and its counts are called exact if and only if, besides,
  no row was flagged and no true sum is too large; totals are saturated true sums whatever the row order;
  the limits refuse exactly the files that are too large as a whole.
- **Tailing a growing perf map does not depend on when it is read**, and printed entries are read back.
- **Splicing makes up and moves no frame**, also with recursion; it completes a cut-short walk if and
  only if no missed address returns further down.

Where the code and its comments differ, the model follows the code: a perf map that was rewritten is
not always read from its start, and `PerfMapTailer.StartsOverExactly` says for every offset and content
when it is; the spliced stack is not always exact past the snapshot, and `Splice.SpliceCompletesWalk`
says when it is. The kind a frame is marked with is first-wins over a hash map's order, and
`ThreadOrder.KindIgnoresThreadOrderExactly` says when that order shows.

## Model

| member | source | states |
|---|---|---|
| CallTrie.PlusAssociative | stax-live/src/aggregator.rs:261-273 | adding the counters of tree nodes is associative, saturation and first-wins kind included |
| CallTrie.BuildKeys | stax-live/src/aggregator.rs:977-988 | the tree has a node exactly for the root and for every prefix of a credited stack |
| CallTrie.BuildTally | stax-live/src/aggregator.rs:977-988 | a node's counters are the sum of the credits whose stack passes through it; the root itself is never credited |
| CallTrie.SumAtConcat | stax-live/src/aggregator.rs:260-276 | what passes through a node for two credit lists joined is the sum of what passes for each |
| CallTrie.MergeHomomorphism | stax-live/src/aggregator.rs:260-276 | merging the trees of two credit lists gives the tree of the lists joined, node for node |
| PathSums.CountOnce | stax-live/src/aggregator.rs:937-989 | if each stack counts at exactly one of some nodes or at none, those nodes together weigh what the counted stacks weigh |
| PathSums.NodeIsChildrenPlusEnding | stax-live/src/aggregator.rs:977-988 | a node weighs what its children weigh plus the stacks that end at it |
| PathSums.AddressIsTopmostNodes | stax-live/src/aggregator.rs:961-974 | an address weighs what its nodes without an ancestor of the same address weigh together |
| PathSums.LeafIsEndingNodes | stax-live/src/aggregator.rs:949-960 | what ends at the nodes of an address is what has that address as leaf |
| TopTable.NodeCounter | stax-live/src/aggregator.rs:977-988 | every counter of every tree node is the true sum of its credits, capped at the largest u64 |
| TopTable.TableCounter | stax-live/src/aggregator.rs:946-974 | every total and self counter of the table is the true sum of the credits that mention the address, or have it as leaf, capped |
| TopTable.TotalAgreesWithTree | stax-live/src/aggregator.rs:937-989 | unless it saturated, an address's total is the sum over the tree's topmost nodes for it, for every counter, recursion included |
| TopTable.OwnAgreesWithTree | stax-live/src/aggregator.rs:937-989 | unless its total saturated, an address's self value is the sum over all its nodes of the node minus its children |
| StackTree.StackNode.AddOnCpu | stax-live/src/aggregator.rs:980-987 | one on-CPU credit on a node adds exactly its time, sample, target share, kind and PMU deltas |
| StackTree.StackNode.AddOffCpu | stax-live/src/aggregator.rs:1030-1031 | one off-CPU credit on a node adds its time to the one reason and one interval |
| StackTree.ChildOrDefault | stax-live/src/aggregator.rs:979-979 | looking up a child makes a zero node only where there was none and keeps the tree linked |
| StackTree.CreditOnCpuToTree | stax-live/src/aggregator.rs:977-988 | walking a stack from its caller-most frame credits exactly the nodes on its path, making missing ones, and keeps the tree well linked |
| StackTree.CreditOffCpuToTree | stax-live/src/aggregator.rs:1027-1032 | the same for off-CPU time |
| StackTree.Merge | stax-live/src/aggregator.rs:260-276 | merging two linked subtrees adds them node for node and leaves every other node and the source tree unchanged |
| StackTree.MergeRoots | stax-live/src/aggregator.rs:260-276 | merging whole trees adds them node for node |
| StackTree.MergeBuilt | stax-live/src/aggregator.rs:260-276 | merging the trees built from two credit lists in memory gives the tree built from both lists |
| Aggregator.CreditAddresses | stax-live/src/aggregator.rs:946-974 | the table is updated as specified: the leaf's self entry and, once per distinct address, its totals |
| Aggregator.CreditOnCpu | stax-live/src/aggregator.rs:937-989 | table and tree stay the table and tree of one and the same credit list |
| Aggregator.CreditOffCpu | stax-live/src/aggregator.rs:1003-1033 | the same for off-CPU credits |
| Aggregator.FindMatching | stax-live/src/aggregator.rs:798-818 | the two index loops find the cursor and the samples that the specification's walk finds |
| Aggregator.Aggregation.AddOnCpuInterval | stax-live/src/aggregator.rs:819-837 | an interval's time is spread in equal parts over its samples, or dropped when a part would be zero |
| Aggregator.Aggregation.AddSpan | stax-live/src/aggregator.rs:839-869 | a target span is filtered by thread or origin and credited to at most its two leaf-most frames |
| Aggregator.Aggregation.AddOffCpuInterval | stax-live/src/aggregator.rs:870-898 | an off-CPU interval that is asked for and kept moves the aggregation as the walk does; what that adds to every figure is CreditsFromLog's and PlainTotalFromLog's |
| Aggregator.Aggregation.AddInterval | stax-live/src/aggregator.rs:778-899 | one interval, open or closed, of any kind, moves the aggregation and the cursor as the walk's specification does |
| Aggregator.Aggregation.AddThread | stax-live/src/aggregator.rs:772-900 | the loop over a thread's intervals is the specified walk, its cursor starting at the front |
| Aggregator.Aggregator.NoteTimestamp | stax-live/src/aggregator.rs:554-565 | zero is ignored, the first timestamp stays, the newest is kept |
| Aggregator.Aggregator.RecordPetSample | stax-live/src/aggregator.rs:494-513 | a sample is appended to its thread's log, the oldest one evicted at the cap; no other thread changes |
| Aggregator.Aggregator.RecordInterval | stax-live/src/aggregator.rs:515-529 | an interval is appended likewise; an open one notes only its start |
| Aggregator.Aggregator.Aggregate | stax-live/src/aggregator.rs:741-911 | the whole query visits every thread once and issues exactly the credits of the specified walk |
| AggregatorLaws.WalkIsNaive | stax-live/src/aggregator.rs:772-838 | for time-sorted samples and start-sorted on-CPU intervals, other kinds anywhere between, the two-cursor walk is the plain filter by [start, end) |
| AggregatorLaws.NoSampleUsedTwice | stax-live/src/aggregator.rs:772-838 | with disjoint on-CPU intervals the positions of the samples used ascend strictly over the whole thread |
| AggregatorLaws.TotalIsAccountedFor | stax-live/src/aggregator.rs:788-869 | unless it saturated, the on-CPU total is the root's children, plus the remainders of the divisions, plus what went to empty stacks |
| AggregatorLaws.NodeCoversChildren | stax-live/src/aggregator.rs:977-988 | a node below the root has at least what its children have together, for every counter, if and only if that sum fits 64 bits |
| AggregatorLaws.PlainTotalIsAccountedFor | stax-live/src/aggregator.rs:839-898 | unless it saturated, the total of target time, of target spans and of each off-CPU reason is the root's children plus what went to empty stacks, with no remainder |
| AggregatorLaws.TargetWithinOnCpu | stax-live/src/aggregator.rs:766-901 | in the tree of any query a node's target time is part of its on-CPU time, saturated or not |
| ThreadOrder.ThreadAfter | stax-live/src/aggregator.rs:766-901 | a thread adds to a running walk exactly what it gives alone |
| ThreadOrder.FiguresIgnoreThreadOrder | stax-live/src/aggregator.rs:761-911 | whatever order the hash map gives, every counter of tree, table and totals is the capped sum of the threads' own |
| ThreadOrder.KindIsFirst | stax-live/src/aggregator.rs:995-1001 | at every node and address, the kind shown is that of the first thread visited that has one there by itself |
| ThreadOrder.KindIgnoresThreadOrderExactly | stax-live/src/aggregator.rs:995-1001 | every order of the threads shows the same kind at a node or address if and only if no two threads have different kinds there |
| ThreadOrder.OwnKindIsFirstSpan | stax-live/src/aggregator.rs:839-869 | a thread's own kind at a node or address is the lane kind of its first span that is kept, asked for, not empty and whose two leaf-most frames reach the place, and it has none exactly if there is no such span |
| ThreadOrder.KindDependsOnThreadOrder | stax-live/src/aggregator.rs:995-1001 | an instance: two threads that mark one frame differently, and both orders |
| EventLog.Record | stax-live/src/aggregator.rs:494-565 | after any record calls the aggregator knows exactly the threads that events came for, holds the newest 100,000 samples and the newest 100,000 intervals of each in order, and the first and the greatest of all nonzero timestamps, the end of an open interval not being one |
| LogFigures.CreditsFromLog | stax-live/src/aggregator.rs:761-899 | whatever paths one looks at, a query's credits there weigh, counter by counter, what the log's events add: a blocked interval its length to the reason of its leaf frame, a span its length to its two leaf-most frames, each sample inside an on-CPU interval its equal share and the hardware counts it carries; an open interval lasts to the later of now and its start |
| LogFigures.NodeFromLog | stax-live/src/aggregator.rs:977-988 | every counter of a tree node is the capped sum of what the log adds on paths through the node |
| LogFigures.TableFromLog | stax-live/src/aggregator.rs:946-974 | every total and self counter of an address is the capped sum of what the log adds on stacks that mention the address, or have it as leaf |
| LogFigures.PlainTotalFromLog | stax-live/src/aggregator.rs:839-898 | the total of each off-CPU reason is the capped sum of the lengths of the intervals asked for and kept whose leaf frame is classified as it; those of target time and target spans are the sums over the spans; no order of the log is needed |
| LogFigures.OnCpuTotalFromLog | stax-live/src/aggregator.rs:788-869 | the on-CPU total is the capped sum of the lengths of the on-CPU intervals that their samples shared, with what the division leaves over, and of the spans |
| LogFigures.QueryLog | stax-live/src/aggregator.rs:741-911 | record calls and a query put together: those totals over each thread's newest events, now being the greatest timestamp |
| Sorting.StableSortSorts | stax-live/src/binaries.rs:254-254 | the stable sort gives an ordered permutation |
| Sorting.StableSortStable | stax-live/src/binaries.rs:286-286 | of elements with one key, the first stays the first |
| Sorting.PartitionPointSplits | stax-live/src/binaries.rs:292-292 | on sorted data the partition point separates the keys at or below the bound from those above |
| Registry.InsertedWellFormed | stax-live/src/binaries.rs:246-257 | inserting replaces exactly the image with that base, keeps bases distinct and symbol tables sorted |
| Registry.SearchFinds | stax-live/src/binaries.rs:271-302 | the index search returns the image with the greatest base at or below the address if it covers it, and nothing exactly if that one does not |
| Registry.SearchIsLinearScan | stax-live/src/binaries.rs:271-302 | a covering image is found if and only if no other image begins between its base and the address |
| Registry.AddressRoundTrip | stax-live/src/binaries.rs:679-687 | the two wrapping address translations undo each other |
| Registry.FirstCover | stax-live/src/binaries.rs:472-475 | the linear symbol search returns the first symbol that covers the address, or none exactly if none does |
| Registry.SearchesAgree | stax-live/src/binaries.rs:364-374 | on tables with strict starts and no overlap, last-start search and first-cover search pick the same symbol |
| Registry.LookupAnswers | stax-live/src/binaries.rs:347-374 | among any images with distinct bases and sorted symbols: if an image covers the address and none begins in between, the answer is its last symbol that starts at or below the linked address, if that one reaches it, and else the bare image at that address; without such an image there is none. The linked address is as far from the text's link address as the address is from the base, modulo 2^64 |
| Registry.AnswersOnce | stax-live/src/binaries.rs:347-374 | that leaves one answer: each case is given exactly if its condition holds |
| Registry.CanonicalAnswer | stax-live/src/binaries.rs:364-374 | in a table with strict starts and no overlap the symbol that answers is the one that covers the linked address |
| Registry.RestoreIsIdentity | stax-live/src/binaries.rs:189-237 | restoring what was saved gives back the same images in the same order |
| Registry.BinaryRegistry.Insert | stax-live/src/binaries.rs:246-257 | the images are as specified, a stale index is gone, and the first architecture named stays |
| Registry.BinaryRegistry.Remove | stax-live/src/binaries.rs:259-262 | exactly the images with that base are gone, and the index with them |
| Registry.BinaryRegistry.BinaryForAddress | stax-live/src/binaries.rs:271-302 | the lazily rebuilt index is the fresh one; the answer is the last image to begin at or below the address, if it covers it |
| Registry.BinaryRegistry.LookupSymbol | stax-live/src/binaries.rs:347-374 | whether or not the index was cached, the answer is the one LookupAnswers states, read off the current images |
| Registry.BinaryRegistry.ReplaceFromSaved | stax-live/src/binaries.rs:216-239 | the registry holds exactly the saved images, unchanged if they came from a registry, and the first architecture among them |
| ElfSymbols.ExtractSymbols | stax-linux-capture/src/elf.rs:184-216 | read off the file's entries: one symbol for every address that a definition with a readable, non-empty name has, zero apart, and no other; each has the name of its first such entry in file order; all but the last end where the next one starts, the last one after its size, at least four bytes, capped |
| ElfSymbols.CloseGaps | stax-linux-capture/src/elf.rs:207-214 | every end but the last moves to the next start; starts, names and the last end stay |
| ElfSymbols.TableIsCanonical | stax-linux-capture/src/elf.rs:184-216 | such a table meets the condition under which both symbol searches agree |
| JitImages.IntersectingExact | stax-linux-capture/src/jit.rs:72-85 | on disjoint regions the walk back that stops at the first region ending too early finds exactly the regions meeting the range |
| JitImages.GapsExact | stax-linux-capture/src/jit.rs:94-104 | the gaps found with the moving cursor are exactly the uncovered part of the range |
| JitImages.AddMappingRegions | stax-linux-capture/src/jit.rs:90-121 | a mapping adds exactly what no region covered; regions stay disjoint and no old one moves or changes size |
| JitImages.AddMappingInv | stax-linux-capture/src/jit.rs:90-121 | regions disjoint and non-empty, dirty within the region starts, no waiting symbol forgotten: kept by mappings |
| JitImages.AddSymbolInv | stax-linux-capture/src/jit.rs:134-147 | the same is kept by new and replaced symbols |
| JitImages.AdoptOrphansInv | stax-linux-capture/src/jit.rs:163-172 | the same is kept by adoption, after which every symbol with a non-empty range meets a region and nothing waits |
| JitDirty.AddSymbolExact | stax-linux-capture/src/jit.rs:134-147 | a symbol already there with the same range and name changes nothing; any other marks exactly the regions it meets and waits if there is none; its range has at least one byte and stops at the last address |
| JitDirty.AddMappingExact | stax-linux-capture/src/jit.rs:90-121 | a mapping marks exactly the regions it adds and those a waiting symbol now meets; exactly the symbols that still meet none wait on; a mapping that adds no region changes nothing |
| JitDirty.AdoptOrphansExact | stax-linux-capture/src/jit.rs:163-172 | adoption covers exactly the ranges of the waiting symbols besides what was covered, and marks exactly the regions one of them meets |
| JitDirty.RunRanged | stax-linux-capture/src/jit.rs:90-172 | over every run, harmless or not, regions are disjoint and no waiting symbol is forgotten, and every symbol has a range, but for one at the very last address: what the two rows above ask for |
| JitTables.CleanTableUnchanged | stax-linux-capture/src/jit.rs:134-147 | a symbol that marks a region clean leaves its table unchanged if and only if it does not hide the symbol running into the region |
| JitTables.OrderlyHidesNothing | stax-linux-capture/src/jit.rs:134-147 | with disjoint symbols and replacements that never end earlier, no symbol hides another in that way |
| JitTables.TableNames | stax-linux-capture/src/jit.rs:183-193 | searching a region's table, symbols overlapping or not, finds exactly the last symbol that starts at or below the address if it reaches that far, and else none |
| JitTracker.Images.Intersecting | stax-linux-capture/src/jit.rs:72-85 | the loop gives the specified list of regions, ascending |
| JitTracker.Images.MarkDirty | stax-linux-capture/src/jit.rs:125-131 | exactly the regions meeting the range become dirty, and the result says whether there was one |
| JitTracker.Images.FindGaps | stax-linux-capture/src/jit.rs:94-104 | the cursor loop gives the specified gaps |
| JitTracker.Images.AddMapping | stax-linux-capture/src/jit.rs:90-121 | the fields after a mapping are those of the specification, and the count is the number of regions added |
| JitTracker.Images.AddSymbol | stax-linux-capture/src/jit.rs:134-147 | an unchanged entry changes nothing; otherwise the fields are those of the specification |
| JitTracker.Images.AdoptOrphans | stax-linux-capture/src/jit.rs:163-172 | the loop over the waiting symbols is the specified adoption |
| JitTracker.Images.Table | stax-linux-capture/src/jit.rs:183-193 | a region's table is the symbol running into it, then those starting inside, ascending |
| JitTracker.Images.TakeDirty | stax-linux-capture/src/jit.rs:176-201 | every dirty region is returned once, ascending, with its current table, and nothing is dirty afterwards |
| JitTracker.PublishJit | stax-linux-capture/src/session.rs:901-922 | publishing inserts exactly the dirty regions' images into the registry and counts the symbols known |
| JitPublish.SymbolKeepsPublishedExactly | stax-linux-capture/src/jit.rs:134-147 | after one symbol every clean region's published table is still the one computed from scratch if and only if, before it, the symbol hides none running into a clean region |
| JitPublish.StepInvExactly | stax-linux-capture/src/session.rs:871-920 | a mapping, symbol, adoption, publication or other image keeps every clean region in the registry with its current table if and only if it hides no symbol running into a clean region and puts no other image at a clean region's base |
| JitPublish.RunInv | stax-linux-capture/src/session.rs:871-920 | over every run of harmless steps from the start, every clean region is in the registry with its current table |
| JitPublish.OrderlyIsHarmless | stax-linux-capture/src/jit.rs:134-147 | when symbols arrive disjoint and are never replaced by shorter ones, no symbol step of the run does harm |
| JitPublish.BasesOfRun | stax-linux-capture/src/session.rs:901-920 | after any harmless run, every image begins at a region of the tracker or was loaded by others, and all those that were loaded are there |
| JitPublish.OnlyOthersBetween | stax-linux-capture/src/jit.rs:12-19 | an image begins between a clean region's start and an address in it if and only if others loaded one there: published images never overlap |
| JitPublish.FindsRegion | stax-live/src/binaries.rs:271-302 | after any harmless run the registry resolves an address of a clean region to that region's image if and only if others loaded no image that begins in between |
| JitPublish.LookupFollowsSymbols | stax-live/src/binaries.rs:347-374 | after any harmless run, symbols overlapping or not, an address of a clean region resolves to the last JIT symbol that starts at or below it if that one reaches it, and else to the bare region, unless others loaded an image that begins in between |
| JitPublish.LookupIsExact | stax-live/src/binaries.rs:347-374 | after any orderly run, an address of a clean region resolves to exactly the JIT symbol that covers it, or to the bare region if none does, unless others loaded an image that begins in between |
| JitPublish.ShorterReplacementGoesStale | stax-linux-capture/src/jit.rs:134-147 | an instance as a run: behind an orderly one, a same-start replacement that ends earlier leaves a clean region's table stale, and an address no symbol covers is still given the old name |
| PerfMapNames.PrintedLinesAreFound | stax-linux-capture/src/session.rs:889-920 | printed entries that do not overlap, read by ticks from whatever pieces of the file and noted in any order with mappings, adoptions, publications and other images: an address of a clean region is answered with the printed entry that covers it, or with the bare region if none does |
| PerfMapNames.PollFindsPrintedLines | stax-linux-capture/src/session.rs:889-899 | after one poll of the whole file every region is clean, every entry with a range meets a region, and every address of a region is answered with the printed entry that covers it |
| PerfMapNames.ApartIsOrderly | stax-linux-capture/src/jit.rs:134-147 | entries that do not overlap arrive in an orderly way whatever happens in between, and the symbols are exactly the entries |
| PerfMap.FromRadix16Exact | stax-linux-capture/src/jit.rs:273-279 | a text is read as a number exactly if it fits 64 bits and the text is, in either case, an optional plus sign, zeros, and the number as printed |
| PerfMap.ParseLineExact | stax-linux-capture/src/jit.rs:281-292 | a line is an entry exactly if it is white space, a hexadecimal word, white space, a hexadecimal word, white space, and a rest whose name without the white space around it is not empty |
| PerfMap.HexRoundTrip | stax-linux-capture/src/jit.rs:273-279 | every u64 printed in hexadecimal, bare or with 0x or 0X, is read back |
| PerfMap.LineRoundTrip | stax-linux-capture/src/jit.rs:281-292 | a printed line with a trimmed, non-empty name, spaces included, is read back as the same entry |
| PerfMapTailer.ReturnsDoNotMatter | stax-linux-capture/src/jit.rs:268-292 | whether lines end in a newline or a carriage return and a newline, the entries are the same |
| PerfMapTailer.Tailer.Tick | stax-linux-capture/src/jit.rs:238-270 | one call reads exactly the complete lines past the offset, restarts a shorter file, and leaves no newline unread |
| PerfMapTailer.CompletePart | stax-linux-capture/src/jit.rs:263-266 | the backward search finds the end of the last complete line |
| PerfMapTailer.ParseTextConcat | stax-linux-capture/src/jit.rs:268-269 | text cut at a line end can be parsed in two parts |
| PerfMapTailer.TailIgnoresChunking | stax-linux-capture/src/jit.rs:236-270 | for a file that only grows, whatever the moments it is read at, all entries together are those of its complete lines read at once, and the offset is the end of the last one |
| PerfMapTailer.StartsOverExactly | stax-linux-capture/src/jit.rs:251-254 | for every offset and every content, a file is read as if from its start exactly if it is shorter than what was read, or its entries up to the end of the line at the offset are those the rest of that line spells by itself; between two lines: if there are no entries before the offset |
| PerfMapTailer.PrintedFileReads | stax-linux-capture/src/jit.rs:268-292 | a file of printed entries is read back entry by entry |
| PerfMapTailer.TailReadsWhatWasWritten | stax-linux-capture/src/jit.rs:236-292 | whatever pieces a writer's file is seen in, exactly the written entries have been read in the end |
| PerfMapTailer.RewriteGoesUnseen | stax-linux-capture/src/jit.rs:251-254 | an instance between two lines: the head of a rewritten, longer file is never read |
| PerfMapTailer.RewriteMakesUpEntry | stax-linux-capture/src/jit.rs:251-254 | an instance inside a line: from a rewritten file without any entry the tick makes one up |
| PerfRecords.ParseEncoded | stax-linux-capture/src/session.rs:987-1001 | dispatching the bytes of any records the kernel may write gives back exactly those records, headers and bodies |
| PerfRecords.FirstOfBytes | stax-linux-capture/src/session.rs:987-1001 | from any bytes the first record handed on has as type the first four bytes and as flags the next two, least significant byte first, and as many bytes as the last two of the eight say; none is handed on if they say fewer than eight or more than there are |
| PerfRecords.Dispatch | stax-linux-capture/src/session.rs:990-1000 | the loop over the scratch buffer hands on every complete record in order and stops at a bad size or a cut record |
| PerfRing.StoredWindow | stax-linux-capture/src/sys.rs:521-567 | a write into free space puts its bytes at the head, wrapping, and disturbs nothing unread |
| PerfRing.CopyIsWindow | stax-linux-capture/src/sys.rs:546-558 | the two-piece copy of a record that crosses the ring's end is the record's bytes in order |
| PerfRing.SizeOfRecordAt | stax-linux-capture/src/sys.rs:534-545 | with 8-byte aligned records the header never wraps and the size read is the record's |
| PerfRing.HoldsNext | stax-linux-capture/src/sys.rs:533-560 | one round of the copy loop copies exactly the oldest record and leaves the others in place |
| PerfRing.PerfRing.KernelWrite | stax-linux-capture/src/sys.rs:521-567 | a kernel write appends one record to the queue the ring holds |
| PerfRing.PerfRing.CopyRecord | stax-linux-capture/src/sys.rs:546-558 | the copied bytes are those of the record |
| PerfRing.PerfRing.Drain | stax-linux-capture/src/sys.rs:517-567 | a drain appends the bytes of all queued records, in order, once, and empties the queue |
| PerfRing.DrainDispatch | stax-linux-capture/src/session.rs:984-1001 | drain and dispatch hand on exactly the queued records, in order |
| RingMachine.NextInv | stax-linux-capture/src/sys.rs:521-567 | every small step, with the kernel writing between any two copies, keeps ring, copy buffer and history consistent |
| RingMachine.DispatchedIsPrefix | stax-linux-capture/src/sys.rs:521-567 | over every interleaving, what was dispatched is a prefix of what was written |
| RingMachine.FinishDispatches | stax-linux-capture/src/sys.rs:561-566 | a drain ends only when everything written before it began has been copied |
| RingMachine.DrainDispatchesWhatItSaw | stax-linux-capture/src/sys.rs:521-567 | a finished drain, with those before it, dispatched exactly what was written when it began |
| CaptureSession.Capture.ObserveThread | stax-linux-capture/src/session.rs:187-193 | a thread is recorded exactly if it is a valid thread of the target process |
| CaptureSession.Capture.OnSample | stax-linux-capture/src/session.rs:383-441 | a sample is emitted, the previous one's slice is closed and capped, times only advance, empty stacks are not remembered |
| CaptureSession.Capture.OnSwitchOut | stax-linux-capture/src/session.rs:479-512 | a voluntary switch-out parks the thread with its wait site and best stack; a preemption only drops the stack |
| CaptureSession.Capture.OnSwitchIn | stax-linux-capture/src/session.rs:513-541 | a switch-in closes a positive span and credits a recent wakeup, which is used up |
| CaptureSession.Capture.OnWaking | stax-linux-capture/src/session.rs:616-651 | only wakeups of target threads count; the newest replaces an older one |
| CaptureSession.Capture.Process | stax-linux-capture/src/session.rs:207-232 | one record changes all fields and the sink as the session's step function says |
| CaptureSession.Capture.FlushOffCpu | stax-linux-capture/src/session.rs:654-676 | at teardown every parked thread is closed once, in any order, and none stays parked |
| SessionRecords.RunOk | stax-linux-capture/src/session.rs:186-652 | over every run the off-CPU intervals are exactly the returns the records show: each is a thread's newest voluntary switch-out up to its next switch-in, at those records' times, and each such pair with time between them has one; it names the waker of the newest wakeup record not used before exactly if that one is recent enough; no record stands for two; every event is about a thread some record of the target shows; counters equal the events |
| SessionRecords.RunAndFlushOk | stax-linux-capture/src/session.rs:654-676 | the same after teardown, where each visited thread that never came back is closed at the greatest time of the records exactly if it had gone to sleep before it |
| SessionRecords.NewestTime | stax-linux-capture/src/session.rs:383-651 | over every run the newest time is 0 or the time of a sample or switch record of an observed thread, or of a wakeup of a thread known by then, and no such record is later |
| SessionRecords.LostIsCounted | stax-linux-capture/src/session.rs:207-232 | the lost records reported are the capped sum over the records |
| SessionEvents.StacksOfRun | stax-linux-capture/src/session.rs:434-512 | over every run and teardown each off-CPU interval has the stack of its switch-out: the wait site, then the stack taken for it if no other switch-out came after that, else the last stack sampled, empty ones not counting |
| SessionEvents.SlicesOfRun | stax-linux-capture/src/session.rs:399-432 | in whatever order a thread's samples come, exactly those later than all before them close a slice, from the latest of them, at most the cap long |
| SessionEvents.WakeupsOfRun | stax-linux-capture/src/session.rs:616-651 | the wakeups told of a thread are those of the records, in order, from the moment it is known |
| SessionRecords.TargetsAreShown | stax-linux-capture/src/session.rs:187-193 | the established targets are exactly the threads of the target process that some record shows |
| SessionTimeline.OnCpuIntervals | stax-linux-capture/src/session.rs:411-432 | for any arrival order a thread's on-CPU intervals ascend without overlap, none exceeds the cap, and together they are at most newest minus first sample time |
| SessionTimeline.OffCpuIntervals | stax-linux-capture/src/session.rs:451-542 | with its switch records in time order a thread's off-CPU intervals never overlap |
| SessionTimeline.OffCpuIntervalsWithTeardown | stax-linux-capture/src/session.rs:654-676 | the same including those closed at teardown |
| SessionThreads.StepProjected | stax-linux-capture/src/session.rs:207-232 | a record moves what the session knows and has emitted about a thread if it is the thread's own, as a machine of that thread alone, and else not at all |
| SessionThreads.RunIsOwnRun | stax-linux-capture/src/session.rs:186-652 | over every run, a thread's events, parked stack, pending wakeup and last sample are those of its own machine run on its own records |
| SessionThreads.ThreadsDoNotInterfere | stax-linux-capture/src/session.rs:186-652 | two runs with the same records of a thread emit the same events about it, whatever the others do |
| EndToEnd.SamplesOfRun | stax-linux-capture/src/session.rs:383-441 | what the session emits as a thread's samples are its sample records, in order |
| EndToEnd.LogIsComplete | stax-live/src/aggregator.rs:494-529 | with nothing evicted the aggregator's log of a thread is its samples and intervals in order |
| EndToEnd.SessionSpans | stax-linux-capture/src/session.rs:411-432 | for sample records at increasing times, the on-CPU intervals emitted are those of neighbouring samples, capped |
| EndToEnd.SamplesAreCreditedTheirShare | stax-live/src/aggregator.rs:761-838 | the whole query over all threads: for every thread asked for, sample record i is credited exactly min(t[i+1]-t[i], cap), the last one nothing, and no other thread anything |
| EndToEnd.Replay | stax-live/src/aggregator.rs:494-529 | the aggregator's record calls, one per event, build exactly the logs these results are about |
| EndToEnd.QueryOfRun | stax-live/src/aggregator.rs:741-911 | records, session, log and query put together issue exactly those credits |
| BlockedTime.NodeFromSession | stax-live/src/aggregator.rs:870-898 | records, teardown, log and query put together: at every node the blocked time of each reason is the capped sum of the lengths of the absences of the threads asked for that are kept, whose stack passes through the node and whose leaf frame is classified as the reason, and as many intervals are counted |
| BlockedTime.BlockedOfRun | stax-live/src/aggregator.rs:741-911 | the whole query after teardown: each reason's total is the capped sum over those absences, every thread with events being visited once |
| Splice.Position | stax-linux-capture/src/dwarf.rs:178-178 | the position found is the first one of the address, and none is found exactly if it is not there |
| Splice.SpliceIsSubsequence | stax-linux-capture/src/dwarf.rs:168-189 | if the walk is the head of the true stack and the chain leaves out frames of it, the result only leaves out frames, repeated addresses included |
| Splice.CompleteWalkIsKept | stax-linux-capture/src/dwarf.rs:168-175 | a walk that is the whole stack is the result, whatever frames of it the chain has |
| Splice.NothingShared | stax-linux-capture/src/dwarf.rs:176-189 | if a cut-short walk and the chain share no return address, the longer one is the result, the walk on a tie |
| Splice.SpliceCompletesWalk | stax-linux-capture/src/dwarf.rs:168-189 | for a walk cut after frame k and the chain S[0], S[k..], the result is the whole stack if and only if no missed address returns further down |
| Splice.RecursionLosesFrame | stax-linux-capture/src/dwarf.rs:168-189 | a recursive caller that the chain hides is lost |
| Splice.SpliceOfDistinctFrames | stax-linux-capture/src/dwarf.rs:168-189 | without recursion a frame is in the result exactly if it is above the joint or in the chain |
| EvalGraph.ReadLineShape | stax-eval-graph/src/lib.rs:187-287 | whatever a line is, it counts diagnostics and then applies at most one record; no diagnostic is taken back by the checks |
| GraphLimits.RefusedExactly | stax-eval-graph/src/lib.rs:185-302 | a file is refused exactly without a valid header, with too many lines, or if its whole graph is past a limit: a check after every line refuses nothing that a check at the end would not; any other file is imported as its header says |
| GraphCommute.DefinitionAndMentionCommute | stax-eval-graph/src/lib.rs:321-557 | a definition and a record that mentions nodes commute: same nodes, edges, counts, diagnostics |
| GraphCommute.DefinitionsMayComeFirst | stax-eval-graph/src/lib.rs:321-557 | any stream of definitions and mentions gives the graph of its definitions followed by its mentions |
| GraphAccounts.DetailImportBalanced | stax-eval-graph/src/lib.rs:440-528 | after any detail stream the invocation total is the number of defined invocations and the sum of body starts, each site's starts are what its invocations query counts, forces equal the force edges' counts, edges end in nodes |
| GraphRecords.RecordStep | stax-eval-graph/src/lib.rs:321-650 | one more record of a detail capture: graph and records stay in step, and it draws a diagnostic exactly if it does not fit the records before it |
| GraphRecords.ImportShowsRecords | stax-eval-graph/src/lib.rs:353-650 | after any detail stream the edges are exactly those the readable argument, force and created records show, each from the invocation to the thunk with its relation, index and state, counting them and stamped by the first and the last; the nodes are exactly those named, each with its first definition, first preview and cache outcomes; modules, sites, starts, executions and the cache totals are those of the records |
| GraphDetailVerdict.DetailCleanExactly | stax-eval-graph/src/lib.rs:237-287 | reading a detail capture draws no diagnostic exactly if every line is in sequence, its header counts itself, its footer says complete with the right count, and every record fits those before it |
| GraphDetailVerdict.DetailDiagnostics | stax-eval-graph/src/lib.rs:187-287 | reading draws exactly as many diagnostics as the lines deserve one by one: for each, its place and time in order, its envelope, what a footer gets wrong, and whether its record fits |
| GraphDetailVerdict.DetailCompleteExactly | stax-eval-graph/src/lib.rs:205-309 | a file is imported as a complete detail capture if and only if it is within the limits, begins with the header of one, its lines are all fine, it ends in a footer, and every node, site and module it mentions is there; its counts are exact exactly if it is complete |
| GraphTotals.AddedRowIsTotal | stax-eval-graph/src/lib.rs:55-74 | adding rows one at a time with saturation is saturating the true sum once; the flag rises exactly when a row had it or a true sum is too large |
| GraphTotals.TotalIgnoresOrder | stax-eval-graph/src/lib.rs:55-74 | the same rows in any order have one total |
| GraphTotals.TotalsAreSaturatedSums | stax-eval-graph/src/lib.rs:558-600 | after any stream, complete or not, each site's total and the grand total are the saturated sums of the accepted rows |
| GraphTotals.SummaryIsTotal | stax-eval-graph/src/lib.rs:678-684 | the summary of a counts import gives the capped sums of the accepted rows, column by column |
| GraphTotals.ImportTotalsIgnoreOrder | stax-eval-graph/src/lib.rs:558-600 | captures that accepted the same rows, in any order and among any other records, report the same totals |
| GraphTotals.ExactTotalExactSites | stax-eval-graph/src/lib.rs:305-307 | while the grand total is exact, so is every site's |
| GraphRuns.CompleteRunsAreWhole | stax-eval-graph/src/lib.rs:601-677 | in a complete capture the records of any execution are one start, then exactly one row for every listed site of its module, then one matching end; its module is listed |
| GraphRuns.CompleteTotalsAreAll | stax-eval-graph/src/lib.rs:301-307 | a complete capture's totals are the saturated sums of every counts row in the file |
| GraphRuns.CompleteLogIsAll | stax-eval-graph/src/lib.rs:601-646 | a complete capture lists every execution record of the file, in order, as it was |
| GraphRuns.ExactCountsAreTrueSums | stax-eval-graph/src/lib.rs:305-307 | when the counts are called exact, every per-site and grand total is the true sum of the file's rows and no row was flagged |
| GraphVerdict.EventExact | stax-eval-graph/src/lib.rs:353-650 | after clean lines a record draws no diagnostic exactly if it is fine by those lines: names new, rows for listed sites of an open execution and once, starts new, ends matching an open start |
| GraphVerdict.CleanExactly | stax-eval-graph/src/lib.rs:237-287 | reading draws no diagnostic exactly if every line is in sequence, not older, not after a footer, and fine after those before it; a header on the first line counts itself |
| GraphVerdict.CompleteExactly | stax-eval-graph/src/lib.rs:205-309 | a file is imported as a complete counts capture if and only if it is within the limits, begins with the header of one, its lines are all fine, it ends in a footer, every execution is whole and every site's module is listed |
| GraphVerdict.CountsExactExactly | stax-eval-graph/src/lib.rs:305-307 | its counts are called exact if and only if it is complete, no row was flagged and no true sum exceeds the maximum |
| GraphQueries.NeighborhoodIsExact | stax-eval-graph/src/lib.rs:870-907 | over any imported detail capture a query is answered exactly if the node exists and the page has 1 to 200 rows; the total counts the edges of the wanted direction, a loop once; the edges shown are the wanted ones from the offset on, in the map's order, up to the limit; the nodes are exactly the asked one and both ends of each edge shown, and all exist |
| GraphQueries.PagesCoverRows | stax-eval-graph/src/lib.rs:888-893 | consecutive pages put together are all rows, once, in order |
| GraphQueries.PagesListEveryEdge | stax-eval-graph/src/lib.rs:870-907 | the answers to offset 0, limit, 2 * limit and so on, put together, list every wanted edge exactly once, in the map's order |
| GraphImporter.Importer.Placeholder | stax-eval-graph/src/lib.rs:321-328 | a mentioned node exists afterwards; an existing one is untouched |
| GraphImporter.Importer.Define | stax-eval-graph/src/lib.rs:329-341 | a definition takes over the placeholder's preview and attributes; a second one is a diagnostic |
| GraphImporter.Importer.OnRelation | stax-eval-graph/src/lib.rs:464-528 | an argument, force or creation mentions both nodes, keeps the first preview and counts its edge |
| GraphImporter.Importer.OnCache | stax-eval-graph/src/lib.rs:529-557 | a cache result counts in the summary and on the node; an unknown one changes nothing |
| GraphImporter.Importer.OnCounts | stax-eval-graph/src/lib.rs:558-600 | a row is checked as a whole before anything changes |
| GraphImporter.Importer.OnExecution | stax-eval-graph/src/lib.rs:601-646 | a start must be new, an end must match an open start; a record that is taken is appended to the log |
| GraphImporter.Importer.OnRecord | stax-eval-graph/src/lib.rs:353-650 | a record either has its whole effect or fails and leaves the graph as it was |
| GraphImporter.Importer.ReadLine | stax-eval-graph/src/lib.rs:187-287 | one line moves graph, counters and cursor as specified |
| GraphImporter.Importer.Connect | stax-eval-graph/src/lib.rs:729-740 | every node's list holds exactly its edges, in the map's order, a loop once |
| GraphImporter.Importer.CheckExecutions | stax-eval-graph/src/lib.rs:653-677 | the loop over the executions, with the sites counted per module, counts their faults |
| GraphImporter.Importer.Finish | stax-eval-graph/src/lib.rs:651-717 | every open, unlisted or incomplete execution and every missing module, site and node is one diagnostic |
| GraphImporter.Importer.ReadAll | stax-eval-graph/src/lib.rs:168-299 | the reading loop stops exactly at a bad header or a passed limit, and else has read all lines |
| GraphImporter.Importer.Read | stax-eval-graph/src/lib.rs:142-309 | the whole import is refused, or gives the specified graph and the two verdicts, as specified |
| Stalls.Windows | cli/src/main.rs:2823-2852 | the windows are exactly the maximal runs of bins at or below the ceiling, ascending, each with its bins' saturating sums |
| Stalls.DetectStalls | cli/src/main.rs:2801-2869 | no bins or a zero median give no stalls; otherwise the report of exactly those windows |
| Stalls.ReportExact | cli/src/main.rs:2855-2866 | the stalls are exactly the windows of at least the minimum duration, once each, the longest first, a duration being a product that wraps at 64 bits |
| Stalls.RankedByLength | cli/src/main.rs:2855-2866 | while the timeline fits 64 bits the stalls are exactly the windows of enough bins, and one with more bins comes first |
| Stalls.MedianSplits | cli/src/main.rs:2811-2813 | a ceiling below the median flags at most half of the bins; at or above it, more than half |

## Left out

- Kernel symbols, the dyld shared cache, demangling, code images, disassembly bytes and reading target memory: library or foreign calls; a lookup ends at the symbol's table entry.
- perf_event_open, mmap, ioctl, poll, memory fences, /proc and tracefs: the ring's head, tail and bytes are modelled, with the kernel as a producer that writes whole, 8-byte aligned records into free space.
- Ring positions are unbounded numbers: their wrap-around at 2^64 is not modelled.
- The aggregation's filter is two pure functions of an event; a filter that changes its own state between calls is not modelled. Classifying a blocked leaf, with the symbol lookup before it, is one function.
- The counters of a tree node are one record field of the node class, and each hash map is visited in an order the model leaves open.
- top_wakers, wakeup logs with their timestamps, nearest_pet_stack, markers, thread names and the saved form of the aggregator: bookkeeping beside the modelled state.
- SessionRecords.TargetsAreShown: the threads found in /proc when the session attaches (session.rs:1228-1231) are observed before any record; they stand as leading FORK records.
- Session: thread names, ELF image events and the byte layout of record bodies. The wait site read from /proc is a parameter of a switch-out.
- CaptureSession.Capture.OnSample: PMU deltas and the kernel backtrace of a sample are not part of the event.
- CaptureSession.Capture.OnWaking: the waker's kernel stack is left out, and so is the case that tracefs gave no wakeup fields, where such a record is ignored.
- CaptureSession.Capture.Process: MMAP and MMAP2 records have no kind of their own, and a COMM record observes its thread as a FORK record does.
- Registry: `resolve`'s bytes and source lines are not part of this model.
- Registry.BinaryRegistry.LookupSymbol: the fallbacks for addresses no image covers, kernel collections and the shared cache, are not modelled.
- JitTracker.PublishJit: the architecture an image names is fixed to x86_64, that of one of the two builds.
- JitPublish.LookupIsExact: asks for an orderly run and that others loaded no image beginning between the region's start and the address; StepInvExactly and FindsRegion give the exact conditions, and LookupFollowsSymbols says what an address resolves to when symbols overlap.
- PerfMapNames.PrintedLinesAreFound: asks that no other source of symbols feeds the tracker, as the jitdump reader is outside the model.
- EndToEnd.SamplesAreCreditedTheirShare: asks that the sample records of each thread asked for come at increasing times, as an out-of-order sample closes no interval, and that nothing was evicted from the logs of the threads asked for, as the cap on a log otherwise drops the oldest samples.
- BlockedTime.NodeFromSession: asks that no interval was evicted, as the cap on a log otherwise drops the oldest ones.
- JIT: the jitdump reader and the polling clock are outside the model; ordered-map ranges are walked by finding the largest key below a bound.
- PerfMapTailer: the file is text; lossy UTF-8 decoding of the bytes and I/O errors are not modelled.
- ELF: parsing the file, and `svma_for_file_off`, which is a plain linear translation.
- Graph importer: JSON parsing, labels, scope and selection texts, diagnostic texts, site details, the footer's reason text, and the summary's separate number of missing endpoints, which count among the diagnostics. A record whose fields cannot be read is one kind of event, and a header says whether it is valid.
- GraphImporter.Importer.Read: the byte limits of file and record are not modelled, as lines come parsed; the limits on records, nodes, sites, modules, edges and executions are.
- Graph queries: search and the callables listing filter and sort by text; inspect is a map lookup.
- Stalls: the ceiling is a function of the median, as its floating-point rounding is not the point.
- All of the frontend, the command line, setup, launching and live sinks: user interface, I/O or plumbing.
