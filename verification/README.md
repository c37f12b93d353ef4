# Verified model of the ingest-and-search pipeline

This project models the parts of the repository that carry state, loops or
arithmetic, and proves what they promise. Loops of the source are methods with
invariants, proved equal to a function or to a stated property; objects and shared
state are classes; protocols with crashes or several participants are labelled
steps over a state (`Runs`), with an invariant that every step keeps and theorems
about every reachable state.

`dafny verify dfyconfig.toml` checks the whole project.

## What is modelled

- **Text splitting** (`Text`, `Packing`, `Boundaries`, `Buffering`, `Splitting`,
  `SplitGuarantees`, `Prose`). Strings are sequences of characters and lengths count
  characters. The paragraph and sentence regexes are written out, leftmost and
  longest; whitespace is the Unicode White_Space set. All packing loops are one
  greedy packing with different weights, proved optimal once.
- **Word windows** (`WordWindows`), **semantic spans** (`SemanticSpans`) and
  **grouping** (`Grouping`) of the chunkers.
- **Chunk composition** (`ChunkerConfigs`, `Chunking`, `ChunkGuarantees`,
  `ChunkLoops`): the tree of chunker configurations, every chunker over it, and the
  recursive oversize fallback. What the chunks hold is stated apart from how they are
  made (`FallbackContents`, `HierarchyContents`, `ChunkContents`, `WrapperContents`).
  Regexes for headings, sentence splitting, embeddings, summarizers and consolidators
  are parameters (`Services`), so every theorem holds whatever they return.
- **Incremental ingest** (`IncrementalRun`, `IncrementalGuarantees`,
  `IncrementalProgress`, `IncrementalCell`, `IncrementalRefinement`): files change at
  any moment while a run reads, writes, prunes and saves its cursor, and may stop
  anywhere; yet it never gets stuck and comes to its end. The sink is keyed by
  document id, and how ids come from paths is a parameter.
- **The watermark wrapper** (`Watermark`, `WatermarkGuarantees`, `WatermarkProgress`,
  `WatermarkWrapper`, `WatermarkRefinement`): many wrappers, source writes, failing
  ingests and crashes around one cursor row.
- **The read-connection pool** (`ReadPool`, `ReadPoolProtocol`, `ReadPoolProgress`,
  `ReadPoolRefinement`): the pool as a class, and every interleaving of callers,
  breaking connections, pool closes and forks.
- **Rank fusion** (`Fusion`, `FusionGuarantees`) over exact reals.
- **The impact walk** (`ImpactWalk`, `ImpactGuarantees`): the recursive query over any
  call graph, related to walks and shortest distances.
- **The orchestrator** (`Orchestration`, `OrchestrationGuarantees`): the polling loop
  with its pool, checkpoints and timeout. What a poll returns and what the clock says
  are parameters; the clock passes the timeout at some poll.

Incremental ingest, the wrapper and the pool come twice: as a class whose methods run
from start to end, and as a protocol. The `Refinement` modules prove that each such run
is a run of the protocol, so from a reachable state it leads to a reachable state.

## Where the code does less than it says

Each of these has its exact condition, proved as an equivalence, and a lemma with an
input or a run on which the promise fails.

- `split_to_max_chars` can return a piece one character over its limit
  (`SplitGuarantees.CappedOverflowsExactly`, `FullParagraphOverflowsHere`).
- Its comment says the config loader enforces a positive limit; neither validator
  does, and a limit of 0 panics exactly on the documents that are not blank
  (`ChunkGuarantees.ZeroLimitPanicsExactly`; `HierarchyContents.ZeroLimitHierarchy`).
- `split_prose` loses the pieces shorter than its minimum in a long text with headings
  (`Prose.ProseKeepsContentExactly`, and on the text's own sections
  `Prose.ShortSectionsKeepContentExactly`; `ShortSectionIsLost`).
- The hard split of a semantic span lets a sentence over the cap through unless it is
  the last (`ChunkLoops.PackedOverflowsExactly`, `LongSentenceComesOutWhole`).
- Incremental ingest skips stale files under the default target mode, under the default
  `id_from: stem` or any ids two paths share, when a file returns to content it had
  before, under versions without chunks, and under kept orphans
  (`IncrementalGuarantees.SafeExactly`, with one lemma for each failure). A document
  limit of 0 or 1 never saves a cursor after ingesting something.
- The watermark wrapper misses rows stamped at a maximum already read, and rows
  overwritten by an ingest that outlives its lock
  (`WatermarkGuarantees.NothingMissedExactly`, `LateWriteIsMissed`, `LostLockIsMissed`).
- Rows matched by both search legs rank above rows matched by one only up to
  rrf_k + 1 hits a leg (`FusionGuarantees.BothBeatOneExactly`, `TieIsPossible`), and
  over-fetching is enough only past a bound that the defaults reach at k = 59
  (`FusionGuarantees.MultiplierSuffices`, `ShortRankingsDefeat`).
- Callers and callees are converse in their hops, but in their confidences only at
  depth 1 (`ImpactGuarantees.ConverseConfidencesExactly`, `ConfidenceIsNotConverse`).
- With `concurrency` of 0 or less the orchestrator starts nothing and waits for its
  timeout (`OrchestrationGuarantees.StartsExactlyWithSlots`, `NoSlotsStartNothing`).

Two more points where the code and its comments part. `incremental_cursor.py` says the
cursor is written only on a fully successful run; it is saved before `finalize`, so the
theorems speak of document writes, not of the run's result. And a read whose first
query fails for another reason than its connection neither releases nor closes that
connection; `ReadPoolProtocol.AbandonedAreFirstOtherFailures` counts these exactly.

## Model

| member | source | states |
|---|---|---|
| Text.SpacesAre | rust/chunkshop/src/chunker.rs:312-319 | whitespace is the 25 characters of the Unicode property, one by one |
| Packing.GreedyIsPacking | rust/chunkshop/src/chunker.rs:490-524 | the greedy groups follow each other, cover every item once, and each is within budget or a single item |
| Packing.GreedyIsFewest | rust/chunkshop/src/chunker.rs:494-523 | greedy packing is optimal: no contiguous packing into allowed groups has fewer groups |
| Packing.GreedyReachesFurthest | rust/chunkshop/src/chunker.rs:490-523 | the first greedy group reaches at least as far as any allowed group that starts at or before it |
| Packing.OverBudgetIsAlone | rust/chunkshop/src/chunker.rs:1397-1414 | an item over the budget by itself is a group of its own, wherever it stands |
| Packing.OverBudgetCloses | rust/chunkshop/src/chunker.rs:498-506 | packing starts afresh after an item over the budget |
| Boundaries.NextBreakIsLeftmost | rust/chunkshop/src/chunker.rs:312-314 | the paragraph break found is the leftmost match of `\n\s*\n`, it ends at the last newline of its whitespace, and none before it is missed |
| Boundaries.ParagraphsHaveNoBreak | rust/chunkshop/src/chunker.rs:324-328 | every paragraph is trimmed, nonempty and contains no paragraph break |
| Boundaries.ParagraphIsItsOnlyParagraph | rust/chunkshop/src/chunker.rs:324-338 | splitting a paragraph into paragraphs again gives it back whole |
| Boundaries.ParagraphsKeepContent | rust/chunkshop/src/chunker.rs:409-413 | splitting into paragraphs loses whitespace only: the other characters stay, in order |
| Boundaries.ParagraphsLieBetweenGaps | rust/chunkshop/src/chunker.rs:324-328 | the paragraphs are verbatim slices of the text, with whitespace that holds two newlines between them and only whitespace before the first and after the last |
| Boundaries.JoinedParagraphs | rust/chunkshop/src/chunker.rs:347 | splitting paragraphs joined by blank lines, also with a newline after them, gives back those paragraphs |
| Boundaries.NextSentenceEndIsLeftmost | rust/chunkshop/src/chunker.rs:316-319 | the sentence boundary found is the leftmost one, with all its whitespace, and none is missed |
| Boundaries.TokensConcat | rust/chunkshop/src/chunker.rs:447-460 | the sentence tokens concatenate to the text |
| Boundaries.TokensExactly | rust/chunkshop/src/chunker.rs:447-479 | the tokens are the one way of cutting the text into nonempty parts that concatenate to it, of which each but the last ends with a stop and all the whitespace after it, none starting with whitespace but the first, and none holding such a stop with more text behind it |
| Boundaries.PairUp | rust/chunkshop/src/chunker.rs:462-478 | the pairing loop returns each body joined with the separator after it, empty ones dropped |
| Boundaries.PartsPairToTokens | rust/chunkshop/src/chunker.rs:449-479 | pairing bodies with separators gives exactly the sentence tokens |
| Boundaries.SentenceTokens | rust/chunkshop/src/chunker.rs:449-479 | the two loops cut the text after every terminator with its whitespace and nowhere else; none of the tokens is empty, and they concatenate to the input |
| Buffering.ComesFromGroup | rust/chunkshop/src/chunker.rs:417-443 | every piece the packing loop emits comes from a group whose text is within the cap, or from a single item |
| Buffering.PackedContent | rust/chunkshop/src/chunker.rs:332-352 | when every group emits its own content, the packed text has the content of the items, in order |
| Buffering.PackedIsFewest | rust/chunkshop/src/chunker.rs:332-352 | with one piece per group, no way of joining consecutive items within the cap has fewer pieces |
| Splitting.CharSlicesKeepText | rust/chunkshop/src/chunker.rs:481-488 | the slices concatenate to the text, each but the last has exactly max characters, the last 1 to max |
| Splitting.SplitSentences | rust/chunkshop/src/chunker.rs:490-524 | the loop with its buffer computes the greedy packing of the sentence tokens, a longer token sliced |
| Splitting.SplitToMaxChars | rust/chunkshop/src/chunker.rs:404-445 | the loop computes the packing of the paragraphs within max - 1, flushed pieces marked with a newline, long paragraphs cut at sentences |
| Splitting.SplitPlain | rust/chunkshop/src/chunker.rs:323-354 | the loop computes the packing of the paragraphs within max |
| SplitGuarantees.SentencePiecesKeepText | rust/chunkshop/src/chunker.rs:490-524 | sentence pieces concatenate to the input exactly |
| SplitGuarantees.SentencePiecesFit | rust/chunkshop/src/chunker.rs:490-524 | every sentence piece has 1 to max characters |
| SplitGuarantees.SentencePiecesAreFewest | rust/chunkshop/src/chunker.rs:490-524 | when every token fits, no packing of consecutive tokens within max has fewer pieces |
| SplitGuarantees.SentencePiecesKeepTokens | rust/chunkshop/src/chunker.rs:490-524 | a sentence token within max is never cut: every piece is consecutive tokens joined or a slice of a longer token |
| SplitGuarantees.CappedPieceSize | rust/chunkshop/src/chunker.rs:417-443 | a piece has at most max + 1 characters, and more than max only when a paragraph other than the last is exactly max long |
| SplitGuarantees.FullParagraphOverflows | rust/chunkshop/src/chunker.rs:426-436 | a paragraph of exactly max characters that is not the last comes out with a newline, one too long |
| SplitGuarantees.CappedOverflowsExactly | rust/chunkshop/src/chunker.rs:404-445 | some piece exceeds max if and only if the text does and a paragraph other than the last is exactly max characters long |
| SplitGuarantees.FullParagraphOverflowsHere | rust/chunkshop/src/chunker.rs:426-436 | a concrete text whose first piece is two characters at a limit of one |
| SplitGuarantees.CappedPiecesKeepContent | rust/chunkshop/src/chunker.rs:404-445 | the characters other than whitespace are kept, in order |
| SplitGuarantees.CappedPiecesAreFewest | rust/chunkshop/src/chunker.rs:426-439 | when every paragraph fits, no joining of consecutive paragraphs within max - 1 has fewer pieces |
| SplitGuarantees.CappedPiecesKeepParagraphs | rust/chunkshop/src/chunker.rs:404-445 | when every paragraph fits, splitting the pieces into paragraphs gives the paragraphs of the text, whole and in order |
| SplitGuarantees.LongParagraphIsCutAtSentences | rust/chunkshop/src/chunker.rs:333-338 | a paragraph over max goes to the sentence splitter whole, because it holds no paragraph break |
| SplitGuarantees.PlainPiecesFit | rust/chunkshop/src/chunker.rs:323-354 | no piece of `split_plain` exceeds max |
| SplitGuarantees.PlainPiecesKeepContent | rust/chunkshop/src/chunker.rs:323-354 | the characters other than whitespace are kept, in order |
| SplitGuarantees.PlainPiecesKeepParagraphs | rust/chunkshop/src/chunker.rs:323-354 | when every paragraph fits, splitting the pieces into paragraphs gives the paragraphs of the text, whole and in order |
| SplitGuarantees.PlainPiecesAreFewest | rust/chunkshop/src/chunker.rs:323-354 | when every paragraph fits, no way of joining consecutive paragraphs within max has fewer pieces |
| Prose.SplitProse | rust/chunkshop/src/chunker.rs:357-392 | the loops over the headings compute the prefix pieces, then the section pieces, short ones dropped when the text is over max |
| Prose.AllPiecesKeepContent | rust/chunkshop/src/chunker.rs:364-384 | before short pieces are dropped, the characters other than whitespace are all kept, in order |
| Prose.SectionStartsAtHeading | rust/chunkshop/src/chunker.rs:364-375 | a section is the verbatim text from its heading on, up to the whitespace before the next heading or the end |
| Prose.DroppingShortPieces | rust/chunkshop/src/chunker.rs:388-391 | dropping pieces shorter than min keeps the content if and only if every such piece is blank |
| Prose.ProseKeepsContentExactly | rust/chunkshop/src/chunker.rs:357-392 | `split_prose` keeps the content if and only if there are no headings, or the text fits, or every piece shorter than min is blank |
| Prose.ShortSectionsKeepContentExactly | rust/chunkshop/src/chunker.rs:364-391 | when every section between headings fits, a longer text keeps its content if and only if each nonempty section has at least min characters |
| Prose.ShortSectionIsLost | rust/chunkshop/src/chunker.rs:388-391 | a concrete text with a short section that is lost |
| Prose.ProseDropsExactlyShortPieces | rust/chunkshop/src/chunker.rs:385-391 | with headings and a text over max, the pieces kept are exactly those of at least min characters |
| WordWindows.WordsAreTheWords | rust/chunkshop/src/chunker.rs:725-741 | the spans are exactly the maximal runs of non-space characters, in order |
| WordWindows.ScanWords | rust/chunkshop/src/chunker.rs:728-741 | the character scan with its open word computes those spans |
| WordWindows.WordWindowChunks | rust/chunkshop/src/chunker.rs:742-767 | the k-th chunk is the k-th window: the verbatim text from its first word to its last, with its first word and word count |
| WordWindows.WindowAt | rust/chunkshop/src/chunker.rs:747-767 | the k-th window starts at word k * step and has min(window, what is left) words |
| WordWindows.WindowCount | rust/chunkshop/src/chunker.rs:747-767 | the number of windows, for every window and step: ceil((n - window) / step) + 1 when step <= window < n |
| WordWindows.LastWindowReachesEnd | rust/chunkshop/src/chunker.rs:763-765 | with step <= window the last window ends at the last word |
| WordWindows.NeighboursOverlap | rust/chunkshop/src/chunker.rs:747-767 | neighbouring windows share exactly window - step words |
| WordWindows.EveryWordCoveredExactly | rust/chunkshop/src/chunker.rs:747-767 | every word is in some window if and only if step <= window or one window is enough |
| WordWindows.WordsOfSlice | rust/chunkshop/src/chunker.rs:725-750 | cutting the text where no word is split splits its list of words |
| WordWindows.WindowTextHasItsWords | rust/chunkshop/src/chunker.rs:749-750 | scanning a window's text again finds exactly the words of that window |
| SemanticSpans.SortedIsPermutation | rust/chunkshop/src/chunker.rs:1455-1456 | sorting keeps every value with its multiplicity |
| SemanticSpans.PercentileIsMonotone | rust/chunkshop/src/chunker.rs:1451-1469 | a higher percentile gives a threshold at least as high |
| SemanticSpans.PercentileIsReached | rust/chunkshop/src/chunker.rs:1451-1469 | some value reaches the percentile threshold |
| SemanticSpans.PercentileLiesBetween | rust/chunkshop/src/chunker.rs:1451-1469 | the percentile lies at the place (n - 1) * p / 100 of the sorted values, in proportion between the two neighbours |
| SemanticSpans.PercentileOfTwo | rust/chunkshop/src/chunker.rs:1463-1468 | of two values it is p hundredths of the way from the smaller to the larger |
| SemanticSpans.BreakpointsAreTheReachedPositions | rust/chunkshop/src/chunker.rs:1044-1049 | the breakpoints are exactly the positions whose distance reaches the threshold, ascending |
| SemanticSpans.SomeBreakpoint | rust/chunkshop/src/chunker.rs:1044-1049 | at least one breakpoint is left, for any distances and percentile |
| SemanticSpans.BreakpointsShrink | rust/chunkshop/src/chunker.rs:1044-1049 | raising the percentile only removes breakpoints |
| SemanticSpans.BuildSpans | rust/chunkshop/src/chunker.rs:1051-1064 | the two loops build the spans cut after each breakpoint |
| SemanticSpans.SpansPartition | rust/chunkshop/src/chunker.rs:1051-1064 | those spans partition the sentences |
| SemanticSpans.SpansEndAfterBreaks | rust/chunkshop/src/chunker.rs:1051-1064 | there is one span more than breakpoints, and each ends right after its breakpoint |
| SemanticSpans.MergeSmallSpans | rust/chunkshop/src/chunker.rs:1474-1501 | the in-place merging computes the forward pass, then the first-span fix, then the last-span fix |
| SemanticSpans.BackMergeNeverFires | rust/chunkshop/src/chunker.rs:1493-1499 | on a partition the final back-merge never fires |
| SemanticSpans.MergedPartitions | rust/chunkshop/src/chunker.rs:1474-1501 | a merged partition is a partition, and every span has at least min sentences unless it is the only one |
| SemanticSpans.MergedCuts | rust/chunkshop/src/chunker.rs:1474-1501 | every cut that is left was a cut before |
| SemanticSpans.MergedCutsExactly | rust/chunkshop/src/chunker.rs:1474-1502 | a cut stays if and only if the span after it is not short and there are min sentences, or another such span, before it |
| SemanticSpans.MergedIsIdempotent | rust/chunkshop/src/chunker.rs:1474-1501 | merging twice changes nothing more |
| SemanticSpans.CutSentences | rust/chunkshop/src/chunker.rs:1044-1066 | from distances to merged spans |
| SemanticSpans.CutSpansPartition | rust/chunkshop/src/chunker.rs:1044-1066 | the final spans partition the sentences, are long enough unless alone, and every cut follows a distance at or over the threshold |
| Grouping.GroupFixedN | rust/chunkshop/src/chunker.rs:1380-1396 | the loop computes the packing with weight 1 and budget n; n = 0 keeps one group |
| Grouping.GroupWordBudget | rust/chunkshop/src/chunker.rs:1397-1414 | the loop computes the greedy packing by word counts |
| Grouping.GroupBySection | rust/chunkshop/src/chunker.rs:1415-1438 | the loop computes the runs of equal headings |
| Grouping.WordBudgetGroupsAreOptimal | rust/chunkshop/src/chunker.rs:1397-1414 | the groups hold every chunk once in order, a chunk over budget is alone, and no contiguous grouping into allowed groups has fewer |
| Grouping.FixedNGroupSizes | rust/chunkshop/src/chunker.rs:1380-1396 | all groups but the last have n chunks, the last at most n |
| Grouping.FixedNGroupsHoldN | rust/chunkshop/src/chunker.rs:1380-1396 | fixed-size groups hold every chunk once, in order, n each and at most n in the last; n = 0 keeps them together |
| Grouping.SectionGroupsAreTheRuns | rust/chunkshop/src/chunker.rs:1415-1438 | each group has one heading, the heading changes between neighbouring groups, and every chunk is in one group, in order |
| ChunkerConfigs.PythonValidIsRustValidAndMore | python/src/chunkshop/config.py:328-369 | among trees within the fields the Rust configs have, the pydantic models accept exactly what the Rust validator accepts that also keeps the field bounds and has no fallback on consolidation |
| ChunkerConfigs.ValidatedFallbacksHaveCeilings | rust/chunkshop/src/config.rs:1544-1588 | in a validated tree every node that carries a fallback has an effective ceiling, whichever implementation validated it |
| ChunkerConfigs.PythonBounds | python/src/chunkshop/config.py:382-540 | each bound that only pydantic has, at its edge: group sizes from 1, word budgets from 50, fact lengths from 1, percentiles 1 to 99, at least 1 sentence and 100 characters |
| ChunkerConfigs.FallbackNeedsCeiling | python/src/chunkshop/config.py:328-369 | both refuse a fallback that no ceiling can trigger, take the ceiling of the base, and group by section over a hierarchy base only |
| Chunking.ApplyIfOversize | rust/chunkshop/src/chunker.rs:146-237 | the recursive loop computes the specification of the fallback: what each chunk becomes, renumbered, or the first failure |
| FallbackContents.FallbackChunksOriginal | rust/chunkshop/src/chunker.rs:192-234 | an oversize chunk has its original text chunked, under its document id and the title and metadata of the document; both texts of what comes out are the fallback's original ones, and its metadata keys win over the parent's |
| FallbackContents.EmbeddedTextIsDropped | rust/chunkshop/src/chunker.rs:192-234 | two oversize chunks that differ in their embedded texts only become the same chunks |
| FallbackContents.FallbackKeepsContent | rust/chunkshop/src/chunker.rs:146-237 | with code-mode sentence_aware as fallback the original texts keep every character that is not whitespace, in order, whatever the embedded texts are |
| FallbackContents.CodeFallbackReplaces | rust/chunkshop/src/chunker.rs:192-234 | what that fallback makes of one chunk: the content of its original text, within max, equal in both texts, under the parent's metadata with the strategy replaced |
| FallbackContents.FittingChunksStay | rust/chunkshop/src/chunker.rs:166-178 | chunks whose two texts fit, and coarse rows that are skipped, come out as they are but for their numbers |
| FallbackContents.CoarseRowsStay | rust/chunkshop/src/chunker.rs:1360-1375 | every coarse row of a hierarchical summary, however long, comes out of its oversize pass as it went in but for its number |
| FallbackContents.UnbuildableFallback | rust/chunkshop/src/chunker.rs:201-204 | a fallback that cannot be built gives a recursion error exactly when some chunk is oversize and not skipped, and otherwise goes unnoticed |
| FallbackContents.WithoutFallback | rust/chunkshop/src/chunker.rs:179-191 | without a fallback a chunker returns exactly what it made, whatever its ceiling |
| FallbackContents.WrapperCeiling | rust/chunkshop/src/chunker.rs:1521-1531 | a wrapper's own ceiling bounds its chunks, and without one its base's limit does |
| FallbackContents.ConsolidationIgnoresFallback | rust/chunkshop/src/chunker.rs:1580-1589 | consolidation has no oversize pass: its ceiling and its fallback change nothing |
| ChunkLoops.NeighborExpandLoop | rust/chunkshop/src/chunker.rs:823-852 | each chunk keeps its document, number and original text; its embedded text joins the embedded texts of the chunks at most the window away |
| WrapperContents.WrappersWorkOnTheBase | rust/chunkshop/src/chunker.rs:823-864 | without a fallback of their own, neighbor_expand and summary_embed work on all that their base returns after its own oversize pass |
| ChunkLoops.NeighborsAreEmbedded | rust/chunkshop/src/chunker.rs:832-837 | every text within the window is in the expanded one verbatim; a window of 0 changes no text |
| ChunkLoops.SummaryEmbedLoop | rust/chunkshop/src/chunker.rs:1191-1221 | when every summary succeeds, each base chunk with its number, document and original text kept, embedded as the summary of its original text and stamped with the summarizer; otherwise no chunks |
| ChunkLoops.SummariesAreEmbedded | rust/chunkshop/src/chunker.rs:1203-1218 | the same of the specification: there are chunks if and only if every summary succeeds |
| ChunkLoops.HierarchicalSummaryLoop | rust/chunkshop/src/chunker.rs:1291-1359 | per group its fine rows, then one coarse row, numbered through; one failing summary leaves no chunks |
| WrapperContents.SummaryRowsAre | rust/chunkshop/src/chunker.rs:1293-1359 | the rows of the g-th group: its base chunks with texts kept, then one row of their joined texts embedded as the summary, all under the group's own id and numbered on |
| WrapperContents.GroupsComeFromTheBase | rust/chunkshop/src/chunker.rs:1284-1359 | the whole hierarchical summary: the rows of every group of what the base returns |
| WrapperContents.DecimalReadsBack | rust/chunkshop/src/chunker.rs:1294 | reading a group number's decimal form gives the number back |
| WrapperContents.GroupIdsDiffer | rust/chunkshop/src/chunker.rs:1294 | two groups of a document never share an id |
| WrapperContents.BudgetGroups | rust/chunkshop/src/chunker.rs:1397-1414 | a word-budget group of several chunks has at most the budget of words of original text, and a chunk over it is alone |
| WrapperContents.SectionedGroups | rust/chunkshop/src/chunker.rs:1415-1438 | section-aware groups have one heading each, another than the next |
| ChunkLoops.ConsolidationLoop | rust/chunkshop/src/chunker.rs:1660-1735 | episode chunks stamped in place, then one numbered chunk per fact with its triple, support and confidence; a failing consolidator leaves the episodes, marked with its message |
| WrapperContents.ConsolidationRowsAre | rust/chunkshop/src/chunker.rs:1625-1740 | each episode keeps its texts, number and other metadata and gains its stamps; each fact row has the three parts in order, cut at max, with support, confidence and source; on failure the episodes carry the message |
| WrapperContents.FactsComeWithTheBase | rust/chunkshop/src/chunker.rs:1657 | consolidation works on all that its base returns |
| ChunkLoops.StampEpisodes | rust/chunkshop/src/chunker.rs:1662-1673 | every episode chunk gets its kind, extractor, session unless it has one, and end time, in place |
| ChunkLoops.PackSentencesLoop | rust/chunkshop/src/chunker.rs:1108-1134 | the loop computes the packing of the sentences of an over-long semantic span, whose size and content the next rows state |
| ChunkLoops.PackedOverflowsExactly | rust/chunkshop/src/chunker.rs:1108-1134 | a piece exceeds the cap if and only if a sentence other than the last does, for sentences as the splitter returns them |
| ChunkLoops.LongSentenceComesOutWhole | rust/chunkshop/src/chunker.rs:1117-1119 | a concrete list of sentences where one does |
| ChunkLoops.PackedKeepsContent | rust/chunkshop/src/chunker.rs:1108-1134 | the characters other than whitespace are kept, in order |
| ChunkGuarantees.ChunksAreNumbered | rust/chunkshop/src/chunker.rs:146-237 | for every tree of chunkers, wrappers and fallbacks, the i-th chunk of a document has number i and its document id |
| ChunkGuarantees.SectionsAreNumbered | rust/chunkshop/src/chunker.rs:603-628 | section chunks are numbered through all sections |
| HierarchyContents.HierarchyChunksAreStretches | rust/chunkshop/src/chunker.rs:602-678 | every hierarchy chunk is a part of a stretch between headings of at least min characters, with the heading above it in its metadata and, when asked for, before its embedded text; and a stretch of min to max characters is a chunk |
| HierarchyContents.HierarchyKeepsContentExactly | rust/chunkshop/src/chunker.rs:602-628 | the text between the headings is kept, in order, if and only if every stretch that trims to fewer than min characters is blank |
| HierarchyContents.WithoutHeadings | rust/chunkshop/src/chunker.rs:594-601 | a text without headings is one section under the document title |
| HierarchyContents.ZeroLimitHierarchy | rust/chunkshop/src/chunker.rs:602-655 | with a limit of 0 the hierarchy chunker panics if and only if some stretch of at least min characters is not blank |
| ChunkContents.FixedOverlapChunkIs | rust/chunkshop/src/chunker.rs:724-767 | the k-th fixed_overlap chunk is the verbatim text from word k * step on, window words or what is left, with that start and count in its metadata |
| ChunkContents.FixedOverlapCount | rust/chunkshop/src/chunker.rs:742-767 | how many such chunks there are |
| ChunkContents.ProseChunksAreLongEnough | rust/chunkshop/src/chunker.rs:357-402 | sentence_aware in prose mode: a longer text with headings keeps exactly the pieces of at least min characters, any other keeps all its content |
| ChunkContents.SemanticKeepsContent | rust/chunkshop/src/chunker.rs:989-1080 | the semantic chunker keeps every character that is not whitespace, in order, wherever it cuts, when sentence splitting does |
| ChunkContents.SemanticChunksAreSpans | rust/chunkshop/src/chunker.rs:1044-1080 | when every span fits, the chunks are the spans between the cuts, their sentences joined by spaces |
| ChunkContents.SemanticFallsBack | rust/chunkshop/src/chunker.rs:993-1023 | a text of one sentence that fits is one chunk, and so is a text whose embedding fails |
| ChunkContents.SpanPiecesFitExactly | rust/chunkshop/src/chunker.rs:1092-1140 | a span that fits is one piece; of a longer one some piece exceeds the cap if and only if a sentence other than the last does, and one without sentences is cut at the cap |
| ChunkContents.PackedIsFewestJoins | rust/chunkshop/src/chunker.rs:1092-1140 | when every sentence fits, the pieces of a span that is too long are consecutive sentences joined by spaces within the cap, and no such joining has fewer |
| ChunkContents.BuildsExactly | rust/chunkshop/src/chunker.rs:1516-1600 | a chunker can be built if and only if in every configuration down its bases the pattern compiles, window and step are positive, the splitter is naive and the summarizer builds; the semantic ranges are those pydantic loads |
| ChunkGuarantees.NoFallbackKeepsChunks | rust/chunkshop/src/chunker.rs:179-191 | without a fallback nothing but the numbers changes |
| ChunkGuarantees.FallbackKeepsCeiling | rust/chunkshop/src/chunker.rs:146-237 | with ceilings along the chain within the limit and code-mode sentence_aware last, every chunk left is within the limit, whatever the links between, or is one of the very coarse rows that skip_check passed over |
| ChunkGuarantees.ChunkedKeepsCeiling | rust/chunkshop/src/chunker.rs:1360-1376 | the same for a whole chunker with its own ceiling and chain: only the coarse rows a hierarchical summary made itself may be over it |
| ChunkGuarantees.ChunkedSucceeds | rust/chunkshop/src/chunker.rs:156-217 | chunking neither panics nor meets the recursion error when every fallback chain has at most five links and everything can be built, although nested chunkers count depth from 0 again |
| ChunkGuarantees.AppliedSucceeds | rust/chunkshop/src/chunker.rs:156-217 | the fallback succeeds from any depth that leaves room for the chain |
| ChunkGuarantees.ZeroLimitPanicsExactly | rust/chunkshop/src/chunker.rs:404-405 | a limit of 0 passes both validators, and sentence_aware then panics exactly on the documents that are not blank |
| ChunkGuarantees.NestedChunking | rust/chunkshop/src/chunker.rs:156-160 | five links is the limit: the tree of n nested fallbacks of one word window has n links and succeeds if and only if n <= 5 |
| ChunkGuarantees.GroupRowsKeepGroup | rust/chunkshop/src/chunker.rs:1293-1359 | a group's fine rows are its chunks and its one coarse row joins their texts |
| ChunkGuarantees.HierarchicalSummaryKeepsBase | rust/chunkshop/src/chunker.rs:1284-1359 | the fine rows of a hierarchical summary are the base chunks in order, with one coarse row more per group; there are none if and only if there is no base chunk or a group's summary fails |
| IncrementalRun.StepKeeps | python/src/chunkshop/runner.py:68-200 | every step of the protocol - an edit, a removal, any step of a run, a crash - keeps the invariant |
| IncrementalRun.RunKeeps | python/src/chunkshop/runner.py:68-200 | so does every sequence of steps |
| IncrementalRun.EditKeeps | python/src/chunkshop/sources/files.py:76-94 | a file edited to content it did not have before, at any moment, leaves no cursor naming a version the sink does not hold |
| IncrementalRun.WriteKeeps | python/src/chunkshop/runner.py:165 | writing a document keeps the saved cursor and the next one true of the sink, under faithful settings |
| IncrementalRun.MergeKeeps | python/src/chunkshop/runner.py:169-170 | entering the hash into the next cursor names only what the sink holds |
| IncrementalRun.DeleteOneKeeps | python/src/chunkshop/runner.py:187-190 | deleting the document of a vanished file touches none the cursors name, when no two paths share a document id |
| IncrementalRun.SaveKeeps | python/src/chunkshop/incremental_cursor.py:26-32 | writing the temp file and swapping it in keeps the invariant; nothing else reads the temp file |
| IncrementalGuarantees.NeverSkipsStale | python/src/chunkshop/runner.py:61-200 | in every reachable state, when the saved cursor names the version on disk the sink holds exactly that version, if the settings are faithful |
| IncrementalGuarantees.CompleteRunIsCurrent | python/src/chunkshop/runner.py:178-199 | a completed run leaves every file untouched since it began current and named, and every document of the loaded cursor whose file is gone deleted |
| IncrementalGuarantees.OverwriteSkipsStale | python/src/chunkshop/config.py:1176 | in target mode overwrite, the default, the next run drops the rows while the cursor still names the file |
| IncrementalGuarantees.EmptyVersionSkipsStale | python/src/chunkshop/runner.py:106-107 | a version without chunks leaves the rows of the version before, and the cursor names it |
| IncrementalGuarantees.OrphansSkipStale | python/src/chunkshop/config.py:1181 | without delete_orphans a version with fewer chunks keeps the tail of the one before |
| IncrementalGuarantees.SharedIdsSkipStale | python/src/chunkshop/sources/files.py:136-144 | with two paths of one document id, removing one file deletes the document the other still needs, and the cursor names it |
| IncrementalGuarantees.RevisitSkipsStale | python/src/chunkshop/runner.py:187-199 | a file removed, its document deleted by a run that stops before saving, and the file back as it was: the cursor names it and the sink is empty |
| IncrementalGuarantees.SafeExactly | python/src/chunkshop/runner.py:61-200 | no stale file is skipped over any interleaving if and only if the limit is 0 or 1, or no version has chunks, or: the target keeps rows, no two paths share a document id, files do not return to old content, every version has chunks, and orphans are deleted or cannot arise |
| IncrementalGuarantees.StemIdsAreUnsafe | python/src/chunkshop/config.py:88 | with ids from the file stem, the default, ingest is safe only when nothing is ever saved or stored |
| IncrementalProgress.RunCanGoOn | python/src/chunkshop/runner.py:72-200 | in every reachable state a run that has begun can take a step of its own |
| IncrementalProgress.RunEnds | python/src/chunkshop/runner.py:72-200 | once n files are listed and m cursor entries are loaded a run takes at most 4 n + m + 4 more steps, however many edits come between them |
| IncrementalProgress.OnlySavingMovesTheCursor | python/src/chunkshop/runner.py:176-200 | only the last step of a complete run changes the saved cursor; a run ends there, at a file that is gone, at the limit or by stopping, and nowhere else; only beginning, writing and pruning touch the sink |
| IncrementalCell.Cell.RunCell | python/src/chunkshop/runner.py:68-200 | one run without concurrent changes, for any ids and settings: how far it gets, the document count, truncation exactly at the limit, the new cursor, and the exact sink |
| IncrementalRefinement.CellRunIsAProtocolRun | python/src/chunkshop/runner.py:68-200 | that run is a run of the protocol without changes to files and without a crash: same sink, cursor and temp file at the end |
| IncrementalCell.Cell.Scan | python/src/chunkshop/runner.py:101-170 | the loop writes changed files in order and stops when another comes up at the limit |
| IncrementalCell.Cell.DeleteGone | python/src/chunkshop/sources/files.py:107-119 | exactly the document ids of cursor entries without a file are deleted |
| IncrementalCell.CompleteRunRows | python/src/chunkshop/runner.py:101-200 | when no two paths share an id: changed files are rewritten, documents of vanished files are gone, every other keeps its rows |
| IncrementalCell.LastWriterWins | python/src/chunkshop/runner.py:165 | when paths share an id, the last changed file written is the one stored |
| IncrementalCell.RewriteUpserts | python/src/chunkshop/sinks/pg.py:440-483 | a rewrite upserts by row number: the new chunks come first, and of a longer old list the rest stays unless orphans are deleted |
| IncrementalCell.MergedIsDisk | python/src/chunkshop/runner.py:169-199 | the next cursor of a complete run, trimmed to the files on disk, is the disk |
| Watermark.WrittenStaysTiled | scripts/run_incremental_watermark.py:265-268 | advancing the cursor by a window that starts at it keeps the windows tiling the time covered |
| Watermark.StepKeepsLock | scripts/run_incremental_watermark.py:209-272 | every step of every wrapper keeps mutual exclusion, what the holder knows of the cursor, and the tiling |
| Watermark.SourceWriteKeeps | scripts/run_incremental_watermark.py:146-150 | a source write stamped above every maximum read breaks nothing already covered |
| Watermark.IngestRowKeeps | scripts/run_incremental_watermark.py:247-258 | ingesting a selected row keeps every covered row current |
| Watermark.WriteCursorKeeps | scripts/run_incremental_watermark.py:265-268 | the cursor only moves past rows that have been ingested in their current version |
| Watermark.StepKeepsData | scripts/run_incremental_watermark.py:209-272 | every step keeps all of this |
| Watermark.WindowsTile | scripts/run_incremental_watermark.py:209-272 | in every reachable state each stamp after the epoch and up to the cursor is in exactly one advancing window, none after it is, and every advance moved the cursor up |
| Watermark.NothingIsMissed | scripts/run_incremental_watermark.py:209-272 | in every reachable state every row stamped in (epoch, cursor] is in the target in its current version |
| WatermarkGuarantees.LateWriteIsMissed | scripts/run_incremental_watermark.py:228-232 | a row stamped at the maximum already read is never selected |
| WatermarkGuarantees.LostLockIsMissed | scripts/run_incremental_watermark.py:96-115 | when the lock goes while the ingest lives on, an older version overwrites a newer one under the cursor |
| WatermarkGuarantees.LostLockTurnsBack | scripts/run_incremental_watermark.py:153-168 | and then the cursor moves back |
| WatermarkGuarantees.TilesExactly | scripts/run_incremental_watermark.py:209-272 | the windows tile in every reachable state if and only if the lock cannot be lost; late writes do not matter |
| WatermarkGuarantees.NothingMissedExactly | scripts/run_incremental_watermark.py:209-272 | nothing is missed in any reachable state if and only if writes are stamped above every maximum read and the lock cannot be lost |
| WatermarkWrapper.HighWater | scripts/run_incremental_watermark.py:146-150 | the maximum of the updated column, or none for an empty table |
| WatermarkWrapper.CursorStore.RunWrapper | scripts/run_incremental_watermark.py:209-272 | one wrapper run: exit code, when the cursor advances and to what, what the target holds after it, and that rows caught up stay caught up |
| WatermarkRefinement.WrapperRunIsAProtocolRun | scripts/run_incremental_watermark.py:209-272 | whatever one wrapper run leaves, a run of the protocol by that wrapper alone leaves: cursor, target, lock, the other wrappers, and the one window it advanced by |
| WatermarkWrapper.CursorStore.Ingest | scripts/run_incremental_watermark.py:244-258 | the ingest stores only rows of the window, in their current version, and all of them when it succeeds |
| WatermarkProgress.WrapperCanGoOn | scripts/run_incremental_watermark.py:211-272 | in every reachable state a wrapper that took the lock can go on without anything going wrong |
| WatermarkProgress.WrapperEnds | scripts/run_incremental_watermark.py:247-272 | once n rows are selected it takes at most n + 3 more steps until it has left the block of the lock, whatever the others do |
| WatermarkProgress.DyingFreesTheLock | scripts/run_incremental_watermark.py:211-263 | a wrapper that dies anywhere, or whose ingest fails, frees its lock and leaves cursor, target and other wrappers as they were |
| WatermarkProgress.OnlyWritingMovesTheCursor | scripts/run_incremental_watermark.py:211-272 | the cursor moves only when it is written, to the end of the window; the target only by ingested rows; the lock is taken only when it is free |
| ReadPool.FoundIsLastUsable | python/src/chunkshop/search.py:168-177 | the connection handed out is the most recently released one that is neither closed nor idle for over 300 s; all released after it go, all before it stay |
| ReadPool.ReleasedIsNextAcquired | python/src/chunkshop/search.py:181-193 | a released connection is the next one handed out if and only if it is open, the list had room, and it is not too old by then |
| ReadPool.AttemptsRetryOnce | python/src/chunkshop/search.py:246-264 | the attempts of a read: only a failed reused connection is followed by one more, on a fresh one |
| ReadPool.FreshIsEnough | python/src/chunkshop/search.py:224-231 | a caller whose fresh connections work gets its rows, unless the query on a reused one fails for another reason |
| ReadPool.SearchPool.Acquire | python/src/chunkshop/search.py:159-178 | the pop loop: which connection, whether reused, what stays listed, and what is closed |
| ReadPool.SearchPool.Release | python/src/chunkshop/search.py:181-193 | closed connections are forgotten, failed ones and one too many closed, the others listed last |
| ReadPool.SearchPool.ExecuteRead | python/src/chunkshop/search.py:246-264 | what the read returns, query by query: a working second query gives its rows after a dead reused connection, and nothing else is retried; on which connections, and which of them is listed and which closed, none left over except one whose first query failed for another reason |
| ReadPool.SearchPool.RunOn | python/src/chunkshop/search.py:250-264 | the query on an acquired connection and the second one on a new connection: what they return, and what is listed and closed |
| ReadPoolRefinement.ReadIsAProtocolRun | python/src/chunkshop/search.py:246-264 | that read is a run of the protocol by one caller: same list, closed and abandoned connections and attempts, nothing else changed |
| ReadPool.SearchPool.ClosePool | python/src/chunkshop/search.py:267-274 | every idle connection is closed and no list is left |
| ReadPool.SearchPool.ResetAfterFork | python/src/chunkshop/search.py:277-291 | no list is left and nothing is closed |
| ReadPoolProtocol.StepKeepsPlaces | python/src/chunkshop/search.py:159-193 | every step of every caller, a pool close and a fork keep each connection in one place |
| ReadPoolProtocol.EachConnectionHasOnePlace | python/src/chunkshop/search.py:159-274 | in every reachable state each connection ever opened is in exactly one place - idle in one list, held by one caller, being closed, closed, abandoned, or the parent process's - so no two callers share one |
| ReadPoolProtocol.ListsAreBoundedAndServeTheirDsn | python/src/chunkshop/search.py:132-178 | no idle list exceeds 8, and a caller only runs on a connection opened for its DSN |
| ReadPoolProtocol.FinishedCallersRetriedOnce | python/src/chunkshop/search.py:219-264 | every finished read was retried at most once, only after a reused connection failed; with working fresh connections it has its rows, however many idle ones were dead |
| ReadPoolProtocol.GoneStaysGone | python/src/chunkshop/search.py:169-176 | a connection closed, abandoned or left to the parent is never handed out again |
| ReadPoolProtocol.AbandonedAreFirstOtherFailures | python/src/chunkshop/search.py:246-264 | the abandoned connections are exactly as many as first attempts that failed for another reason than their connection: nothing else leaks one |
| ReadPoolProgress.CallerCanGoOn | python/src/chunkshop/search.py:245-264 | a caller inside a read can always take its next step, and what it opens nobody ever had |
| ReadPoolProgress.ReadEnds | python/src/chunkshop/search.py:245-264 | after acquiring, a read takes at most four steps, whatever other callers, pool closes, forks and breaking connections do in between |
| ReadPoolProgress.BrokenIsNotHandedOut | python/src/chunkshop/search.py:165-182 | a connection may break at any moment, and once it has no acquire hands it out |
| ReadPoolProgress.ClosingTakesTheIdle | python/src/chunkshop/search.py:267-274 | closing the pool takes exactly the idle connections, each of which is then closed, and moves no other |
| ReadPoolProgress.ForkingLeavesTheRest | python/src/chunkshop/search.py:277-291 | a fork leaves every connection that is neither closed nor abandoned to the parent, and the child without lists and reads |
| Fusion.AddDescribes | python/src/chunkshop/search_common.py:66-71 | adding a contribution keeps the table the sum of what was added: scores, first bodies, legs, insertion order |
| Fusion.FuseRrf | python/src/chunkshop/search_common.py:58-72 | the nested loops build the table of all reciprocal-rank contributions |
| Fusion.FuseWeighted | python/src/chunkshop/search_common.py:75-96 | the nested loops build the table of all weighted, min-max normalized contributions |
| FusionGuarantees.UnnamedLegWeighsOne | python/src/chunkshop/search_common.py:86 | a leg not named in the weights weighs exactly 1 |
| FusionGuarantees.NamedLegIsWeighted | python/src/chunkshop/search_common.py:83-89 | a leg named in the weights contributes its weight times the normalized score of each hit |
| FusionGuarantees.BestHitsContributeOne | python/src/chunkshop/search_common.py:83-89 | without weights the best hits of a leg contribute exactly 1 each |
| FusionGuarantees.NormalizedIsLinear | python/src/chunkshop/search_common.py:83-88 | normalizing is linear from the worst hit at 0 to the best at 1, and gives 1 to all when they score the same |
| FusionGuarantees.BodyIsTheFirst | python/src/chunkshop/search_common.py:66-71 | a fused row has the body of the first hit with its key |
| FusionGuarantees.KeysInFirstOrder | python/src/chunkshop/search_common.py:66-71 | rows come in the order in which their keys first appear, which is what ties fall back to |
| Fusion.RankedIsStableSort | python/src/chunkshop/search_common.py:159 | the ranking is a permutation, highest score first, ties in insertion order |
| Fusion.Fuse | python/src/chunkshop/search_common.py:123-160 | the result is the first k of the ranked rows, one per key, or an error for an RRF constant below 1 |
| FusionGuarantees.NothingDroppedBeatsAnythingKept | python/src/chunkshop/search_common.py:159-160 | cutting to k keeps min(k, n) rows, loses none otherwise, and no dropped row scores above a kept one |
| FusionGuarantees.NegativeCutDropsLast | python/src/chunkshop/search_common.py:160 | a negative k drops that many last rows |
| FusionGuarantees.FusedScoreIsRrfScore | python/src/chunkshop/search_common.py:58-72 | a fused row scores the sum of its reciprocal ranks over the legs |
| FusionGuarantees.FusedScoreIsWeightedScore | python/src/chunkshop/search_common.py:75-96 | in weighted fusion a fused row scores the sum over the legs of weight times normalized score |
| FusionGuarantees.NormalizedIsAFraction | python/src/chunkshop/search_common.py:83-88 | normalized scores lie between 0 and 1, and a leg's best hits have 1 |
| FusionGuarantees.LegsAreTheOnesThatMatched | python/src/chunkshop/search_common.py:58-96 | a fused row lists exactly the legs that matched it, in both fusions |
| FusionGuarantees.RrfDependsOnRanksOnly | python/src/chunkshop/search_common.py:58-72 | changing scores without changing the order changes nothing in RRF |
| FusionGuarantees.WeightedIgnoresRescaling | python/src/chunkshop/search_common.py:83-89 | weighted fusion is unchanged by any positive affine rescaling of each leg's scores |
| FusionGuarantees.RunConcurrently | python/src/chunkshop/search.py:643-656 | whatever order the legs finish in, the outcome is the sequential one, failures included |
| FusionGuarantees.PairScoreIsFusedScore | python/src/chunkshop/search_common.py:58-72 | for two legs the fused score is the sum of the two reciprocal ranks |
| FusionGuarantees.TieIsPossible | python/src/chunkshop/search.py:613-614 | with rrf_k + 2 hits a leg, a row both legs match can tie with a row one leg matches |
| FusionGuarantees.BothBeatOneExactly | python/src/chunkshop/search.py:613-614 | rows both legs match always score strictly above rows one leg matches if and only if legs have at most rrf_k + 1 hits |
| FusionGuarantees.OverFetchSufficesExactly | python/src/chunkshop/search.py:608-623 | with n candidates a leg, k fetched rows are always no worse than a row neither leg fetched, if and only if n + 1 >= rrf_k + 2k |
| FusionGuarantees.MultiplierSuffices | python/src/chunkshop/search.py:622-623 | for candidate multiplier m that is (m - 2)k + 1 >= rrf_k |
| ImpactWalk.RoundIsWalks | python/src/chunkshop/cli.py:913-927 | the n-th round of the recursion has a row exactly for the last edges of the walks of n admissible edges |
| ImpactWalk.WalkIsWalks | python/src/chunkshop/cli.py:913-927 | the recursion's rows are exactly the walks of 1 to depth edges, on any graph |
| ImpactGuarantees.NamesAreTheReached | python/src/chunkshop/cli.py:913-932 | the answer names exactly what 1 to depth admissible edges reach |
| ImpactGuarantees.OneHopAnswers | python/src/chunkshop/cli.py:913-921 | one hop names the sources of the edges into the name, or the destinations of those out of it, that pass the project, type, confidence and kind filters |
| ImpactGuarantees.HitsAreEdges | python/src/chunkshop/cli.py:928-932 | a hit carries the ends of an edge of the table that passes the filters with its confidence, its name is the end it leads to, and hits come by hop and then by confidence |
| ImpactGuarantees.HopIsShortest | python/src/chunkshop/cli.py:926-928 | a hit's hop is the length of the shortest walk to its name, of any length |
| ImpactGuarantees.ConfidenceIsLargest | python/src/chunkshop/cli.py:928-932 | a hit's confidence is the largest among the last edges of the walks to its name within the depth |
| ImpactGuarantees.CallersAndCalleesAreConverse | python/src/chunkshop/cli.py:887-896 | y is a caller of x at hop h if and only if x is a callee of y at hop h |
| ImpactGuarantees.ConfidenceIsNotConverse | python/src/chunkshop/cli.py:887-896 | confidences are not converse beyond one hop: a two-edge graph where they differ at every depth from 2 to 10 |
| ImpactGuarantees.ConverseConfidencesExactly | python/src/chunkshop/cli.py:887-932 | for depths 1 to 10, confidences are converse on all graphs, queries and answers if and only if the depth is 1 |
| ImpactGuarantees.OneHopIsConverse | python/src/chunkshop/cli.py:887-896 | within depth 1 they are |
| ImpactGuarantees.DeeperKeepsHits | python/src/chunkshop/cli.py:925-926 | a deeper query finds every hit again at the same hop, with at least the same confidence |
| ImpactGuarantees.OutcomeExists | python/src/chunkshop/cli.py:879-882 | depths 1 to 10 have an answer on every graph, cyclic or not; other depths are rejected |
| Orchestration.SortedIsSorted | python/src/chunkshop/orchestrator.py:64 | the checkpoints are the given ones, ascending |
| Orchestration.Fill | python/src/chunkshop/orchestrator.py:73-77 | the filling loop |
| Orchestration.Poll | python/src/chunkshop/orchestrator.py:80-92 | the polling loop: who still runs and who ended with which code |
| Orchestration.Fire | python/src/chunkshop/orchestrator.py:96-98 | the checkpoint loop |
| Orchestration.Kill | python/src/chunkshop/orchestrator.py:105-112 | the loop that ends what still runs at the timeout |
| Orchestration.Orchestrate | python/src/chunkshop/orchestrator.py:58-122 | the whole method computes the report of the specified run; succeeded is the number of rows with code 0 and failed that of the others |
| OrchestrationGuarantees.RowsAreCells | python/src/chunkshop/orchestrator.py:112-121 | each row of the report is a cell of the list with the code its process returned, or -1 for one killed at the timeout, which is never among the succeeded |
| OrchestrationGuarantees.JobHasTheArguments | python/src/chunkshop/orchestrator.py:53-64 | the loop works on the configs in order with the given concurrency and timeout; the checkpoints are the given ones in ascending order, or 60, 120, 300 and 600 seconds when there are none |
| OrchestrationGuarantees.FillStarts | python/src/chunkshop/orchestrator.py:73-77 | filling starts the next pending cells in order and stops only when none is pending or the pool is full |
| OrchestrationGuarantees.PollSplits | python/src/chunkshop/orchestrator.py:80-92 | polling loses no running cell and duplicates none |
| OrchestrationGuarantees.FiresReached | python/src/chunkshop/orchestrator.py:96-98 | a poll fires exactly the next checkpoints it reached |
| OrchestrationGuarantees.RoundKeeps | python/src/chunkshop/orchestrator.py:71-115 | a round keeps the accounting of cells, the pool bound, the starting order, the histories, the checkpoints and the clock |
| OrchestrationGuarantees.EveryRoundKeeps | python/src/chunkshop/orchestrator.py:71-115 | in every reachable state: pending, running and done are a permutation of the configs, at most `concurrency` run, cells started in order, codes are the first the processes returned, each checkpoint fired once when first reached, in order |
| OrchestrationGuarantees.EachCellIsSomewhereOnce | python/src/chunkshop/orchestrator.py:66-92 | each cell is in exactly one of pending, running and done, once |
| OrchestrationGuarantees.EndsDoneOrTimedOut | python/src/chunkshop/orchestrator.py:100-122 | the loop ends with all cells done or at the first poll past the timeout, and total - succeeded - failed are the cells never started |
| OrchestrationGuarantees.ReportIsCompleteExactly | python/src/chunkshop/orchestrator.py:117-122 | the report counts every cell if and only if every cell was started |
| OrchestrationGuarantees.StartsExactlyWithSlots | python/src/chunkshop/orchestrator.py:71-77 | a job with cells starts one if and only if its concurrency is at least 1 |
| OrchestrationGuarantees.NoSlotsStartNothing | python/src/chunkshop/orchestrator.py:72-77 | with concurrency 0 or less nothing is ever started, and with any config the run only ends by timeout |

## Left out

- Embedding models, ONNX, vector values and cosine distances: the semantic chunker's distances and each search leg's ranking are given.
- SQL drivers, backends and sinks: a sink is a map from documents to rows, a search leg a ranked list; of `write_document` only upsert by row number and orphan deletion remain.
- IncrementalGuarantees.SafeExactly: speaks of sinks that upsert rows by number and can delete orphans, as the Postgres, SQLite and MariaDB sinks do; the ClickHouse sink inserts without upsert and ignores `delete_orphans` (python/src/chunkshop/sinks/clickhouse.py:12, 284-286), so there old rows can stay under settings this theorem calls safe.
- Floating-point rounding in percentiles and fusion scores: exact reals; ties that rounding would break or make are not captured.
- The heading regexes of `split_prose` and the hierarchy chunker: their matches are ordered positions given as a parameter.
- `naive_sentences`, summarizers and consolidators: parameters that may return anything or fail. A JSON null `session_id` is treated as absent.
- ChunkerConfigs.PythonValidIsRustValidAndMore: compares the chunkers both implementations always have; `code_aware`, which only Python has, and `symbol_aware`, which Rust builds under a feature flag and there has neither ceiling nor fallback, are outside the tree.
- Warnings and log lines of every component, the deduplicated oversize warner included.
- The Python splitters where they differ from the Rust ones in which control characters count as whitespace.
- `mtime` change detection of the files source: changes are found by content hash, which the model takes as the version itself; that chunks depend on the content alone leaves out titles and parsers chosen by the file name.
- Framers that make several documents of one file, the documents table, extractors and the edges written by `finalize`: they touch neither the cursor nor the chunk rows.
- Two concurrent runs of one cell on one cursor file: the code does not guard against them.
- IncrementalGuarantees.CompleteRunIsCurrent: speaks of files that did not change since the run began; a file edited while the run is under way is picked up by the next one.
- Rows stamped at or before the epoch: the watermark wrapper never selects them, and no theorem says they are ingested.
- Watermark.NothingIsMissed: takes an ingest that exits 0 to have stored every selected row; a document limit or the overwrite target mode in the wrapped config would break that.
- Missing environment variables and malformed identifiers of the wrapper script: it exits before taking the lock.
- `_read_connection` and the disabled pool: the search legs do not use the first, and the second is a plain connection per call.
- ReadPoolProtocol.EachConnectionHasOnePlace: a fork is modelled in the child, forked by a thread that is not itself inside a read.
- Argument validation, WHERE builders and headings of search results; `summarize_hits`.
- ImpactGuarantees.OutcomeExists: rows that tie in hop and confidence may come in any order, and the evidence column of a hit is not modelled.
- The metadata enrichment of impact rows, `--by-symbol` parsing and CLI printing.
- Process groups, signals and pipes of the orchestrator: a cell is what polling it returns; a cell killed at the timeout counts as ended at once, with code -1.
- OrchestrationGuarantees.EndsDoneOrTimedOut: supposes that the clock passes the timeout at some poll; without that the loop need not end.
