# ZebraRAG: a verified model of its core algorithms

ZebraRAG turns a project directory into a searchable index: it watches the files, parses
them into a symbol graph, cuts them into chunks, embeds the chunks and stores them in two
tables. This project models the algorithms between those steps that are the program's own,
and proves what they promise for every input, every run and every interleaving:

- **Recursive chunker** (`Text`, `Lines`, `Positions`, `Atoms`, `AtomLaws`, `Merge`,
  `MergeCosts`, `MergeLaws`, `Chunker`, `SymbolChunks`). Text is cut into atoms, a dynamic
  program picks the cheapest chunking, and line numbers are attached.
- **Indexing protocol** (`Manifest`, `IndexRun`, `RunWitnesses`, `Checkpoints`, `EmbedLoop`,
  `IndexProject`, `Appendix`, `Watch`). Change detection, the deletion phase, the pipelined embed loop with
  its flushes, checkpoints and pause, the bounded search over the call graph, and the
  single-flight scheduler with its trailing run.
- **Query text** (`GlobLike`, `SearchFilter`, `DeleteFilter`). Globs become LIKE patterns,
  searches become filter texts, path lists become batched IN predicates; the texts are read back.
- **Symbol graph** (`Types`, `Walker`, `WalkerLaws`, `ScopeLaws`, `SymbolLaws`, `EdgeLaws`,
  `SymbolIndex`). The scope-tracking walk, name resolution, and the grouped and transposed edges.
- **PDF text** (`PdfTokens`, `LiteralStandard`, `PdfInterp`, `PdfLaws`, `PageLaws`, `Sorting`, `Matrices`,
  `MatrixGrid`, `GridLaws`, `MathRegions`, `FenceLaws`, `Assemble`, `LineLaws`). String operands,
  the text operators, matrix reconstruction and the splicing of its blocks into the page.
- **Packers** (`Packing`, `Tabular`, `RowLaws`, `RemoteBatches`). Table rows into chunks, texts into
  requests.

`dafny verify dfyconfig.toml` checks everything.

Loops, classes with updated fields and in-place algorithms are methods and classes here too;
each is proved against a specification function or predicate, and the laws are lemmas about
that specification, which say what it means in other terms: levels and sums, nodes above a node,
positions on the page, places in the text. Text is a sequence of bytes that carry whether they start a character and
whether they are white space (`Text.Byte`). Every step of an indexing run that waits for
something outside asks `Checkpoints.Oracle`, of which nothing is known: a result holds
whichever steps fail and whenever the pause flag goes up. Lemmas that Dafny would try to prove
by induction on its own say `{:induction false}`; each has its own proof.

Where the code does something else than its comments or the standard say, a lemma gives an input
and another says exactly when it does what they say:

- The comment on the recursive splitter puts gaps and sibling nodes at the same depth. A sibling
  that is an inner node, or too long for one atom, leaves a deeper level behind it
  (`AtomLaws.GapsAndSiblingsOnOneScale`, `AtomLaws.InnerSiblingLeavesADeeperLevel`,
  `AtomLaws.LongSiblingLeavesADeeperLevel`).
- A first run that fails behind a checkpoint has written no project row, and the next run then
  takes the rows for an index of unknown format and deletes the checkpoint
  (`IndexRun.CheckpointsSurvive`, `IndexRun.ForcedAfterFailure`,
  `RunWitnesses.FailedFirstRunLosesItsCheckpoints`).
- A run that resumes when only files without chunks are on record finds the chunks table
  empty, takes the index to be damaged and starts over (`IndexRun.ResumeReindexesTheRest`,
  `IndexRun.ForcedAfterPause`, `RunWitnesses.PauseWithoutRowsStartsOver`).
- A failed read of the files table counts as an empty table, so a run can complete and still
  leave records of vanished files (`IndexRun.CompleteRecordsSnapshot`,
  `RunWitnesses.UnreadRecordsOutliveTheirFiles`).
- The search filter pastes language names between quotes as they are. Its text reads back as the
  conditions meant exactly if no name holds a quote (`SearchFilter.TextReadsBack`,
  `SearchFilter.ApostropheBreaksTheText`, `SearchFilter.QuotesReadAsTwoNames`).
- The LIKE filter lets through more than the glob: wildcards cross `/` (`GlobLike.FilterMeaning`,
  `GlobLike.StarCrossesSlashes`).
- The scope qualifier is not the `::`-join of the scope names when the outermost of several
  names is empty (`Walker.QualifierIsJoin`, `Walker.UnnamedOuterScope`).
- Literal PDF strings part from section 7.3.4.2 of ISO 32000-1 in four ways: a raw carriage
  return, or CR LF, is kept (it should read as one line feed); the digits 8 and 9 count as octal;
  an octal value above 255 is dropped (it should lose its high bit); an escape that is none loses
  its character (it should lose the backslash). `LiteralStandard.ReadsAsStandard` says when the
  two readings agree, and one lemma shows each kind of input.
- `T*` is commented as "equivalent to `0 -lead Td`". It also always breaks the line, so the
  two agree only under the condition in `PdfLaws.TStarIsTd`; right behind `BT` they do not
  (`PdfLaws.TStarBreaksWithoutLeading`).

## Model

| member | source | states |
|---|---|---|
| Lines.NewLineIndex | crates/zrag-common/src/lib.rs:58-68 | the index lists the start of every line, including the empty one behind a final line feed |
| Lines.LineByteRange | crates/zrag-common/src/lib.rs:18-49 | the single-pass scan and the precomputed index give the same byte range for every text and every pair of lines, in range or not |
| Lines.ByteRangeMeaning | crates/zrag-common/src/lib.rs:70-88 | a byte lies in the range exactly if its line is one of those asked for and it is not the line feed that closes the last of them |
| Positions.ComputePositions | crates/zrag-recursive-chunk/src/positions.rs:19-49 | every position in the list gets the line of its offset in one merged scan over the text, whatever order and repetitions the list has; a position inside a character makes it and all later ones get the last line |
| Positions.LineWrittenOnBoundaries | crates/zrag-recursive-chunk/src/positions.rs:24-48 | the line written is one more than the line feeds before the offset, if it and all earlier offsets are on character boundaries |
| Atoms.LineBreakLevel | crates/zrag-recursive-chunk/src/atom.rs:40-58 | the level is double if some maximal run of line breaks repeats its first character, single if there is any line break, inline otherwise |
| Atoms.AtomCollector.Add | crates/zrag-recursive-chunk/src/atom.rs:89-116 | adds the trimmed span with its boundary level and break levels, or nothing for a blank span; the new state is that of the specification |
| Atoms.AtomCollector.Seal | crates/zrag-recursive-chunk/src/atom.rs:118-128 | closes the list with an empty sentinel atom at the end of the text |
| Atoms.AtomCollector.CollectAtoms | crates/zrag-recursive-chunk/src/merge.rs:69-123 | the recursive separator splitting on shared state refines the state-passing specification |
| Atoms.AtomCollector.CollectAtomsTs | crates/zrag-recursive-chunk/src/merge.rs:14-67 | the same for splitting along a syntax tree |
| AtomLaws.RangedCollects | crates/zrag-recursive-chunk/src/merge.rs:69-123 | atoms stay ordered, disjoint, non-empty and on character boundaries; each carries the line break level of its own text and that of the text in front of it, and starts visibly or with the indentation of its line; every byte of the range is in an atom, white space, or in a separator match the splitting itself found |
| AtomLaws.TreedCollects | crates/zrag-recursive-chunk/src/merge.rs:14-67 | the same for any tree with nested, ordered children |
| AtomLaws.RangedLevels | crates/zrag-recursive-chunk/src/merge.rs:69-123 | the level of a boundary names the coarsest separator crossed there: boundaries inside a range are strictly deeper than the one it leaves behind |
| AtomLaws.SmallRangeIsWhole | crates/zrag-recursive-chunk/src/merge.rs:78-82 | a range within the atom size is one atom, or none exactly if nothing in it is visible |
| AtomLaws.SmallNodeIsWhole | crates/zrag-recursive-chunk/src/merge.rs:22-38 | so is a node within the atom size or of a terminal kind |
| AtomLaws.GapsAndSiblingsOnOneScale | crates/zrag-recursive-chunk/src/merge.rs:14-67 | from any state, text between two siblings leaves the level one below their parent behind it; a sibling that yields atoms leaves the same level exactly if it is terminal or within the atom size, and a deeper one otherwise |
| AtomLaws.InnerSiblingLeavesADeeperLevel | crates/zrag-recursive-chunk/src/merge.rs:40-67 | a tree of three letters whose boundary between two siblings counts one level deeper than the comment promises |
| AtomLaws.LongSiblingLeavesADeeperLevel | crates/zrag-recursive-chunk/src/merge.rs:35-38 | so does a sibling without children that is too long for one atom |
| Merge.DiscountNeverUnderflows | crates/zrag-recursive-chunk/src/merge.rs:231-240 | the unsigned subtraction in the overlap discount never underflows: the floored division differs by at most 512 for every plan the window admits |
| Merge.CachedGap | crates/zrag-recursive-chunk/src/merge.rs:178-191 | the grown cache holds at g the sum of 512/j for j up to g, and the cost of a gap is read from it |
| Merge.ChoosePrev | crates/zrag-recursive-chunk/src/merge.rs:209-226 | the lazily pruned heap picks what a scan over all admissible previous plans would pick: the cheapest, the latest of equals |
| Merge.WindowShrinks | crates/zrag-recursive-chunk/src/merge.rs:209-226 | entries once popped never become admissible again |
| Merge.BestPlan | crates/zrag-recursive-chunk/src/merge.rs:159-254 | the search for the last chunk finds the cheapest start among all that fit, the latest of equals, and stopping at the first start that does not fit loses nothing |
| Merge.MergeAtoms | crates/zrag-recursive-chunk/src/merge.rs:133-276 | every plan is the cheapest for its prefix, plans point strictly back, and the chunks are those of the last plan's chain; what is charged is the subject of the `MergeCosts` rows |
| MergeCosts.SyntaxCostIsCharge | crates/zrag-recursive-chunk/src/merge.rs:177-191 | an outer boundary is charged nothing exactly if no boundary strictly inside the chunk has a lower level; otherwise it is charged the sum of 512/j for j up to the difference to the lowest one inside |
| MergeCosts.DeeperCostsMore | crates/zrag-recursive-chunk/src/merge.rs:178-191 | at the same place, a boundary of a deeper level is never charged less |
| MergeCosts.ChunkIsCharged | crates/zrag-recursive-chunk/src/merge.rs:177-207 | the charge of a chunk is fixed by the levels and line breaks of its atoms: both outer boundaries for syntax and for each line break level they are weaker than the strongest break inside, and a prohibitive amount for chunks below the minimum size |
| MergeCosts.SharedBytesAreTakenOff | crates/zrag-recursive-chunk/src/merge.rs:231-240 | a chunk that shares nothing with the one before pays 512; shared bytes are taken off in proportion to the overlap allowed, up to rounding |
| MergeCosts.SharingIsCheapest | crates/zrag-recursive-chunk/src/merge.rs:209-240 | of the previous plans that share bytes with the chunk within the limit, none is cheaper than the one chosen, its overlap charge included |
| MergeCosts.ChargedLeast | crates/zrag-recursive-chunk/src/merge.rs:133-276 | without overlap the chosen chunks are a cut of the atoms, and the charges of any other allowed cut, read off levels and line breaks, do not add up to less |
| MergeLaws.InnerSyntaxIsLeast | crates/zrag-recursive-chunk/src/merge.rs:250-254 | the inner syntax level is the least boundary level strictly inside the chunk |
| MergeLaws.InnerBreakIsGreatest | crates/zrag-recursive-chunk/src/merge.rs:250-254 | the inner break is the strongest line break inside the chunk after its first atom |
| MergeLaws.PlanIsRealised | crates/zrag-recursive-chunk/src/merge.rs:256-276 | without overlap the backtracked chunks are a cut whose cost is the cost of the plan |
| MergeLaws.MergeIsOptimal | crates/zrag-recursive-chunk/src/merge.rs:133-276 | without overlap no cut of the atoms into runs that fit, or single atoms, costs less than the chosen one |
| MergeLaws.ChainIsGood | crates/zrag-recursive-chunk/src/merge.rs:256-276 | with any overlap, chunks end strictly further on, each fits or is one atom, and neighbours share at most the allowed bytes |
| MergeLaws.ChainCovers | crates/zrag-recursive-chunk/src/merge.rs:256-276 | every atom is in some chunk |
| MergeLaws.PlansPointBack | crates/zrag-recursive-chunk/src/merge.rs:256-276 | a plan's start is at most its previous plan, which is before the plan itself, so backtracking ends |
| Chunker.FinishChunks | crates/zrag-recursive-chunk/src/merge.rs:287-321 | the finished chunks carry the true lines of their first and last byte, overlap within the limit, leave out only white space and separator text, and without overlap no other cut has charges that add up to less |
| Chunker.ChunkText | crates/zrag-recursive-chunk/src/merge.rs:345-355 | the same from a plain text, with the atoms of the separator splitting |
| Chunker.ChunkTextWithTs | crates/zrag-recursive-chunk/src/merge.rs:331-343 | the same from a text with a syntax tree that covers all its non-blank bytes |
| Chunker.SplitText | crates/zrag-recursive-chunk/src/lib.rs:20-46 | the entry point keeps these guarantees for every text and configuration: the overlap is capped by the minimum chunk size, and a parsed tree, if there is one, guides the cut |
| SymbolChunks.FindDocStartLine | crates/zrag-dsl/src/chunking.rs:155-171 | the first line of the maximal contiguous block of doc and attribute lines that ends right above the symbol |
| SymbolChunks.DocLineBegins | crates/zrag-dsl/src/chunking.rs:161-181 | a line belongs to a doc block exactly if, behind its white space, it begins with `///`, `//!`, `/**`, `*`, `#[` or `@` |
| SymbolChunks.MakeChunk | crates/zrag-dsl/src/chunking.rs:111-147 | the chunk is exactly the lines from the doc block to the symbol's end, and there is none exactly for an impossible or empty range |
| SymbolChunks.TextFileAt | crates/zrag-dsl/src/chunking.rs:185-201 | a whole-file chunk is the file from line 1 on; its last line is that of the last byte, or one further exactly if that byte is a line feed |
| SymbolChunks.SubChunkLines | crates/zrag-pipeline/src/indexer.rs:80-120 | the absolute lines of a sub-chunk are the lines, in the source file, of its first and last byte, and its body is that part of the file |
| Manifest.DetectChanges | crates/zrag-pipeline/src/manifest.rs:462-508 | each snapshot is listed exactly once as added, modified or unchanged, by comparison with the last record of its path; removed are the recorded paths no longer on disk, in order |
| Manifest.RecordedIsLast | crates/zrag-pipeline/src/manifest.rs:463-466 | what is on record for a path is the hash of the last row that names it |
| Manifest.GoneInOrder | crates/zrag-pipeline/src/manifest.rs:487-492 | removed paths are those of the rows no longer on disk, one for each such row, in the order of the rows |
| Manifest.ChangesPartition | crates/zrag-pipeline/src/manifest.rs:462-508 | a path on disk is new, or has another hash than its record, or the same; removed is the rest of the recorded ones |
| Checkpoints.Decrement | crates/zrag-pipeline/src/indexer.rs:1017-1027 | the counts go down to what remains behind the flush; the files completed are exactly those whose last item was in it, none twice |
| Checkpoints.CheckpointCompleted | crates/zrag-pipeline/src/indexer.rs:1010-1032 | exactly the newly finished files are recorded, or none if the write fails |
| Checkpoints.CountRemaining | crates/zrag-pipeline/src/indexer.rs:432-437 | each file starts with the number of its items in the queue |
| Checkpoints.ZeroChunkFiles | crates/zrag-pipeline/src/indexer.rs:441-449 | the files recorded up front are those without items |
| EmbedLoop.BatchesCut | crates/zrag-pipeline/src/indexer.rs:597-606 | the batches cut the queue: each text goes out once, in order |
| EmbedLoop.BatchesAreFull | crates/zrag-pipeline/src/indexer.rs:597-606 | every batch holds as many texts as asked for, but for the last, which holds the rest |
| EmbedLoop.EmbedBatch | crates/zrag-pipeline/src/indexer.rs:607-645 | the receiver held at the loop head belongs to the batch at the cursor; submissions stay a prefix of those of a submit-then-await loop; a remote engine is never submitted to |
| IndexProject.BuildRows | crates/zrag-pipeline/src/indexer.rs:704-766 | the rows of a batch are its chunks paired with their embeddings, in order, and there are none exactly if some embedding is not a number |
| IndexProject.Flush | crates/zrag-pipeline/src/indexer.rs:795-817 | rows are appended before files are recorded, so a failure in between leaves rows without a record, never a record without rows |
| IndexProject.EmbedAll | crates/zrag-pipeline/src/indexer.rs:585-852 | at every exit the committed rows are the (chunk, embedding) pairs of a prefix of the queue and the recorded files are finished in it; whatever fails, fewer than 256 chunks and two batches were sent for embedding beyond those committed; a pause flushes everything embedded and has at most one batch in flight; a complete run has submitted every batch exactly once |
| IndexProject.PlanAndDelete | crates/zrag-pipeline/src/indexer.rs:140-214 | which files are reindexed and which rows deleted, with every condition that forces a rebuild |
| IndexProject.IndexProject | crates/zrag-pipeline/src/indexer.rs:131-947 | whatever fails and whenever it is paused, the run changes the tables only as `IndexRun.Ran` allows, and its submissions are a prefix of the sequential ones |
| IndexRun.QueueInOrder | crates/zrag-pipeline/src/indexer.rs:326-423 | the queue goes through the files in the order of the list, and through each file chunk by chunk |
| IndexRun.NewRowsAreTrue | crates/zrag-pipeline/src/indexer.rs:704-766 | every row a run adds holds a chunk of a file on disk, as the chunker cuts its present version, beside the embedding of that chunk's own text |
| IndexRun.ReindexedByTables | crates/zrag-pipeline/src/indexer.rs:168-206 | a file is reindexed exactly if it is on disk and not on record at its present version, or the run is asked to rebuild, finds a project row with a version below 2, chunk rows without a project row, or records without chunk rows |
| IndexRun.FormatIsRecorded | crates/zrag-pipeline/src/indexer.rs:908-920 | a run that was paused or completed records format 2 |
| IndexRun.QueueCounts | crates/zrag-pipeline/src/indexer.rs:326-423 | the queue holds each file to reindex with exactly as many items as it has chunks |
| IndexRun.RemainingAndCommitted | crates/zrag-pipeline/src/indexer.rs:1017-1027 | at every commit point, what remains of a file and its committed rows add up to the number of its chunks |
| IndexRun.RunKeepsInv | crates/zrag-pipeline/src/indexer.rs:793-852 | a run leaves no file on record that lacks a chunk of the recorded version, at its end and after its deletion phase, including every error return |
| IndexRun.HistoryKeepsInv | crates/zrag-pipeline/src/indexer.rs:187-214 | the same throughout every sequence of complete, paused and failed runs with arbitrary edits of the disk in between |
| IndexRun.CompleteRecordsSnapshot | crates/zrag-pipeline/src/indexer.rs:155-157 | a complete run leaves the files table equal to the snapshot exactly if the table could be read or held no path outside the snapshot |
| IndexRun.ResumeReindexesTheRest | crates/zrag-pipeline/src/indexer.rs:174-206 | from the tables any earlier run left, however it ended, a run reindexes exactly the files not on record at their present version, if and only if it could read the records and nothing forces a rebuild, or no file is up to date |
| IndexRun.RecordsAfterRun | crates/zrag-pipeline/src/indexer.rs:187-214 | what is up to date after a run with a deletion phase, whatever its outcome: the files it recorded, and those that were and that it did not delete |
| IndexRun.ForcedAfterPause | crates/zrag-pipeline/src/indexer.rs:168-177 | after a paused or complete run a rebuild is forced exactly on request, or if files are on record and the chunks table is empty |
| IndexRun.ForcedAfterFailure | crates/zrag-pipeline/src/indexer.rs:168-177 | after a failed run also exactly if the project row it did not write is stale, or missing beside chunk rows |
| IndexRun.CheckpointsSurvive | crates/zrag-pipeline/src/indexer.rs:174-214 | a checkpoint is still there after the next run, whatever happens to that, if and only if it stops before its deletion phase, records the file again, or reads the records exactly if nothing forces a rebuild |
| RunWitnesses.FailedFirstRunLosesItsCheckpoints | crates/zrag-pipeline/src/indexer.rs:168-214 | a first run that fails behind its checkpoint, and a second one that deletes it |
| RunWitnesses.PauseWithoutRowsStartsOver | crates/zrag-pipeline/src/indexer.rs:174-206 | a run paused with only a file without chunks on record, and one that starts over |
| RunWitnesses.UnreadRecordsOutliveTheirFiles | crates/zrag-pipeline/src/indexer.rs:155-157 | a run that completes beside the record of a vanished file |
| IndexRun.OtherFilesStay | crates/zrag-pipeline/src/indexer.rs:187-214 | a file that is still on disk and not reindexed keeps its record and all its rows |
| Appendix.AppendixOf | crates/zrag-pipeline/src/indexer.rs:462-495 | the result holds distinct chunked symbols within call distance 2, never the start, at most 32, in nondecreasing distance; if any is left out there are 32 and none of them is further away |
| Appendix.PathsOfTwo | crates/zrag-pipeline/src/indexer.rs:470-490 | within distance 2 are the chunked direct callees and the chunked callees of chunked direct callees, read off the resolved edges that are calls |
| Watch.InvKept | crates/zrag-daemon/src/watch.rs:128-166 | every step of any task, request or file event keeps the protocol invariant; looking a project up and swapping its flag are two steps, with a removal possible in between |
| Watch.SingleFlight | crates/zrag-daemon/src/watch.rs:128-166 | in every interleaving the flag is up exactly while one task is past the swap and has not cleared it, and at most one run holds the lock |
| Watch.NoEditIsLost | crates/zrag-daemon/src/watch.rs:128-166 | once no task is on its way to the swap or pending, every event delivered to a project that is still watched was followed by the start of a run |
| Watch.OneTrailingRun | crates/zrag-daemon/src/watch.rs:128-166 | events that land during a run are served by exactly one further queued run |
| Watch.InternalStepsFinish | crates/zrag-daemon/src/watch.rs:128-166 | without new events or requests only finitely many steps follow one another |
| Watch.NeverStuck | crates/zrag-daemon/src/watch.rs:128-166 | while a task is unfinished some step is possible |
| GlobLike.GlobToLike | crates/zrag-store/src/chunks_table.rs:683-718 | there is no pattern exactly if the glob holds a quote, backslash, percent or underscore; otherwise the pattern is the token-wise translation |
| GlobLike.PatternIsLoose | crates/zrag-store/src/chunks_table.rs:683-718 | the pattern accepts, as LIKE (section 8.5 of ISO/IEC 9075-2), exactly the glob's paths when wildcards may cross `/` and `**/` is any run |
| GlobLike.GlobSurvivesFilter | crates/zrag-store/src/chunks_table.rs:541-568 | every relative path the glob accepts satisfies the filter under any root |
| GlobLike.FilterMeaning | crates/zrag-store/src/chunks_table.rs:541-568 | exactly which stored paths pass: those with a suffix behind a slash that the loose glob accepts |
| GlobLike.StarCrossesSlashes | crates/zrag-store/src/chunks_table.rs:683-718 | every path with a slash passes the filter of the glob `*`, which does not match it |
| SearchFilter.BuildLangPathFilter | crates/zrag-store/src/chunks_table.rs:541-568 | the text built is that of the conditions meant, and if no language holds a quote, the rows it selects once read are exactly those asked for |
| SearchFilter.ConjunctsMeanWanted | crates/zrag-store/src/chunks_table.rs:541-568 | a row passes all conditions exactly if its language is asked for, its path passes the glob if that translates, and it is no test unless tests are included |
| SearchFilter.TextReadsBack | crates/zrag-store/src/chunks_table.rs:541-568 | the text of a search reads back (section 8.4 of ISO/IEC 9075-2 for the list) as the conditions meant if and only if no requested language holds a quote |
| SearchFilter.ApostropheBreaksTheText | crates/zrag-store/src/chunks_table.rs:552-559 | with a quote inside a name, as in o'caml, the text cannot be read |
| SearchFilter.QuotesReadAsTwoNames | crates/zrag-store/src/chunks_table.rs:552-559 | a name that spells the end of one literal and the start of another reads as two names |
| SearchFilter.PatternReadsBack | crates/zrag-store/src/chunks_table.rs:560-566 | the pattern needs no escaping inside its quotes: the literal reads back as itself |
| DeleteFilter.FilePathDeleteFilters | crates/zrag-store/src/delete_filter.rs:11-35 | parsing the predicates gives back the input paths in order, and each is at most 8192 bytes long unless it names one path |
| DeleteFilter.ParseAllFilters | crates/zrag-store/src/delete_filter.rs:11-44 | any predicates rendered from groups of paths parse back to the groups joined, with doubled-quote literals (section 5.3 of ISO/IEC 9075-2) |
| Walker.WalkState.PushScope | crates/zrag-ts-core/src/walker.rs:60-75 | enters a scope and remembers the length of the qualifier before it |
| Walker.WalkState.PopScope | crates/zrag-ts-core/src/walker.rs:77-89 | undoes it: stack, qualifier and both depths are back |
| Walker.WalkState.CollectEdges | crates/zrag-ts-core/src/walker.rs:511-566 | the edges below a node, down to the next symbol nodes, charged to the given id |
| Walker.WalkState.WalkNode | crates/zrag-ts-core/src/walker.rs:159-370 | the walk leaves every part of the scope state as it found it at every node, and produces what the scope-passing specification produces; what its symbols say is the subject of the `SymbolLaws` rows |
| Walker.ParseFile | crates/zrag-ts-core/src/walker.rs:17-43 | the symbols and edges of a file are those of the specification walk |
| Walker.QualifierIsJoin | crates/zrag-ts-core/src/walker.rs:60-75 | the qualifier is the `::`-join of the scope names exactly unless the outermost of several is empty, and then it is shorter |
| Walker.UnnamedOuterScope | crates/zrag-ts-core/src/walker.rs:60-75 | the walk of an impl block without a type name: its function is not qualified by the join |
| WalkerLaws.WalkIsDense | crates/zrag-ts-core/src/walker.rs:105-113 | ids are given out densely in preorder and a symbol's parent has a smaller id |
| SymbolLaws.ParentIsNearest | crates/zrag-ts-core/src/walker.rs:91-107 | the parent of a symbol is the symbol of the nearest node above it that was made into one, or that a transparent scope above it reopened; it has none exactly if there is no such node |
| SymbolLaws.QualifiedNameIsJoin | crates/zrag-ts-core/src/walker.rs:60-75 | its qualified name is the `::`-join of the scope names of the symbol nodes above it and its own name, exactly unless the outermost of them is empty |
| SymbolLaws.SymbolDescribesNode | crates/zrag-ts-core/src/walker.rs:185-353 | its lines, name and kind are those of its node; a function below a type is a method, an arrow function bound to a constant a function, and an impl block is named after its type and trait |
| SymbolLaws.HasSymbolIff | crates/zrag-ts-core/src/walker.rs:159-370 | a node has a symbol exactly if no node above it was left out for its name and it may have one: constants below functions and instance fields of types may not |
| ScopeLaws.SymbolsAreExplained | crates/zrag-ts-core/src/walker.rs:159-370 | every symbol of a file was made for the last node of a path from the root, in the scope that the nodes above it opened |
| WalkerLaws.OneEdgePerNode | crates/zrag-ts-core/src/walker.rs:518-566 | each node of a file yields at most one call edge and at most one reference edge |
| EdgeLaws.OneEdgeIffSymbolAbove | crates/zrag-ts-core/src/walker.rs:511-566 | a call with a callee, or a reference, becomes exactly one edge if the nearest symbol node above it was made into a symbol, and none otherwise |
| EdgeLaws.PlainCall | crates/zrag-ts-core/src/walker.rs:518-580 | a call of a plain name is an edge to that name, on the line of the call |
| EdgeLaws.MemberCall | crates/zrag-ts-core/src/walker.rs:568-590 | a call of a member is an edge to the name of the member |
| EdgeLaws.GenericCall | crates/zrag-ts-core/src/walker.rs:568-590 | a call with type arguments is an edge to the name in front of them |
| EdgeLaws.Reference | crates/zrag-ts-core/src/walker.rs:518-566 | a reference is an edge to its text, on its line |
| WalkerLaws.FileWalkLaws | crates/zrag-ts-core/src/walker.rs:17-370 | symbols[k].id is the start id plus k, and each edge comes from the nearest enclosing symbol node of the node it was read from |
| WalkerLaws.FileIndexes | crates/zrag-ts-core/src/walker.rs:340-353 | every symbol of the walk carries the index of its file |
| SymbolIndex.BuildQualifiedMap | crates/zrag-dsl/src/index.rs:396-425 | the map holds exactly the claimed keys, each with the smallest id that claims it |
| SymbolIndex.BareKeysAreUnique | crates/zrag-dsl/src/index.rs:404-416 | a key without `::` is present only if exactly one symbol has that name, and leads to it |
| SymbolIndex.UniqueIsOne | crates/zrag-dsl/src/index.rs:403-422 | a name counts as unique exactly if one symbol has it and no other does |
| SymbolIndex.AliasesAre | crates/zrag-dsl/src/index.rs:341-394 | the further keys of a symbol are exactly its name behind its file, its qualified name behind its directories, with and without the file, and behind its crate path |
| SymbolIndex.ResolveEdges | crates/zrag-dsl/src/index.rs:427-456 | in place, each edge keeps source, kind and line; the name is looked up, with `crate`, `self` and `super` replaced by the module path they stand for, first in the map, then by the import of the file and by the import with the name behind it, then as the first symbol of that name in the file, then by the leaf of a path into a crate of the project, and is external exactly if all of these fail |
| SymbolIndex.LookupIsLookedUp | crates/zrag-dsl/src/index.rs:477-534 | what becomes of a name that starts with `crate`, `self` or `super` in a Rust file of a known crate; every other name stays as it is |
| SymbolIndex.ResolveLinks | crates/zrag-dsl/src/index.rs:440-456 | the steps of the resolution are taken in this order, and each leads where it says |
| SymbolIndex.BuildForwardEdges | crates/zrag-dsl/src/index.rs:602-611 | an order-preserving grouping of all edges by source |
| SymbolIndex.BuildReverseEdges | crates/zrag-dsl/src/index.rs:583-600 | an order-preserving grouping of the transposed resolved edges |
| SymbolIndex.FromInOrder | crates/zrag-dsl/src/index.rs:583-611 | a group holds the edges of its source, all of them, in the order of the list |
| SymbolIndex.TransposeInOrder | crates/zrag-dsl/src/index.rs:583-600 | the reversed edges stand in the order of the originals, source and target exchanged, with kind and line kept |
| SymbolIndex.TransposeIsExact | crates/zrag-dsl/src/index.rs:583-600 | each reversed edge occurs as often as the original |
| SymbolIndex.ReverseMirrorsForward | crates/zrag-dsl/src/index.rs:583-611 | a call is in the forward lists exactly as often as in the reverse lists |
| SymbolIndex.ParseSources | crates/zrag-dsl/src/index.rs:106-142 | the sources that parse come in order, each with its whole walk, numbered from where the ones before left off, and nothing else |
| SymbolIndex.BuildIndexFromSources | crates/zrag-dsl/src/index.rs:106-164 | across all files symbols[i].id is i, files, symbols and edges are those of the sources that parsed, and maps, edges and groupings satisfy all of the above together |
| PdfTokens.ParseLiteral | crates/zrag-pdf/src/tokenizer.rs:50-143 | the loop refines the specification of literal strings, for every input |
| LiteralStandard.ReadsAsStandard | crates/zrag-pdf/src/tokenizer.rs:50-143 | a literal reads as section 7.3.4.2 of ISO 32000-1 reads it if and only if no token in it offends, unless its first offence is a dropped escape with a raw CR LF behind it |
| LiteralStandard.SameEnd | crates/zrag-pdf/src/tokenizer.rs:50-143 | whatever the bytes, the literal closes where the standard closes it |
| LiteralStandard.TokenCases | crates/zrag-pdf/src/tokenizer.rs:56-122 | a token that does not offend reads alike; one that does differs in its first byte, or is dropped where the standard reads something |
| LiteralStandard.RawCarriageReturn | crates/zrag-pdf/src/tokenizer.rs:136-139 | a raw carriage return is kept |
| LiteralStandard.RawCarriageReturnLineFeed | crates/zrag-pdf/src/tokenizer.rs:136-139 | so are both bytes of a raw CR LF |
| LiteralStandard.DigitAboveSeven | crates/zrag-pdf/src/tokenizer.rs:102-117 | the digits 8 and 9 count as octal digits |
| LiteralStandard.OctalOverflow | crates/zrag-pdf/src/tokenizer.rs:102-117 | every octal value above 255 is dropped, where the standard drops its high bit |
| LiteralStandard.UnknownEscape | crates/zrag-pdf/src/tokenizer.rs:118-120 | every escape that is none loses its character |
| LiteralStandard.TwoOffencesCancel | crates/zrag-pdf/src/tokenizer.rs:102-139 | an input on which two offences make up for each other |
| LiteralStandard.BalancedReads | crates/zrag-pdf/src/tokenizer.rs:123-135 | balanced parentheses without escapes read as themselves, nested to any depth |
| PdfTokens.EscapedRoundTrip | crates/zrag-pdf/src/tokenizer.rs:50-143 | every byte string survives its escaped form, in any context (section 7.3.4.2 of ISO 32000-1) |
| PdfTokens.OctalRoundTrip | crates/zrag-pdf/src/tokenizer.rs:50-143 | every byte string survives its all-octal form, in any context |
| PdfTokens.ParseHex | crates/zrag-pdf/src/tokenizer.rs:148-172 | the loop refines the specification of hexadecimal strings, for every input |
| PdfTokens.HexReads | crates/zrag-pdf/src/tokenizer.rs:148-172 | a hexadecimal string is its digits paired high first, an odd last one padded with zero, everything else ignored |
| PdfTokens.HexRoundTrips | crates/zrag-pdf/src/tokenizer.rs:148-172 | every byte string survives every spelling of its digits, in any context (section 7.3.4.3 of ISO 32000-1) |
| PdfTokens.HexFormSpells | crates/zrag-pdf/src/tokenizer.rs:38-45 | the plain upper-case form is such a spelling |
| PdfTokens.WhitespaceIsIgnored | crates/zrag-pdf/src/tokenizer.rs:148-172 | white space anywhere in a spelling never matters |
| PdfInterp.Interp.Emit | crates/zrag-pdf/src/interpreter.rs:114-128 | appends one run at the current position whose slice is what was decoded, and uses up the pending line break |
| PdfInterp.Interp.Op | crates/zrag-pdf/src/interpreter.rs:131-234 | the new text state, runs and arena after each operator, with all operand checks; what each operator does to the text shown behind it is the subject of the `PageLaws` rows |
| PdfInterp.CollapseTop | crates/zrag-pdf/src/interpreter.rs:281-300 | replaces the operands since the last `[`, or all of them, by their strings joined in order |
| PdfInterp.InterpretRuns | crates/zrag-pdf/src/interpreter.rs:238-353 | the byte loop refines the token-by-token specification and advances on every iteration of every input |
| PdfLaws.PageIsTiled | crates/zrag-pdf/src/interpreter.rs:114-128 | the run slices tile the arena, first to last, on every page |
| PdfLaws.ReachableIsGood | crates/zrag-pdf/src/interpreter.rs:98-110 | in every state between two tokens the shown position is the line position, and slices tile what is decoded so far |
| PdfLaws.TStarIsTd | crates/zrag-pdf/src/interpreter.rs:204-210 | `T*` equals `0 -lead Td` exactly if a break is pending or the leading passes the threshold (outside text objects: if the leading is zero) |
| PdfLaws.TStarBreaksWithoutLeading | crates/zrag-pdf/src/interpreter.rs:204-210 | a reachable state in which `T*` and `0 -lead Td` differ |
| PdfLaws.QuoteIsTStarThenShow | crates/zrag-pdf/src/interpreter.rs:216-223 | `'` equals `T*` then `Tj` exactly if x is at the line start, which it is in every reachable state |
| PdfLaws.NothingShownWithoutBegin | crates/zrag-pdf/src/interpreter.rs:131-353 | from outside a text object, any stretch of a stream without the word `BT` shows nothing |
| PdfLaws.CloseJoins | crates/zrag-pdf/src/interpreter.rs:281-300 | a closing bracket joins exactly the strings since its opening one and leaves what lies below |
| PdfLaws.EscapedIsShown | crates/zrag-pdf/src/interpreter.rs:257-261 | an escaped literal in front of `Tj` shows exactly its bytes, from any state inside a text object |
| PdfLaws.HexIsShown | crates/zrag-pdf/src/interpreter.rs:262-272 | and so does a hexadecimal string in every spelling |
| PageLaws.MatrixPlaces | crates/zrag-pdf/src/interpreter.rs:156-169 | six numbers and `Tm`: the text shown next is one run at exactly the fifth and sixth, on a new line exactly if a break was pending or it lies more than 0.3 sizes below the line before |
| PageLaws.FontSizes | crates/zrag-pdf/src/interpreter.rs:145-155 | a name, a number and `Tf`: the text shown next is decoded under that font and has that size, where it would have stood anyway |
| PageLaws.MoveMoves | crates/zrag-pdf/src/interpreter.rs:170-184 | two numbers and `Td`: the text shown next stands that far from the start of the line, and breaks the line exactly if a break was pending or it goes down more than 0.3 sizes |
| PageLaws.MovesAddUp | crates/zrag-pdf/src/interpreter.rs:170-184 | two moves add up, whatever was shown between them |
| PageLaws.EndBreaks | crates/zrag-pdf/src/interpreter.rs:141-144 | text in the next text object behind `ET` starts a line, at the origin |
| PageLaws.BeginStarts | crates/zrag-pdf/src/interpreter.rs:134-140 | `BT` puts the text shown next at the origin and leaves a pending break as it was |
| PageLaws.LeadLeads | crates/zrag-pdf/src/interpreter.rs:199-210 | a number, `TL` and `T*`: the text shown next stands that far below, at the start of the line, and breaks it |
| PageLaws.MoveAndLeadRepeats | crates/zrag-pdf/src/interpreter.rs:185-198 | `TD` moves, and makes the next `T*` move down as far again |
| PageLaws.ArrayShows | crates/zrag-pdf/src/interpreter.rs:211-215 | an array of strings and numbers in front of `TJ` shows its strings joined in order, as one run, where it would have stood anyway |
| PageLaws.TooFewOperands | crates/zrag-pdf/src/interpreter.rs:131-234 | an operator with fewer numbers than it takes changes nothing |
| PageLaws.SpelledLexes | crates/zrag-pdf/src/interpreter.rs:238-353 | a token as written reads back as itself in front of a blank, wherever it stands |
| PageLaws.CommentIsSkipped | crates/zrag-pdf/src/interpreter.rs:238-353 | a comment stands for nothing, up to the end of its line |
| PageLaws.MatrixOnStream | crates/zrag-pdf/src/interpreter.rs:131-353 | the same as for `Tm` above on the bytes of the stream, with blanks and comments between the words |
| Matrices.ClusterRows | crates/zrag-pdf/src/mathrec.rs:238-269 | the rows are those of the specification: runs sorted by y, cut where a gap passes half the median large gap |
| Matrices.RowsPartitionBody | crates/zrag-pdf/src/mathrec.rs:238-269 | every run of the body is in exactly one row, exactly once; rows follow the y order and break exactly at the gaps that pass the tolerance |
| GridLaws.ToleranceIsHalfMedian | crates/zrag-pdf/src/mathrec.rs:242-252 | the tolerance is half the median of the drops of more than 3 between neighbours by y, the upper one of two, and there is none without any |
| GridLaws.TiesKeepOrder | crates/zrag-pdf/src/mathrec.rs:238-240 | runs at the same position keep their order |
| MatrixGrid.AcceptsUniform | crates/zrag-pdf/src/mathrec.rs:175-201 | the divisibility and length tests accept exactly the bodies whose rows all have the same positive number of digits |
| MatrixGrid.BuildCells | crates/zrag-pdf/src/mathrec.rs:202-215 | each cell is its digit's text behind one minus for each sign that belongs to it; which those are, by position, says `GridLaws.SignsBelongToCells` |
| MatrixGrid.SignColumn | crates/zrag-pdf/src/mathrec.rs:205-215 | a sign belongs to the first digit that is not left of it |
| GridLaws.SignsBelongToCells | crates/zrag-pdf/src/mathrec.rs:170-218 | in an accepted matrix the minus signs in front of the text of a cell are as many as the empty runs of its row right of the digit before, if there is one, and not right of its own digit |
| GridLaws.LayoutIsSorted | crates/zrag-pdf/src/mathrec.rs:189-204 | the digits of a row stand in its cells by rising x, and are the digits of that row |
| MatrixGrid.FromBody | crates/zrag-pdf/src/mathrec.rs:170-218 | there is a matrix exactly for uniform bodies, and it is the grid of the specification |
| MatrixGrid.EachDigitOnce | crates/zrag-pdf/src/mathrec.rs:189-204 | every digit run fills exactly one cell, and nothing else fills any |
| MatrixGrid.GridIsRectangular | crates/zrag-pdf/src/mathrec.rs:170-218 | an accepted matrix is rectangular, and each cell is the text of its digit behind minus signs only |
| MathRegions.ClassifySpells | crates/zrag-pdf/src/mathrec.rs:148-165 | a stack is a left fence exactly if it spells 0B*@ by rising y, and a right one exactly if it spells 1C*A |
| MathRegions.Fences | crates/zrag-pdf/src/mathrec.rs:120-145 | the nested scan finds the fences of the specification |
| MathRegions.FencesAreReal | crates/zrag-pdf/src/mathrec.rs:120-145 | fences are maximal same-column stacks, in range, in order and disjoint |
| MathRegions.FencesAreAll | crates/zrag-pdf/src/mathrec.rs:120-145 | no stack is missed: wherever one starts, some fence covers that run |
| FenceLaws.FenceIsStretch | crates/zrag-pdf/src/mathrec.rs:120-165 | a run starts a fence exactly if the longest stretch of runs within 2 units of it spells one, and the fence is that stretch |
| FenceLaws.StackOrder | crates/zrag-pdf/src/mathrec.rs:148-153 | a stack is read by rising y, each run once |
| FenceLaws.ReadsAlong | crates/zrag-pdf/src/mathrec.rs:148-157 | what it spells is the text of its runs, one after the other in that order |
| MathRegions.Detect | crates/zrag-pdf/src/mathrec.rs:87-116 | each region is a left fence and the very next fence, a right one, around an accepted matrix, and all such pairs are regions |
| FenceLaws.RegionsArePairs | crates/zrag-pdf/src/mathrec.rs:87-116 | the regions are exactly those between a left fence and the very next fence, a right one, around runs that make a matrix; each has the size of the first run inside and the drawing of that matrix |
| MathRegions.RegionsAreOrdered | crates/zrag-pdf/src/mathrec.rs:85-116 | regions are in range, sorted and disjoint |
| Assemble.AssembleLines | crates/zrag-pdf/src/interpreter.rs:359-423 | the loop with its peeked regions renders the events of the page in order |
| Assemble.EventsAreExact | crates/zrag-pdf/src/interpreter.rs:371-385 | each region block is emitted exactly once and in order, and so is each run outside all regions |
| Assemble.EventsInPageOrder | crates/zrag-pdf/src/interpreter.rs:371-385 | blocks and runs together stand in strictly increasing page positions, a block where its first run was |
| Assemble.PageInk | crates/zrag-pdf/src/interpreter.rs:359-447 | apart from blanks, control characters and script markers, the lines carry the text of every block and of every run outside the regions, once, interleaved in page order, and no other |
| LineLaws.BreaksSeparate | crates/zrag-pdf/src/interpreter.rs:359-423 | a run behind a line break, and a block, share no line with anything before them |
| LineLaws.BlockIsALine | crates/zrag-pdf/src/interpreter.rs:371-385 | a block stands on a line of its own, with its own text and size |
| LineLaws.PairOnLine | crates/zrag-pdf/src/interpreter.rs:386-420 | a smaller run behind the one that starts the line is marked `^` if it is raised and `_` if it is lowered by more than 0.05 sizes; any other is set off by a blank if it stands further right than a quarter of its size |
| LineLaws.ScriptMarkedOnce | crates/zrag-pdf/src/interpreter.rs:386-420 | a further run of the same script gets no second mark |
| LineLaws.PushedText | crates/zrag-pdf/src/interpreter.rs:438-447 | glyphs are appended without control characters and without a blank behind a blank |
| LineLaws.PlainTextIsKept | crates/zrag-pdf/src/interpreter.rs:438-447 | text without blanks and control characters is appended as it is |
| Assemble.Rewrite | crates/zrag-pdf/src/mathrec.rs:75-78 | the same for a page with the regions detected on it |
| Packing.GreedyIsMinimal | crates/zrag-dsl/src/chunking.rs:256-286 | no cut into consecutive groups that fit or hold one item has fewer groups than the greedy one, for any fit that survives shrinking |
| Packing.GroupsTile | crates/zrag-dsl/src/chunking.rs:256-286 | the groups put back together are the items |
| Tabular.ChunkTabularFile | crates/zrag-dsl/src/chunking.rs:243-295 | the chunks are the greedy groups of the non-empty lines behind the header, each with its first and last line number and its rows joined by line feeds |
| Tabular.RowsAreTrue | crates/zrag-dsl/src/chunking.rs:251-263 | every record carries its true line number in the file |
| RowLaws.RecordStarts | crates/zrag-dsl/src/chunking.rs:251-256 | a record starts exactly behind each line feed at which no line ends at once: the header and empty lines are left out |
| RowLaws.RecordsRun | crates/zrag-dsl/src/chunking.rs:251-256 | records are in the order of the text and each runs up to the first place at which a line ends, a line feed or a carriage return with one behind it |
| RowLaws.RowInBody | crates/zrag-dsl/src/chunking.rs:264-284 | each row of a chunk stands in its body behind the rows before it, with a line feed in front of it |
| Tabular.ChunkLinesAreTrue | crates/zrag-dsl/src/chunking.rs:220-232 | a chunk starts and ends on the true lines of its first and last record, and keeps to the byte target unless it is one record |
| Tabular.TabularIsMinimal | crates/zrag-dsl/src/chunking.rs:243-295 | all records once, in order, in as few chunks as any packing that keeps to the target |
| RemoteBatches.SplitRanges | crates/zrag-remote-embed/src/engine.rs:104-118 | the ranges are the greedy cut under the item cap and the character cap |
| RemoteBatches.RequestsKeepCaps | crates/zrag-remote-embed/src/engine.rs:104-118 | each request holds at most as many texts as the provider takes, and 80000 characters unless it is a single text, and would pass a cap with the next text |
| RemoteBatches.SplitIsMinimal | crates/zrag-remote-embed/src/engine.rs:104-118 | the ranges tile the texts in order, and no split under both caps needs fewer requests |

## Left out

- The embedding model, the vector store, HTTP, sockets, the command line, the protocol server and the site are not modelled; the two tables are a map and a sequence of rows, the embedder is a function of a text.
- Syntax trees and separator matches are given: nested, ordered child spans whose root covers all non-blank text, and ordered, disjoint, non-empty matches.
- UTF-8 decoding is reduced to one flag a byte for the start of a character and one for white space.
- Machine widths: text length times 512, line numbers, symbol ids and arena offsets are taken to fit their types; the `usize::MAX` sentinel of the inner syntax level is an option type, and the saturation of the literal nesting depth is not modelled.
- Chunker.FinishChunks: with overlap, optimality of the whole chunking and monotone chunk starts are not claimed, because the code guarantees neither; the refinement of the heap and the sharing bound are.
- IndexRun.RunKeepsInv: which chunk rows a deletion removes is left open within the listed files, because rows are stored under the absolute path and deleted by the relative one; that no stale or doubled rows remain is not claimed.
- IndexProject.PlanAndDelete: the two deletes are one step; a failure between them is not modelled.
- IndexProject.EmbedAll: the guard against a complete run without a single embedding can never act, since such a run has committed the whole queue; it is not modelled.
- EmbedLoop.EmbedBatch: a reply of the right length is taken to hold the right embeddings; a failing, dropped or short reply ends the run.
- Watch.NoEditIsLost: a failing run is not started again by itself, and a task that panics or is aborted by hand is not modelled.
- Appendix.AppendixOf: the cached reuse of results between symbols is not modelled.
- GlobLike.GlobToLike: brackets and braces are literals for the translation, and so they are in the meaning of globs used here.
- SearchFilter.TextReadsBack: the reader knows the three kinds of condition joined by AND, not all of SQL.
- SymbolIndex.BuildQualifiedMap: how aliases are read off a path is given by the file entry; signatures, doc texts and base classes of symbols are not modelled.
- WalkerLaws.FileWalkLaws: asks that the language table list its impl node among its symbol nodes, as every table in the repository does.
- LiteralStandard.ReadsAsStandard: says nothing about equality when the first offence is a dropped escape and a raw CR LF comes later; the readings can coincide there, as `LiteralStandard.TwoOffencesCancel` shows.
- PdfInterp.InterpretRuns: numbers are reals without infinities and not-a-number, and parsing a number and checking UTF-8 are given functions.
- MatrixGrid.FromBody: page text is indexed by character, and the drawing of the matrix as box art and LaTeX is a given function of the grid.
- RemoteBatches.SplitRanges: sending the requests concurrently and collecting replies in order is not modelled.
- Page numbering and packing of PDF files, search, ranking, method selection, batch-size heuristics and language tables would only add easy members or floating point.
