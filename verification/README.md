# Verified models of the paper library

A Dafny model of the parts of the passagen backend whose behaviour is decided by its own code: how
papers are cut into chunks, how generation and update runs survive crashes, how citations are cached
and keyed, how syntheses are packed, mapped and reduced, how evidence is merged and sections are
selected, and how papers are deleted. `dafny verify dfyconfig.toml` checks everything.

Language models, the DOI service, the file system, other sessions and the scheduler are
nondeterministic: wherever the source calls one of them, the model takes an arbitrary value, or lets
the call fail. Database transactions are single assignments of a field; a rolled-back transaction
leaves the field alone.

| module | what it models |
|---|---|
| Seqs, Text, Budget | shared outcome types and list functions, whitespace and splitting, the token estimate |
| ChunkText, Chunking, Chunks, ChunkBounds, ChunkLimit | the semantic chunker: rendering, cutting into units, grouping, overlap, size bounds and when the limit is kept |
| Packing, Synthesis | the greedy packer and the map/reduce synthesis built on it |
| GenerationTables, GenerationProtocol, GenerationStore, GenerationService | answer, synthesis and report runs: transactions, the protocol with crash points, the tables updated in place, and the service whose executors follow the protocol |
| UpdateRuns, UpdatePipeline | batch update runs and their exclusivity; the stages of an update, status and artifacts |
| Bibtex, CitationKeys, CitationStore | the BibTeX printer and its readers, key allocation, the citation cache |
| LikeEscape, SummaryPath, InvertedIndex | matchers and parsers against a simple meaning |
| AnswerCitations | the citations of an answer against the snapshot and the loaded evidence |
| Evidence, Retrieval | evidence merging and two-pass section selection |
| Collections, Deletion | positions in collections; deletion of a paper with its files |

## Where the code differs from its own description

- `build_chunks` says every chunk stays within the limit. With given titles and pages it keeps that on
  every text exactly when no section whose header leaves room for text has an overlap to bear or a header
  probe whose length leaves a remainder of 3 or 0 modulo 4 (`ChunkLimit.LimitKeptIff`); in every other
  case a paper is built on which `build_chunks` itself exceeds the limit (`ChunkLimit.BreakLimit`). A
  chunk of 10 with a limit of 9 is `ChunkLimit.LimitExceededExample`; a second chunk of 11 with a limit
  of 10, from its overlap alone, is `ChunkLimit.OverlapExceededExample`. The true bounds are L+1, and
  2L - 5 with overlap (`ChunkBounds.ChunkBound`).
- The overlap takes fewer paragraphs than wanted and available exactly when the slice start is negative
  and short of the list (`Chunks.SeedTakesWhatIsWantedIff`).
- `execute_report` does not look at the status of its run; it keeps ended runs and reports as they are
  exactly when the run is still active (`GenerationProtocol.ExecuteReportKeepsTerminalIff`), and so does
  `execute_synthesis_run` (`GenerationProtocol.ExecuteSynthesisKeepsTerminalIff`). `finish_run` of update
  runs does not look at it either; it keeps finished runs exactly when it is given an active run, or
  writes the status, result, error and finish time that the row already has
  (`UpdateRuns.FinishKeepsFinishedIff`, `UpdateRuns.FinishedAgainExample`).
- `_select` can return a row once in each pass (`Retrieval.RepeatsExactly`, `Retrieval.BestRowRepeatsIff`,
  `Retrieval.RepeatExample`). When the token budget does not bind it does so exactly when there are rows
  and the papers' shares under the soft cap do not fill the section limit (`Retrieval.GenerousRepeatsIff`).
- The BibTeX escapes balance braces as TeX reads them. A reader that counts raw braces, as BibTeX does,
  sees a balanced field exactly when the braces of the text itself are balanced (`Bibtex.RawBalancedIff`,
  `Bibtex.OpenBraceExample`).

## Assumptions about the surroundings

- One executor owns a generation run, and recovery runs only when the process starts: the methods of
  `GenerationService.Dispatcher` take a run that nobody else executes, and `execute_report` and
  `execute_synthesis_run`, which do not look at the status, one that has not ended.
- A caption line has at least four characters: a word and a digit (used for `ChunkLimit.LimitKeptIff` only).
- `start_update` is called on one service object, so that its lock covers the check and the creation;
  `UpdateRuns.UnlockedCreationIff` says what happens otherwise. Runs are interrupted only at startup.
- At most one citation call for a paper runs at a time; citations of other papers and all metadata may
  change between any two transactions of a call. Papers that are deleted meanwhile do not come back.
- The digest is any function to 64 hex digits, the readable base of a key is any text without commas and
  whitespace, and time never goes backwards.
- A trash directory has a fresh name: no file and no artifact path lies under it before a deletion.

## Model

| member | source | states |
|---|---|---|
| Budget.QuarterTokens | src/passagen/providers/budget.py:29-30 | with four characters a token, a text is within n tokens iff it has at most 4n characters |
| Text.SplitConserves | src/passagen/stages/summarization/chunking.py:126-155 | splitting at blank lines or after sentences loses only whitespace |
| Text.SplitLeavesNoBlankLine | src/passagen/stages/summarization/chunking.py:126 | no part of a paragraph split contains a blank line |
| Text.SplitIsTheParting | src/passagen/stages/summarization/chunking.py:14-15 | a list of pieces is the split of a text iff the text is these pieces with gaps between them, where a gap is a whole blank line, or all the whitespace behind `.`, `!` or `?`, and no piece holds a separator |
| Text.PartsUnbroken | src/passagen/stages/summarization/chunking.py:126-155 | no piece of a sentence split has whitespace behind `.`, `!` or `?`, and every piece but the last ends in one of them |
| Chunking.FitPrefix | src/passagen/stages/summarization/chunking.py:195-203 | the binary search ends at a boundary: the prefix fits and one more character does not; for a monotone measure it is the longest fitting prefix |
| Chunking.HardSplitUnits | src/passagen/stages/summarization/chunking.py:177-192 | terminates; each cut is the boundary prefix or the forced one, the longest prefix that fits under the token estimate, and the pieces hold all non-whitespace characters in order |
| Chunking.HardSplitIsLongest | src/passagen/stages/summarization/chunking.py:177-203 | under the token estimate every hard cut is the longest fitting prefix of what is left, or the forced single character |
| Chunking.GlueConserves | src/passagen/stages/summarization/chunking.py:124-141 | gluing captions to the following paragraph loses no text |
| Chunking.GluedParagraphs | src/passagen/stages/summarization/chunking.py:124-141 | the loop computes the gluing and the text without whitespace is that of the section |
| Chunking.ParagraphUnits | src/passagen/stages/summarization/chunking.py:144-174 | a paragraph that fits is one unit; any other is cut into runs of whole sentences, joined by blanks, that fit and had no room for the next sentence, and sentences that do not fit alone, cut by force; the units hold its text in order |
| Chunking.UnitsAreSentenceRuns | src/passagen/stages/summarization/chunking.py:154-174 | when every sentence of a long paragraph fits alone, each unit is a run of whole sentences, greedily packed, so none ends inside a sentence |
| Chunking.FewestSentenceUnits | src/passagen/stages/summarization/chunking.py:154-174 | under the token estimate no other grouping of consecutive sentences into fitting units has fewer units |
| Chunking.SectionUnits | src/passagen/stages/summarization/chunking.py:110-120 | a section's units are those of its glued paragraphs, in order, under the section's own title and pages; they hold exactly its text and leave room for the header |
| Chunking.PaperUnits | src/passagen/stages/summarization/chunking.py:103-121 | fails iff the header of a section with text uses up the limit; otherwise the units are those of the sections in order |
| Chunking.PaperCutConserves | src/passagen/stages/summarization/chunking.py:103-121 | the units of a paper hold the text of all its sections in order and leave room for their headers |
| Chunking.UnitHasSection | src/passagen/stages/summarization/chunking.py:103-121 | every unit carries the cleaned title and the pages of a section of the paper that its text is from |
| Chunks.GroupUnits | src/passagen/stages/summarization/chunking.py:64-75 | the groups are a greedy packing of the unit numbers |
| Chunks.SeedTakesWhatIsWantedIff | src/passagen/stages/summarization/chunking.py:80-81 | the overlap slice takes the paragraphs wanted or available iff its start is not negative or lies before the list |
| Chunks.BuildChunks | src/passagen/stages/summarization/chunking.py:39-100 | the exact error conditions; the units are the sections' paragraphs under their own titles and pages, chunk k is its overlap followed by group k, the groups are the numbers 0 to n-1 once each and in order, and no text is lost or invented |
| Chunks.ChunkContents | src/passagen/stages/summarization/chunking.py:88-99 | chunk k is numbered k+1, holds under its header the texts of its overlap and then of its group, in order, and lists their sections and pages once each |
| Chunks.OverlapIsLastParagraphs | src/passagen/stages/summarization/chunking.py:78-87 | the overlap are the last paragraphs of the previous group: those from the first repeated one on |
| ChunkText.RenderLength | src/passagen/stages/summarization/chunking.py:206-211 | the length of a rendered chunk in terms of its distinct titles, pages and bodies |
| ChunkText.RenderTogether | src/passagen/stages/summarization/chunking.py:206-211 | two groups rendered together are shorter than their separate renderings by at least the repeated header |
| ChunkText.RenderMonotone | src/passagen/stages/summarization/chunking.py:206-211 | a run of units renders no longer than a run that contains it |
| ChunkBounds.ChunkBound | src/passagen/stages/summarization/chunking.py:53-100 | the true size of a chunk: L+1, L with two or more units, 2L-5 with overlap |
| ChunkBounds.EveryChunkBounded | src/passagen/stages/summarization/chunking.py:39-100 | the bound for every chunk that is returned: L+1 without overlap, 2L-5 with it |
| ChunkBounds.OneUnitWithinLimitIff | src/passagen/stages/summarization/chunking.py:115-120 | a unit that leaves room for its header renders within the limit, whatever its text, iff the header probe has 1 or 2 characters modulo 4 |
| ChunkBounds.WholeGroupOverlapExceeds | src/passagen/stages/summarization/chunking.py:79-87 | a chunk whose overlap is the whole previous group exceeds the limit |
| ChunkBounds.FewestChunks | src/passagen/stages/summarization/chunking.py:64-75 | no other grouping of consecutive units into fitting groups has fewer groups |
| ChunkLimit.LimitKeptIff | src/passagen/stages/summarization/chunking.py:39-100 | with given titles and pages every chunk of every text is within the limit iff every section whose header leaves room has no overlap to bear and a header probe of 1 or 2 characters modulo 4 |
| ChunkLimit.BreakLimit | src/passagen/stages/summarization/chunking.py:39-100 | wherever that condition fails, a paper with those titles and pages for which `build_chunks` returns a chunk beyond the limit |
| ChunkLimit.LimitExceededExample | src/passagen/stages/summarization/chunking.py:39-100 | a paper of four characters whose only chunk measures 10 with a limit of 9 |
| ChunkLimit.OverlapExceededExample | src/passagen/stages/summarization/chunking.py:79-100 | a paper of two short paragraphs whose second chunk, with its overlap, measures 11 with a limit of 10 |
| Packing.Pack | src/passagen/research/synthesis.py:364-386 | non-empty fitting batches that concatenate to the input, none of which had room for the next document; fails only for a document that does not fit alone |
| Packing.PackedSinglesFit | src/passagen/research/synthesis.py:364-386 | whatever can be packed at all has no document too large alone, so failure is exact |
| Packing.GreedyIsOptimal | src/passagen/research/synthesis.py:364-386 | no contiguous split into fitting batches uses fewer batches |
| Synthesis.SourcesFitIsHereditary | src/passagen/research/synthesis.py:348-354 | a sublist of fitting sources fits, so the packing of sources is optimal |
| Synthesis.FitsIff | src/passagen/research/synthesis.py:752-756 | documents fit iff instructions, operation, schema and all documents together stay within four characters a token |
| Synthesis.PackSources | src/passagen/research/synthesis.py:348-354 | fails iff a source does not fit alone; otherwise non-empty fitting batches that concatenate to the sources, the fewest there can be |
| Synthesis.PackDocuments | src/passagen/research/synthesis.py:313-318 | refused iff a document does not fit alone or no two neighbours fit together; otherwise fitting groups that concatenate to the documents, the fewest there can be and fewer than documents |
| Synthesis.ValidatedCovers | src/passagen/research/synthesis.py:447-500 | a validated answer has exactly one role for each covered paper, names no other paper, cites covered papers only, with citations that resolve, and every matrix cell lists a citation of the paper of its row |
| Synthesis.RequestSynthesis | src/passagen/research/synthesis.py:397-445 | whatever the model replies, a returned document has the requested coverage, one role a paper, resolving citations of covered papers and grounded cells |
| Synthesis.GroupingKeepsIncluded | src/passagen/research/synthesis.py:320-329 | grouping documents keeps the concatenation of their covered papers |
| Synthesis.ReduceRound | src/passagen/research/synthesis.py:319-341 | a round gives one document a group, covering the same papers in the same order |
| Synthesis.ReduceBudgetClosedForm | src/passagen/research/synthesis.py:312-341 | the request budget of the reduce loop is m(m-1)/2 |
| Synthesis.Reduce | src/passagen/research/synthesis.py:287-346 | terminates within that budget and returns only the final coverage, with resolving citations and grounded cells |
| Synthesis.Generate | src/passagen/research/synthesis.py:242-285 | a returned synthesis has the requested coverage with one role for each included paper, resolving citations and grounded cells; the requests are bounded |
| GenerationProtocol.StepKeepsInv | src/passagen/assistant/repository.py:224-416 | every step of the service, every crash and every recovery keeps runs, answers, records and reports consistent |
| GenerationProtocol.ReachableInv | src/passagen/generation/__init__.py:64-91 | the invariant holds in every reachable state |
| GenerationProtocol.AnswerStatus | src/passagen/assistant/repository.py:335-416 | an answer is pending iff its run is active, completed iff the run completed with exactly one record, failed iff it failed or was interrupted |
| GenerationProtocol.ReportStatusMatches | src/passagen/research/repository.py:254-321 | a report is completed iff its run is; while the service is up it is failed iff its run failed or was interrupted |
| GenerationProtocol.TerminalForever | src/passagen/assistant/repository.py:321-416 | ended runs, answers, reports and records never change again |
| GenerationProtocol.RecoveryLeavesNothingActive | src/passagen/generation/__init__.py:87-91 | after recovery nothing is active, also when an earlier recovery died between its transactions |
| GenerationProtocol.ClaimedOnce | src/passagen/assistant/repository.py:281-304 | no run is claimed twice |
| GenerationProtocol.EndedOnce | src/passagen/assistant/repository.py:335-416 | a run is saved or failed at most once, through any crash and recovery |
| GenerationProtocol.ClaimedInOrder | src/passagen/assistant/repository.py:281-304 | when a run is claimed, no run submitted at an earlier time, or at the same time with a smaller identifier, is still queued |
| GenerationProtocol.ExecuteReportKeepsTerminalIff | src/passagen/research/reports.py:206-260 | executing a report run keeps everything ended iff the run is still active |
| GenerationProtocol.ExecuteSynthesisKeepsTerminalIff | src/passagen/research/synthesis.py:159-204 | executing a synthesis run keeps everything ended iff the run is still active |
| GenerationStore.Database.ClaimNextQueuedRun | src/passagen/assistant/repository.py:281-304 | the claimed run has the earliest creation time of all queued runs, and the smallest identifier among those of that time; None iff none is queued |
| GenerationStore.Database.SaveQaTurn | src/passagen/assistant/repository.py:355-416 | answer, record and run change together or not at all |
| GenerationStore.Database.SaveReportCompletion | src/passagen/research/repository.py:254-298 | report and run complete together or not at all |
| GenerationStore.Database.InterruptActiveRuns | src/passagen/generation/__init__.py:87-91 | completed recovery leaves consistent tables with nothing active; dying half way leaves a state it can start from again |
| GenerationService.OtherRunsStep | src/passagen/assistant/repository.py:281-416 | no step for one run touches the row, the owner, the answer or the report of another |
| GenerationService.Dispatcher.ExecuteTurn | src/passagen/assistant/service.py:317-361 | refused iff the run is missing or ended; otherwise its steps, all allowed by the protocol, are one start followed by one saved answer, one failure or giving up, beside other threads and up to the death of the process, and the rows are left accordingly |
| GenerationService.Dispatcher.ExecuteSynthesisRun | src/passagen/research/synthesis.py:159-204 | for a run that has not ended: one start and one end with the status it tells, or giving up |
| GenerationService.Dispatcher.ExecuteReport | src/passagen/research/reports.py:206-262 | for a run that has not ended: one start, one start of its report and one completion or failure of both together, or giving up |
| GenerationService.Dispatcher.ExecuteRun | src/passagen/generation/__init__.py:73-85 | the executor of the run's kind; whatever had ended before is kept |
| GenerationService.Dispatcher.Work | src/passagen/generation/__init__.py:64-85 | the queued run with the earliest creation time, then the smallest identifier, is claimed and executed and never refused; None iff nothing is queued |
| GenerationService.Dispatcher.StartProcess | src/passagen/generation/__init__.py:87-91 | after any earlier death of the process, recovery that ends leaves nothing active and what had ended as it was |
| Bibtex.UnescapeEscape | src/passagen/citations/__init__.py:425-435 | unescaping an escaped text gives the text back, for every text |
| Bibtex.EscapedTextIsBalanced | src/passagen/citations/__init__.py:425-435 | read as TeX reads it, escaped text leaves the braces of its field balanced |
| Bibtex.RawBalancedIff | src/passagen/citations/__init__.py:425-435 | counted as raw characters, the braces of an escaped text are balanced iff those of the text are |
| Bibtex.OpenBraceExample | src/passagen/citations/__init__.py:425-435 | a text with one opening brace, whose printed form is not balanced as raw characters |
| Bibtex.ReadPrintedValue | src/passagen/citations/__init__.py:283-286 | reading a printed field value stops at its closing brace and gives the value |
| Bibtex.EntryKeyReadsBack | src/passagen/citations/__init__.py:283-375 | the key read from a printed entry is the key that was printed |
| Bibtex.ReadPrintedFields | src/passagen/citations/__init__.py:263-286 | all fields of a printed entry can be read back |
| Bibtex.EntryDeterminesPaper | src/passagen/citations/__init__.py:256-286 | two printed entries are equal only with equal keys and equal fields |
| Bibtex.FieldsShowColumns | src/passagen/citations/__init__.py:263-282 | every column stands under its own name, and nothing stands under the name of an absent one |
| CitationKeys.CitationKey | src/passagen/citations/__init__.py:289-318 | the key of the first digest length at which it is unoccupied and nobody else's; none iff there is no such length |
| CitationKeys.KeyShape | src/passagen/citations/__init__.py:321-333 | a key is at most 64 characters long: as much of the readable base as there is room for, a dash and the digits |
| CitationKeys.SharedIdentityIsQualified | src/passagen/citations/__init__.py:297-304 | two papers that share a DOI are told apart iff their lower-cased identifiers differ |
| CitationKeys.KeyWhenDigestsDiffer | src/passagen/citations/__init__.py:305-318 | a digest length is free for a paper whenever its digits differ from those of all others and its key is unoccupied |
| CitationKeys.LengthsSeparateKeys | src/passagen/citations/__init__.py:321-333 | keys of different digest lengths are different |
| CitationKeys.AllocatedKeysDiffer | src/passagen/citations/__init__.py:289-333 | keys allocated to two papers of a catalogue differ, whatever lengths they settle on |
| CitationKeys.AllocatedKeyIsUsable | src/passagen/citations/__init__.py:305-318 | an allocated key is unoccupied, at most 64 characters and readable |
| CitationKeys.CatalogueKeysInjective | src/passagen/citations/__init__.py:289-333 | the keys of a whole catalogue are pairwise distinct |
| CitationStore.LocalKeyNeverChanges | src/passagen/citations/__init__.py:207-252 | over any number of calls a paper's key stays the same while its row stays local |
| CitationStore.CitationService.Upsert | src/passagen/citations/repository.py:60-100 | rejected with a key conflict iff another local row has the key; otherwise exactly this row is written |
| CitationStore.CitationService.LocalBibtex | src/passagen/citations/__init__.py:207-220 | prints the paper under the preserved key, or under the one that is allocated for the papers listed and the keys occupied, which nobody else has |
| CitationStore.CitationService.PrintAndStore | src/passagen/citations/__init__.py:212-237 | a preserved key never conflicts while the paper exists; the stored row is the printed paper |
| CitationStore.CitationService.StoreLocal | src/passagen/citations/__init__.py:207-252 | after a conflict a new key is tried once; a local key is kept; nothing is written on failure |
| CitationStore.CitationService.AskDoi | src/passagen/citations/__init__.py:130-197 | a found citation is stored for the paper's identifier, a failed lookup keeps a fetched row, and every failure sets its deadline |
| CitationStore.CitationService.Fetch | src/passagen/citations/__init__.py:118-252 | a paper with a DOI is looked up exactly once when there is no row, on refresh, for another identifier or once the deadline has passed, and never before; what the service answered decides the row and the result |
| CitationStore.CitationService.Cached | src/passagen/citations/__init__.py:104-116 | exactly when the stored row is returned as it is |
| CitationStore.CitationService.Attempt | src/passagen/citations/__init__.py:89-252 | over edits, failures and races: a local key is kept, a fetched citation is replaced only by a found one, a paper whose row may not be returned is looked up, never before the deadline, and unless the paper is edited meanwhile a usable answer is what a successful call stores and returns |
| CitationStore.AllowedRetriesWait | src/passagen/citations/__init__.py:118-123 | without a refresh a failed lookup is tried again after a day at the earliest, one without result after a week |
| CitationStore.SameSourceIff | src/passagen/citations/__init__.py:363-368 | papers name the same source iff they have the same DOI, or the same arXiv identifier and no DOI, or neither |
| CitationStore.CitationService.Session | src/passagen/citations/__init__.py:86-252 | the same over any number of calls with other sessions in between |
| UpdateRuns.StepKeepsInv | src/passagen/processing/service.py:73-100 | every step keeps the papers of active runs disjoint and executors on running runs |
| UpdateRuns.PapersAreExclusive | src/passagen/processing/service.py:86-98 | in every reachable state no paper belongs to two active runs or two executors |
| UpdateRuns.FinishedForever | src/passagen/processing/store.py:107-173 | finished runs stay finished and no run is queued again |
| UpdateRuns.ClaimedOnce | src/passagen/processing/store.py:107-115 | each run is claimed at most once |
| UpdateRuns.StartupLeavesNothingActive | src/passagen/processing/store.py:154-173 | after a startup no run is active, and the active ones are interrupted |
| UpdateRuns.UnlockedCreationIff | src/passagen/processing/service.py:86-98 | two creations checked before either is stored stay disjoint iff they share no paper |
| UpdateRuns.FinishKeepsFinishedIff | src/passagen/processing/store.py:133-151 | `finish_run` keeps finished runs iff it is given an active run, or writes the status, result, error and finish time the row has |
| UpdateRuns.FinishedAgainExample | src/passagen/processing/store.py:133-151 | a completed run that is completed again with another result changes |
| UpdateRuns.ProcessingService.FindActiveRunForPapers | src/passagen/processing/store.py:91-104 | None iff no active run shares a paper; otherwise one that does |
| UpdateRuns.ProcessingService.StartUpdate | src/passagen/processing/service.py:73-100 | accepted iff the stage, the papers and the active runs allow it; then exactly one queued run of the distinct papers is added |
| UpdateRuns.ProcessingService.ClaimRun | src/passagen/processing/store.py:107-115 | claimed iff the run was queued |
| UpdateRuns.ProcessingService.FinishRun | src/passagen/processing/store.py:133-151 | the executor's run gets its final status, result, error and finish time, as an allowed step |
| UpdateRuns.ProcessingService.ExecuteRun | src/passagen/processing/service.py:159-245 | executes exactly queued runs and ends them with a result or an error, while other threads go on |
| UpdateRuns.ProcessingService.InterruptActiveRuns | src/passagen/processing/service.py:149-157 | interrupts and returns exactly the active runs |
| UpdatePipeline.Library.ResolveMetadata | src/passagen/stages/metadata/service.py:64-252 | a forced run first lowers the status; success ends at resolved metadata, artifacts untouched |
| UpdatePipeline.Library.ParsePaper | src/passagen/stages/parsing.py:55-113 | needs resolved metadata unless forced; status and artifact change together |
| UpdatePipeline.Library.SummarizePaper | src/passagen/stages/summarization/service.py:139-245 | needs extracted text; a forced run lowers the status only after finding it |
| UpdatePipeline.Library.OutlinePaper | src/passagen/stages/outlining/service.py:83-200 | needs a summary; a forced run lowers the status only after finding it |
| UpdatePipeline.Library.PrepareText | src/passagen/stages/updating/service.py:135-258 | the text stages that are needed run in order; what a failure may leave |
| UpdatePipeline.Library.WriteUp | src/passagen/stages/updating/service.py:259-337 | the writing stages that are needed run in order; what a failure may leave |
| UpdatePipeline.Library.UpdatePaper | src/passagen/stages/updating/service.py:87-357 | the outcome of one paper: final status, exactly the artifacts of the needed stages made anew, and the lowest status a failure leaves |
| UpdatePipeline.Library.SelectPapers | src/passagen/stages/updating/service.py:432-450 | each selected paper once; fails iff one is unknown |
| UpdatePipeline.Library.UpdatePapers | src/passagen/stages/updating/service.py:46-382 | a finished batch records every selected paper once with what has become of it; no paper is harmed however the batch ends |
| UpdatePipeline.EachPaperOnce | src/passagen/stages/updating/models.py:47-53 | each selected paper is in exactly one of updated, skipped and failures |
| UpdatePipeline.RebuildStageIff | src/passagen/stages/updating/models.py:10-64 | the stage names are known in the order of the stages, and no others |
| UpdatePipeline.RebuildMakesAnew | src/passagen/stages/updating/service.py:135-337 | which artifacts a rebuild from each of the named stages makes anew |
| UpdatePipeline.UpdateMakesMissing | src/passagen/stages/updating/service.py:135-337 | without a rebuild exactly the artifacts the status does not stand for yet are made |
| UpdatePipeline.TargetReached | src/passagen/stages/updating/service.py:87-134 | a paper that was updated or skipped is outlined, unless only its abstract was asked for |
| UpdatePipeline.BatchNext | src/passagen/stages/updating/service.py:87-357 | one paper more keeps what is recorded of the others |
| UpdatePipeline.Library.UpdateRepeatedly | src/passagen/stages/updating/service.py:46-382 | over any sequence of updates the status never outruns the artifacts, no artifact the status stands for is older than what it was made from, and none is lost |
| LikeEscape.ReplacementsAreSimultaneous | src/passagen/assistant/repository.py:615-616 | the three replacements equal one escape of every special character |
| LikeEscape.EscapedMatchesPrefix | src/passagen/assistant/repository.py:576-583 | an escaped text and `%` match exactly the texts that begin with it, up to ASCII case |
| LikeEscape.PatternFindsOccurrences | src/passagen/assistant/repository.py:576-583 | the search pattern matches a text iff the query occurs in it literally, up to ASCII case |
| LikeEscape.SearchIsLiteral | src/passagen/assistant/repository.py:555-583 | a query selects exactly the records in one of whose columns it occurs |
| SummaryPath.ResolveSummaryPath | src/passagen/assistant/citations.py:129-144 | the walk with its early exits gives the node of the decoded address, or null |
| SummaryPath.RootedPathReadsBack | src/passagen/assistant/citations.py:131-137 | with `$.` the printed form of every address reads back as that address |
| SummaryPath.BarePathReadsBackIff | src/passagen/assistant/citations.py:131-137 | without it, exactly the addresses that do not begin with a bare `$` and go on read back |
| SummaryPath.PrintedAddressResolves | src/passagen/assistant/citations.py:129-144 | resolving a printed address gives the addressed node |
| SummaryPath.AddressIffSpelled | src/passagen/assistant/citations.py:131-144 | a path decodes to an address iff, less an optional root marker, it is the address's steps joined by dots, each index in decimal digits with leading zeros allowed |
| SummaryPath.ResolvesIffSpelled | src/passagen/assistant/citations.py:129-144 | a path resolves to a node other than null iff it spells an address of that node |
| SummaryPath.BothFormsResolve | src/passagen/assistant/citations.py:129-144 | without a key `$` at the root both printed forms of an address resolve to the addressed node |
| SummaryPath.SummaryPathsResolve | src/passagen/assistant/citations.py:101-144 | so do both forms on every summary |
| SummaryPath.DollarKeyExample | src/passagen/assistant/citations.py:131 | in arbitrary JSON, which a summary is not, a key `$` whose child cannot be reached without the root marker |
| SummaryPath.ValidateSummaryLocator | src/passagen/assistant/citations.py:101-126 | a locator is accepted iff it addresses a node that lists the cited page |
| SummaryPath.HasPageIff | src/passagen/assistant/citations.py:116-119 | a node lists a page iff it is an object whose evidence pages are a list with that page |
| AnswerCitations.ValidateOutlineLocator | src/passagen/assistant/citations.py:147-166 | accepted iff the section is like a heading of the outline |
| AnswerCitations.ValidateRawLocator | src/passagen/assistant/citations.py:169-207 | accepted iff the first section with a like title meets the cited pages and contains the excerpt |
| AnswerCitations.OnlyMatchDecides | src/passagen/assistant/citations.py:179-206 | when a single section matches, its pages and text decide |
| AnswerCitations.ExcerptFoundIff | src/passagen/assistant/citations.py:199-207 | an excerpt is found iff the section's text is the excerpt with text before and behind it, up to whitespace and case |
| AnswerCitations.AlikeIff | src/passagen/assistant/citations.py:162-162 | titles are alike iff one is the other with text before and behind it |
| AnswerCitations.PagesMeetIff | src/passagen/assistant/citations.py:193-199 | a single cited page has to be one of the section; a range fails iff all of these lie before or behind it |
| AnswerCitations.HeadingOfTitle | src/passagen/assistant/citations.py:157-161 | the heading of hash signs, a blank and a title is the title |
| AnswerCitations.ValidateCitation | src/passagen/assistant/citations.py:65-91 | accepted iff the citation names an artifact of the snapshot by identifier and hash and its locator points at loaded content |
| AnswerCitations.ValidateAnswerCitations | src/passagen/assistant/citations.py:46-62 | an answer passes iff every citation is grounded in the evidence of its paper |
| AnswerCitations.ValidateAgainstOne | src/passagen/assistant/citations.py:49-52 | the same over the evidence of one paper |
| AnswerCitations.OneOrListOfOne | src/passagen/assistant/citations.py:46-62 | one paper alone and a list of one accept the same citations |
| InvertedIndex.RebuildWords | src/passagen/external/metadata.py:616-630 | the words of all listed positions in the order of positions; None iff there are none |
| InvertedIndex.SortedOrders | src/passagen/external/metadata.py:630 | sorting orders the pairs and keeps them all |
| InvertedIndex.IndexGivesBackTheWords | src/passagen/external/metadata.py:616-630 | any index of a text, keys and positions in any order, gives its words back in order |
| Evidence.MergeEvidence | src/passagen/stages/summarization/evidence.py:36-69 | the dictionary with its order list computes the fold; every item makes the claim of a merged one, and no two merged items agree on category, claim, subject, baseline and both values |
| Evidence.MergeKeepsClaims | src/passagen/stages/summarization/evidence.py:39-52 | items that differ in any of the six fields are kept side by side, items that agree on all become one, and none is lost |
| Evidence.SameKeyIff | src/passagen/stages/summarization/evidence.py:45-52 | two items share a key iff all six fields agree but for case, surrounding whitespace and whitespace within the claim |
| Text.CollapsedAlikeIff | src/passagen/stages/summarization/evidence.py:80-81 | collapsing forgets the length and kind of whitespace and nothing else |
| Evidence.MergedKeys | src/passagen/stages/summarization/evidence.py:43-69 | the keys of the result are the distinct keys of the input in the order they first occur |
| Evidence.MergedByGroup | src/passagen/stages/summarization/evidence.py:58-68 | each result combines exactly the items that share its key: all pages, all conditions, the first section and excerpt given |
| Evidence.FirstSectionGiven | src/passagen/stages/summarization/evidence.py:65-65 | the section of a result is that of the first item with its key that has one |
| Evidence.FirstExcerptGiven | src/passagen/stages/summarization/evidence.py:66-66 | so is its excerpt |
| Evidence.MergedPagesAreTheUnion | src/passagen/stages/summarization/evidence.py:58 | the pages of a result are the union of the pages of the items with its key |
| Evidence.MergeIdempotent | src/passagen/stages/summarization/evidence.py:36-69 | merging merged evidence changes nothing |
| Evidence.MergeIncrementally | src/passagen/stages/summarization/evidence.py:36-69 | merge(merge(xs) + ys) == merge(xs + ys) |
| Evidence.GroupByDomain | src/passagen/stages/summarization/evidence.py:72-77 | each domain has its items in order, and the domains are in the order they first occur |
| Evidence.DomainsOfCategories | src/passagen/stages/summarization/evidence.py:11-31 | the categories of each domain; any other category is discussion |
| Evidence.GroupsHoldEveryItemOnce | src/passagen/stages/summarization/evidence.py:72-77 | grouping loses and repeats nothing |
| Retrieval.RunPass | src/passagen/assistant/retrieval.py:230-253 | one pass of the loop selects exactly the rows that find room and cap at their turn |
| Retrieval.Select | src/passagen/assistant/retrieval.py:220-254 | the result is the rows of the first pass followed by those of the second |
| Retrieval.PicksIncrease | src/passagen/assistant/retrieval.py:230-253 | a pass takes each row at most once, in the order of the ranks |
| Retrieval.PickedIff | src/passagen/assistant/retrieval.py:231-238 | a row is taken iff it is not refused at its turn |
| Retrieval.SelectionWithinLimits | src/passagen/assistant/retrieval.py:225-253 | both limits hold over both passes, the soft cap of each paper within the first |
| Retrieval.SelectionIsMaximal | src/passagen/assistant/retrieval.py:230-254 | when fewer sections than allowed are returned, no row passed over in the second pass would still fit |
| Retrieval.SecondPassTakesCappedRows | src/passagen/assistant/retrieval.py:234-238 | a row that only the second pass takes had been held back by the soft cap |
| Retrieval.RepeatsExactly | src/passagen/assistant/retrieval.py:230-253 | no row is returned twice iff no row of the first pass finds room in a second pass that leaves such rows out |
| Retrieval.BestRowRepeatsIff | src/passagen/assistant/retrieval.py:230-253 | the best row is returned twice iff it still fits after the first pass |
| Retrieval.GenerousRepeatsIff | src/passagen/assistant/retrieval.py:220-254 | when all rows fit the budget and the best one twice, a row is returned twice iff there are rows and the sum over papers of the lesser of soft cap and rows is below the section limit |
| Retrieval.RepeatExample | src/passagen/assistant/retrieval.py:230-253 | a single matching section that is returned twice |
| Collections.ShowsOneOrder | src/passagen/storage/models.py:247-263 | rows at positions 0 to n-1 show one order only |
| Collections.SelectByPosition | src/passagen/catalog/__init__.py:318-327 | the rows in the order of their positions |
| Collections.WithoutKeepsOrder | src/passagen/catalog/__init__.py:332-341 | the papers left keep the order they had among each other |
| Collections.Collection.Add | src/passagen/catalog/__init__.py:569-612 | new papers go to the end in the given order; refused iff the list repeats or a paper is missing |
| Collections.Collection.Reorder | src/passagen/catalog/__init__.py:614-658 | accepted iff the list is a permutation of the members, which it then orders |
| Collections.Collection.Remove | src/passagen/catalog/__init__.py:660-700 | the others close the gap at positions 0 to n-1 in their old order, with their notes |
| Deletion.DeleteTargets | src/passagen/catalog/__init__.py:299-306 | the loop over the sorted paths keeps exactly the outermost ones |
| Deletion.OutermostCovers | src/passagen/catalog/__init__.py:299-306 | the targets are not nested and cover exactly what the paths cover |
| Deletion.StageOne | src/passagen/catalog/__init__.py:245-252 | moving one target more into the trash keeps every file at its own place or in the trash |
| Deletion.RestoreOne | src/passagen/catalog/__init__.py:861-870 | moving one target back puts exactly its files back |
| Deletion.Catalog.RemoveFromCollections | src/passagen/catalog/__init__.py:315-344 | every collection shows what it showed without the paper |
| Deletion.Catalog.PaperDeleteTargets | src/passagen/catalog/__init__.py:294-312 | refused iff an artifact of another paper lies under one of the paper's paths |
| Deletion.Catalog.StageFiles | src/passagen/catalog/__init__.py:245-252 | the staged targets and only they are in the trash, also when a move fails |
| Deletion.Catalog.RestoreStagedFiles | src/passagen/catalog/__init__.py:861-870 | restores every file, or loses none when a move back fails |
| Deletion.Catalog.DeletePaper | src/passagen/catalog/__init__.py:226-265 | all or nothing: exactly the paper's rows go, and the files in its directory or at its artifacts' paths, or database and files are as before; if a restore fails no file is lost |
| Deletion.OthersKeepTheirFiles | src/passagen/catalog/__init__.py:307-312 | a deletion leaves every file that another paper has as an artifact |

## Left out

- HTTP, GROBID and PDF reading, prompts, diagnostics, progress events and logging: I/O without an invariant.
- Full text search and its ranking: the ranked rows of a retrieval are an arbitrary list.
- `select_papers` and the in-memory and single-paper retrievals: a sort and easier loops of the same shape.
- Regular expressions, Unicode digits, case folding and normalisation: captions, lower-casing and identifier
  normalisation are parameters, whitespace is a predicate and digits are ASCII.
- Text.SplitConserves: models the two separators as character-level scans, not as a regular expression engine.
- AnswerCitations.ValidateOutlineLocator: takes the outline as its lines; splitting into lines is not modelled.
- The whitespace clean-up of a rebuilt abstract: joining and collapsing of the words is not modelled.
- GenerationService.Dispatcher.ExecuteTurn: conversation, question and source snapshot are found or missing at will, and
  so is what the model answers; submitting and executing in one call (`ask`, `create_report`, `synthesize`) is the two calls.
- SHA-256 and the readable base of citation keys: uninterpreted functions, nothing about collisions is claimed.
- CitationStore.CitationService.OtherSessions: two calls for the same paper at the same time are not modelled.
- The contents of artifact files on disk during an update: an artifact is known by the number of the write that stored its row.
- UpdatePipeline.Library.UpdatePapers: papers are not deleted or edited while a batch runs.
- Deletion.Catalog.DeletePaper: a crash of the process between moving files and committing is not modelled, nor are
  symbolic links, absolute paths and the chat messages removed with a paper.
- Deletion of reports, conversations and collections, and retention of old runs: rows simply disappear.
- Synthesis: the repair prompt is an arbitrary prompt that may or may not fit; persistence of the result is part of the run protocol only.
- Tags, notes, catalogue listing and filtering: simple members.
