# Verified models of durable jobs and document processing

The repository keeps long-running work alive across crashes (`ac-jobs`) and turns
documents into searchable, sectioned text (`ac-document`). This project models the
parts of both whose correctness is hard to see, and proves what they promise.

`dafny verify dfyconfig.toml` checks everything. Each file is one module.

| module | models |
|---|---|
| Bookmarks, MarkdownHeadings | the two scanners: qpdf bookmark JSON, Markdown headings outside fences |
| OutlineAlignment | the memoised search for the best bookmark-to-heading matching |
| SectionForest, DocumentStructure | the section entries built from a matching, and the whole reconstruction |
| TermSpans, SectionSearch | the heap merge of overlapping matches, section parents, nested-text exclusion, retention |
| MergeChains, TextEscape, RunningHeaders, MineruJob | OCR output: merged paragraphs, escaping, running headers, the job directory |
| RunSnapshots, RunKernel | run snapshots, and the executors, stop requesters and creators that write them |
| EventLog, LeasePool, ArtifactStore | the append-only log, the bounded lease pool, the immutable store |
| GroupWorkers, WorkGroup | the worker-count control, and the durable group of work units |

## How processes are modelled

A lease is exclusive until it is released or its holder dies. Replacing a file
atomically is one step. Processes interleave at every such step and may die between
any two; an event append may be cut after any byte. A module with concurrent
processes has a `Step` function over a `State`; its theorems speak of `Run(events)`
for every sequence of events, so they hold of every interleaving with every crash.
`effects`, `history`, `written`, `outcomes`, `cleared`, `selfStopped` and `busy` only
record what happened; no step branches on them.

Code that one process runs over its own variables is a method with the loops and
branches of the original, proved against a function or a property.

## What turned out not to hold

- Resuming a FAILED run: when a stop was requested for its last attempt, the pause
  that the kernel offers keeps the error, so the snapshot rules reject it. The
  resume succeeds exactly when that attempt has no token
  (`RunKernel.FailedRunResumesIff`), and with one the run can never change again
  (`RunKernel.FailedWithTokenIsFinal`). A handler that raises after it was asked to
  stop gets there (`RunKernel.RaisingAfterStopIsFinal`), and
  `RunKernel.StrandedRunIsReachable` is such a run from the empty directory.
- Escaping and decoding: the decoded text is the normalised original exactly when every
  marker follows an even run of backslashes and the text does not begin with an escaped
  heading or bullet (`TextEscape.DecodeInvertsEscapeIff`).
- Restoring merged paragraphs: the documentation says that emptied places are filled
  once. Two records of a chain can share a content-list item; the later text then
  replaces the earlier. All texts survive exactly when no item is claimed with two
  texts (`MergeChains.TextsSurviveIffUncontested`; `MergeChains.ContestedItemLosesText`
  is an input that loses one).
- A missing parent id does not only mean a top-level section: it also means a bookmark
  whose own parent was not matched (`SectionForest.OrphansHaveUnmatchedParents`;
  `DocumentStructure.OrphanBelowTopLevel` is such a document).
- A group runner takes its capacity once, but targets may be raised after another
  initialisation enlarged the stored capacity. Every target it can read is acceptable
  exactly when no accepted set after its own initialisation exceeds its capacity
  (`GroupWorkers.RunnerReadsAcceptableTargets`; `GroupWorkers.RunnerCanReadTooLargeTarget`
  is a run that reads one it rejects).
- Escaping each span does not escape their join: a marker can come alive where one span
  ends in an odd run of backslashes and the next begins with a marker
  (`TextEscape.JoinedSpansAreDeadIff`, `TextEscape.JoinedSpanCanComeAlive`).

## Model

| member | source | states |
|---|---|---|
| Bookmarks.Collector.Visit | packages/ac-document/src/ac_document/document_structure.py:494-517 | The recursive visit appends to the shared result exactly the outline nodes of its list and everything below, or stops at the first malformed value. |
| Bookmarks.ExtractOutlines | packages/ac-document/src/ac_document/document_structure.py:479-519 | The whole scan returns the flattened outline, or the first malformation in visiting order. |
| Bookmarks.FlattenIsPreorder | packages/ac-document/src/ac_document/document_structure.py:494-519 | Every node hangs below the nearest earlier node one level up, with nothing shallower between; base-level nodes carry the list's own parent. |
| Bookmarks.FlattenLists | packages/ac-document/src/ac_document/document_structure.py:494-519 | The list holds exactly the bookmarks reachable through usable ancestors, each once, in document order, each with the data its key leads to. |
| Bookmarks.KeysAreDistinct | packages/ac-document/src/ac_document/document_structure.py:494-519 | Outline keys are pairwise distinct. |
| Bookmarks.OutlinesArePreorderListing | packages/ac-document/src/ac_document/document_structure.py:479-519 | For every accepted bookmark tree: preorder, complete, in document order, distinct keys, level equal to depth. |
| Bookmarks.EveryTitledBookmarkIsListed | packages/ac-document/src/ac_document/document_structure.py:494-517 | A bookmark with a title and a page from one on is listed, at the top or below a listed one. |
| Bookmarks.ExtractionFailsIff | packages/ac-document/src/ac_document/document_structure.py:494-517 | Extraction fails iff some value that the visit comes to is malformed, with the error of the first one in document order. |
| MarkdownHeadings.Collect | packages/ac-document/src/ac_document/document_structure.py:522-542 | The line loop with its fence state returns the headings of the specification. |
| MarkdownHeadings.InsideFenceMeansUnclosedOpener | packages/ac-document/src/ac_document/document_structure.py:522-542 | A line is inside a fence iff some earlier line opened one and no line since carries the same fence character. |
| MarkdownHeadings.HeadingsListHeadingLines | packages/ac-document/src/ac_document/document_structure.py:522-542 | The headings are exactly the titled ATX lines outside every fence, once each, with strictly increasing line numbers. |
| MarkdownHeadings.HeadingsCarryTheirLines | packages/ac-document/src/ac_document/document_structure.py:522-542 | Each heading carries the number, title and marker length of its own line, and every titled line outside all fences has one. |
| OutlineAlignment.Aligner.SolveMemo | packages/ac-document/src/ac_document/document_structure.py:582-614 | The memoised method answers every subproblem as the plain recursion does, whatever the memo holds. |
| OutlineAlignment.Aligner.CollectOptions | packages/ac-document/src/ac_document/document_structure.py:586-606 | The option loop offers skipping the node, then each candidate after the previous heading, in order. |
| OutlineAlignment.SolveIsCorrect | packages/ac-document/src/ac_document/document_structure.py:582-614 | Every subproblem's score is the lexicographic maximum over all its increasing matchings; its one or two paths attain it, and a single path is the only one that does. |
| OutlineAlignment.KeptPathsDecideUniqueness | packages/ac-document/src/ac_document/document_structure.py:582-640 | One kept path means one optimal matching, two mean at least two distinct ones: dropping further paths loses nothing. |
| OutlineAlignment.OptimumMatchesMost | packages/ac-document/src/ac_document/document_structure.py:598-606 | An optimum matches the most bookmarks, and among those that do it has the most evidence. |
| OutlineAlignment.AlignmentProblem | packages/ac-document/src/ac_document/document_structure.py:551-580 | A bookmark's candidates are the headings of its normalised title, in order; body overlap is evidence iff there are several. |
| OutlineAlignment.AlignmentIsUniqueOptimum | packages/ac-document/src/ac_document/document_structure.py:582-630 | Alignment succeeds iff one strictly increasing partial matching alone attains the maximum of (matches, evidence); it is ambiguous iff at least two attain it. |
| OutlineAlignment.AlignmentReportsTheOptimum | packages/ac-document/src/ac_document/document_structure.py:631-640 | On success a bookmark is mapped iff the one optimum pairs it, to that pair's heading; the others are reported unmatched, in order and once each. |
| OutlineAlignment.AmbiguityNamesTwoOptima | packages/ac-document/src/ac_document/document_structure.py:616-630 | An ambiguous alignment reports the first eight lines, ascending, of the headings that two distinct optimal matchings use. |
| OutlineAlignment.AlignmentIsMonotone | packages/ac-document/src/ac_document/document_structure.py:616-640 | The key-to-heading map sends later bookmarks to later headings, each to one with its own normalised title. |
| OutlineAlignment.Align | packages/ac-document/src/ac_document/document_structure.py:545-640 | The whole method: candidates, search, the ambiguity report with at most eight lines, the unmatched bookmarks. |
| SectionForest.BuildEntries | packages/ac-document/src/ac_document/document_structure.py:643-766 | The passes that build and complete the drafts compute the specified entries. |
| SectionForest.MatchedEntryIsItsBookmarks | packages/ac-document/src/ac_document/document_structure.py:657-693 | A matched bookmark gives its heading's entry its level, first page, kind and key, and the method that says whether its title recurs. |
| SectionForest.UnmatchedEntryIsInferred | packages/ac-document/src/ac_document/document_structure.py:695-730 | An unmatched heading's entry hangs one level below the bookmark matched last before it, or at the top, without pages. |
| SectionForest.FinishEntry | packages/ac-document/src/ac_document/document_structure.py:728-748 | The scans for the end line, the end page and the parent id of one entry. |
| SectionForest.ParentEncloses | packages/ac-document/src/ac_document/document_structure.py:656-730 | A set parent id is that of an earlier heading one level up, with nothing shallower than the child between. |
| SectionForest.OrphansHaveUnmatchedParents | packages/ac-document/src/ac_document/document_structure.py:656-730 | An entry lacks a parent id iff it is at level one or its bookmark's own parent was not matched. |
| SectionForest.RangeCovers | packages/ac-document/src/ac_document/document_structure.py:731-748 | An entry's lines run to just before the next entry that is not deeper, or to the last line. |
| SectionForest.RangesNestOrDisjoint | packages/ac-document/src/ac_document/document_structure.py:731-748 | Two line ranges are disjoint or nested, and nested iff everything in between is deeper. |
| SectionForest.PagesEndBeforeNext | packages/ac-document/src/ac_document/document_structure.py:738-748 | A section's pages end just before the next entry that is not deeper and has a page, never before its own first page. |
| SectionForest.DescendantsAreCovered | packages/ac-document/src/ac_document/document_structure.py:643-748 | A matched bookmark's range covers those of all its matched descendants, even across unmatched ones. |
| SectionForest.ParentEntryIsInnermost | packages/ac-document/src/ac_document/document_structure.py:643-766 | The parent entry is the innermost entry whose range covers the child's. |
| SectionForest.EntriesFormForest | packages/ac-document/src/ac_document/document_structure.py:643-766 | The entries satisfy every check of their own constructor and form a forest by parent id and by line range. |
| DocumentStructure.OrphanBelowTopLevel | packages/ac-document/src/ac_document/document_structure.py:728-730 | A document whose only section is at level two and has no parent id. |
| DocumentStructure.Reconstruct | packages/ac-document/src/ac_document/document_structure.py:325-383 | The reconstruction: each refusal in its order, else the entries of the alignment. |
| DocumentStructure.EarlyRefusals | packages/ac-document/src/ac_document/document_structure.py:335-362 | The exact condition of each refusal before the alignment, in their order, and of the malformed and the empty outline. |
| DocumentStructure.BuilderInputIsAligned | packages/ac-document/src/ac_document/document_structure.py:346-383 | What the scanners and the aligner hand over always meets what the entry builder relies on. |
| DocumentStructure.ReconstructionIsForest | packages/ac-document/src/ac_document/document_structure.py:325-383 | Every accepted document yields a forest: one entry per heading, nested or disjoint ranges, and every parent id names exactly one entry, the innermost cover. |
| DocumentStructure.FullAlignmentLeavesNoOrphan | packages/ac-document/src/ac_document/document_structure.py:325-383 | When every bookmark is matched, exactly the top-level entries lack a parent. |
| DocumentStructure.ReconstructionOutcome | packages/ac-document/src/ac_document/document_structure.py:346-383 | The exact conditions, on the matchings of the input, of success and of the two alignment refusals. |
| DocumentStructure.SucceedsIffIdsAreDistinct | packages/ac-document/src/ac_document/document_structure.py:363-383 | With one optimum that matches something, the reconstruction succeeds iff no two headings have the same section digest. |
| DocumentStructure.EntriesFollowTheOptimum | packages/ac-document/src/ac_document/document_structure.py:363-383 | The entries of an accepted document are those of the one optimum: bookmark data where it places one, inferred entries elsewhere. |
| DocumentStructure.AmbiguousRefusalNamesLines | packages/ac-document/src/ac_document/document_structure.py:617-630 | An ambiguous document is refused with the lines of the headings of two optima. |
| TermSpans.IterTermSpans | packages/ac-document/src/ac_document/cached_full_text_search.py:702-738 | The heap merge emits every span at which some term matches, once, in strictly increasing order, tagged with exactly the matching terms in term order; it terminates. |
| TermSpans.PopGroup | packages/ac-document/src/ac_document/cached_full_text_search.py:720-730 | Popping a group takes the least span with all its queued terms, and leaves only later spans. |
| TermSpans.Advance | packages/ac-document/src/ac_document/cached_full_text_search.py:730-738 | Searching on from each term of the group loses no match: each is listed or queued again. |
| TermSpans.GroupIsTermsAt | packages/ac-document/src/ac_document/cached_full_text_search.py:720-738 | The popped group is exactly the set of terms that match the span, in order. |
| TermSpans.ListingIsUnique | packages/ac-document/src/ac_document/cached_full_text_search.py:692-738 | Only one stream meets the specification, so the merge equals the plain sorted listing. |
| SectionSearch.SectionParents | packages/ac-document/src/ac_document/cached_full_text_search.py:635-648 | The stack gives each section its nearest earlier strictly shallower section, or none iff there is none. |
| SectionSearch.ChildrenByParent | packages/ac-document/src/ac_document/cached_full_text_search.py:583-592 | The grouping loop lists, for each section, the sections whose parent it is, in order. |
| SectionSearch.ChildrenAreExact | packages/ac-document/src/ac_document/cached_full_text_search.py:583-592 | A section's children are exactly the sections whose nearest shallower section it is, ascending. |
| SectionSearch.FindWindow | packages/ac-document/src/ac_document/cached_full_text_search.py:651-678 | The backward search returns the last window with the child's words that ends by the cursor, or none iff there is none. |
| SectionSearch.ExcludedRanges | packages/ac-document/src/ac_document/cached_full_text_search.py:594-632 | The backward pass over the children with its moving cursor computes the specified ranges. |
| SectionSearch.ExclusionsAreDisjoint | packages/ac-document/src/ac_document/cached_full_text_search.py:594-632 | The ranges are non-empty, ascending and disjoint. |
| SectionSearch.ExclusionsSpanChildren | packages/ac-document/src/ac_document/cached_full_text_search.py:594-678 | Each range runs from the first to the last token of the last window of one child's words that ends by the start of the next child found; a child is skipped iff it has no such window. |
| SectionSearch.EmbeddedChildrenAreAllExcluded | packages/ac-document/src/ac_document/cached_full_text_search.py:594-678 | If the children's texts can be placed in the parent's in order at all, the greedy backward search excludes every one. |
| SectionSearch.SearchLocations | packages/ac-document/src/ac_document/cached_full_text_search.py:567-632 | Every section with the ranges of exactly its own children, for HTML only; every page, unrestricted, if there are no sections. |
| SectionSearch.SectionRangesAreDisjoint | packages/ac-document/src/ac_document/cached_full_text_search.py:583-632 | A section's ranges are non-empty, ascending, disjoint and within its text; only HTML sections have any. |
| SectionSearch.SectionRangesSpanChildren | packages/ac-document/src/ac_document/cached_full_text_search.py:594-632 | A section's ranges are those windows of its own children's words, in order. |
| SectionSearch.ChildTextIsNotSearchedTwice | packages/ac-document/src/ac_document/cached_full_text_search.py:499-504 | No occurrence of a section lies inside the text of a child found in it. |
| SectionSearch.OnlyChildTextIsLeftOut | packages/ac-document/src/ac_document/cached_full_text_search.py:499-504 | A match of a section that is not an occurrence lies inside the text of a child found in it. |
| SectionSearch.LocationOccurrences | packages/ac-document/src/ac_document/cached_full_text_search.py:499-504 | A location's occurrences are exactly the matches not inside an excluded range, in order. |
| SectionSearch.DocumentOccurrences | packages/ac-document/src/ac_document/cached_full_text_search.py:484-524 | Over all locations of a document: each location's occurrences are exactly its matches outside its own children's ranges, in order. |
| SectionSearch.Retain | packages/ac-document/src/ac_document/cached_full_text_search.py:228-249 | All occurrences of all documents are kept iff their total is within the limit, otherwise none; the counts are exact either way. |
| MergeChains.SortedInReadingOrder | packages/ac-document/src/ac_document/mineru_pages.py:151-173 | The sorted records are the collected ones in strictly increasing page and block order. |
| MergeChains.FindChains | packages/ac-document/src/ac_document/mineru_pages.py:151-193 | The collecting and chaining loops compute the merged chains, or refuse. |
| MergeChains.ChainsPartitionRecords | packages/ac-document/src/ac_document/mineru_pages.py:174-193 | The chains cut the owners and deleted paragraphs, in reading order, into consecutive pieces, each one owner and then deleted paragraphs of its kind. |
| MergeChains.EveryDeletedParagraphHasOneChain | packages/ac-document/src/ac_document/mineru_pages.py:174-193 | On success every deleted paragraph stands at exactly one place of the merged chains, behind an owner of its kind. |
| MergeChains.ChainMembershipIsUnique | packages/ac-document/src/ac_document/mineru_pages.py:174-193 | No record stands in two chains or twice in one. |
| MergeChains.MergedPlaceIsUnique | packages/ac-document/src/ac_document/mineru_pages.py:174-193 | No record stands at two places of the merged chains. |
| MergeChains.CheckChain | packages/ac-document/src/ac_document/mineru_pages.py:220-239 | The offset check accepts a chain iff the owner's lines are exactly its records' original lines, each span marked cross-page iff its page is not the owner's. |
| MergeChains.ExplainedKeysConcatenate | packages/ac-document/src/ac_document/mineru_pages.py:220-239 | The merged line keys are the concatenation of the records' own keys. |
| MergeChains.EveryLineHasOwner | packages/ac-document/src/ac_document/mineru_pages.py:220-239 | Every merged line lies in the offset span of some record. |
| MergeChains.RestoreItems | packages/ac-document/src/ac_document/mineru_pages.py:156-287 | The whole restoration: unmarked input is returned as it is; otherwise every check, then the writes. |
| MergeChains.RestorationSucceedsIff | packages/ac-document/src/ac_document/mineru_pages.py:157-287 | Without markers the items come back as they are. Otherwise it succeeds iff only paragraphs are marked on distinct pages, every deleted paragraph is empty behind an owner of its kind, the boxes are valid, and every merged chain is explained, placed and fits a joining rule. |
| MergeChains.KeptIffMergedChain | packages/ac-document/src/ac_document/mineru_pages.py:174-193 | The merged chains are exactly an owner with the deleted paragraphs whose nearest owner it is, if there are any or the owner carries a marker. |
| MergeChains.ChoiceIsTheOnlySupported | packages/ac-document/src/ac_document/mineru_pages.py:272-285 | A chain's texts are those that every supported joining rule gives, and some rule is supported. |
| MergeChains.RestorationIsExact | packages/ac-document/src/ac_document/mineru_pages.py:156-287 | On success no line is lost or invented, and the output differs from the input only in the text of chain items, each rendered from a record that stands there. |
| MergeChains.TextsSurviveIffUncontested | packages/ac-document/src/ac_document/mineru_pages.py:272-287 | Every chain record finds its own text at its item iff no item is claimed with two different texts. |
| MergeChains.ContestedItemLosesText | packages/ac-document/src/ac_document/mineru_pages.py:252-287 | A page on which two emptied places share an item: the restoration succeeds and one text is gone. |
| TextEscape.TextSpanIsIdempotent | packages/ac-document/src/ac_document/mineru_pages.py:67-82 | Escaping an escaped span changes nothing, on every string. |
| TextEscape.WrittenTextOpensNothing | packages/ac-document/src/ac_document/mineru_pages.py:67-121 | Every marker in the written text follows an odd run of backslashes, and the text opens no heading or bullet; it gains a prefix escape iff it would have. |
| TextEscape.EscapedMarkers | packages/ac-document/src/ac_document/mineru_pages.py:78-82 | Behind no backslash exactly the five Markdown markers gain one. |
| TextEscape.OpenedBlocks | packages/ac-document/src/ac_document/mineru_pages.py:121 | Hashes open a block iff there are at most six, behind at most three blanks, and a blank follows. |
| TextEscape.JoinedSpansAreDeadIff | packages/ac-document/src/ac_document/mineru_pages.py:100-117 | Two escaped spans joined without a blank keep every marker dead iff the first does not end in an odd run before a marker that opens the second. |
| TextEscape.JoinedSpanCanComeAlive | packages/ac-document/src/ac_document/mineru_pages.py:100-117 | Two spans whose join has a live marker. |
| TextEscape.NoOddMarkersMeansEven | packages/ac-document/src/ac_document/mineru_pages.py:67-82 | The left-to-right count of odd runs before markers is zero iff every marker follows an even run. |
| TextEscape.DecodeUndoesEscape | packages/ac-document/src/ac_document/mineru.py:63-66 | Decoding escaped text shortens the original by one for each odd marker, and gives it back when there is none. |
| TextEscape.BlockRoundTrip | packages/ac-document/src/ac_document/mineru_pages.py:118-121 | An escaped heading or bullet prefix is removed by the reader. |
| TextEscape.DecodeInvertsEscapeIff | packages/ac-document/src/ac_document/mineru.py:63-66 | Reading back what was written gives the normalised text iff every marker follows an even backslash run and the text does not begin with an escaped block opening. |
| TextEscape.DecodeInvertsTextSpanIff | packages/ac-document/src/ac_document/mineru_pages.py:67-82 | The same condition decides the round trip of a span without the prefix escape. |
| TextEscape.LossyExamples | packages/ac-document/src/ac_document/mineru.py:63-66 | Two inputs that are not read back. |
| RunningHeaders.ClassifyRunningHeaders | packages/ac-document/src/ac_document/mineru_headers.py:28-61 | The loops retype exactly the margin items whose key is in the body and that are repeated or established by witnesses; length and order stay. |
| RunningHeaders.Established | packages/ac-document/src/ac_document/mineru_headers.py:45-58 | The witness test: at least two keys over at least three pages among the repeated items, with a body page of its own. |
| RunningHeaders.RepeatedIff | packages/ac-document/src/ac_document/mineru_headers.py:45-49 | A margin title is repeated iff another page has it in the margin at the same height. |
| RunningHeaders.EstablishedIff | packages/ac-document/src/ac_document/mineru_headers.py:51-55 | A single margin line counts iff its page has its body heading and repeated lines of two other titles, on three pages, stand at its height. |
| RunningHeaders.OnlyKindsChange | packages/ac-document/src/ac_document/mineru_headers.py:56-61 | Only the kind of a selected text item changes; its former kind and the reason are noted on it. |
| RunningHeaders.BodyIsKept | packages/ac-document/src/ac_document/mineru_headers.py:36-61 | No item that serves as body evidence is retyped, and the evidence is the same afterwards. |
| RunningHeaders.NothingIsRepeatedAfter | packages/ac-document/src/ac_document/mineru_headers.py:36-61 | After a pass no margin item is repeated. |
| RunningHeaders.ClassificationIsFixedPoint | packages/ac-document/src/ac_document/mineru_headers.py:28-61 | A second pass changes nothing. |
| MineruJob.JobDirectory.Parse | packages/ac-document/src/ac_document/mineru_runner.py:400-663 | One call from any durable state, dying anywhere: refusals are exact, change nothing and name their cause, started work is never started again, what is durable stays, a tool failure is recorded, and a resumable job finishes if it lives and the world is kind. |
| MineruJob.JobDirectory.RunRemotely | packages/ac-document/src/ac_document/mineru_runner.py:564-663 | Submission: the intent is durable before the request, which is sent iff the job is prepared, the service healthy and the call alive; the answer's task is saved, and an unanswered request is never repeated. |
| MineruJob.JobDirectory.RunLocally | packages/ac-document/src/ac_document/mineru_runner.py:480-562 | The local launch: the intent is durable before it, it happens only from a prepared job, its failure is recorded, and an interrupted or failed job is refused. |
| MineruJob.JobDirectory.Download | packages/ac-document/src/ac_document/mineru_runner.py:612-663 | Each failure of the remote task or the archive leaves the job as it was; results become visible only with the receipt for the saved task. |
| MineruJob.JobDirectory.Finish | packages/ac-document/src/ac_document/mineru_runner.py:335-366 | Completion is recorded only with a bundle for the original input; an existing bundle is kept. |
| MineruJob.RunMany | packages/ac-document/src/ac_document/mineru_runner.py:369-663 | Over any sequence of calls and crashes: at most one request or launch in all, service results always carry the saved task's receipt, completed implies the bundle of the input. |
| RunSnapshots.SnapshotStore.CreateRun | packages/ac-jobs/src/ac_jobs/engine.py:472-483 | A stored run is returned unchanged; otherwise the initial snapshot is stored. |
| RunSnapshots.SnapshotStore.CompareAndSwap | packages/ac-jobs/src/ac_jobs/engine.py:406-416 | The exact condition of each outcome; success appends to an accepted history, failure changes nothing. |
| RunSnapshots.SnapshotLifetime | packages/ac-jobs/src/ac_jobs/engine.py:328-388 | In every accepted history: one run, awaiting iff PAUSED, error iff FAILED, result only if SUCCEEDED, SUCCEEDED last, handlers' pauses and errors well formed, attempt and recovery epoch count what they name, and the revision is determined by the attempt. |
| RunKernel.StepKeepsInv | packages/ac-jobs/src/ac_jobs/engine.py:938-1128 | Every step of every executor, requester and creator, and every crash, keeps the kernel invariant. |
| RunKernel.StepKeepsTokens | packages/ac-jobs/src/ac_jobs/stopping.py:45-68 | A token's lease has at most one holder, and when a holder is about to write the token there still is none. |
| RunKernel.EveryRunIsAHistory | packages/ac-jobs/src/ac_jobs/engine.py:938-1128 | In every interleaving the stored snapshots form one accepted history. |
| RunKernel.WritesAreCurrentAndAccepted | packages/ac-jobs/src/ac_jobs/engine.py:957-1128 | Every snapshot about to be swapped in is over the current one and accepted, with one exception: stopping a FAILED run, whose last attempt then has a token. |
| RunKernel.FirstStopRequestWins | packages/ac-jobs/src/ac_jobs/stopping.py:45-68 | However many requesters wait for, read and write an attempt's token, the first one written is kept. |
| RunKernel.StopsAreAttemptScoped | packages/ac-jobs/src/ac_jobs/engine.py:97-117 | A stop pauses only the attempt it names, with that attempt's token unless the handler stopped by itself. |
| RunKernel.InterruptionsAreAttemptScoped | packages/ac-jobs/src/ac_jobs/engine.py:990-1009 | An orphaned attempt is recorded as interrupted under its own number. |
| RunKernel.LoneRequestTakesHold | packages/ac-jobs/src/ac_jobs/engine.py:580-669 | A stop request that runs alone ends within eight steps with the first token asked for the current attempt, and pauses a run that has not started. |
| RunKernel.LockedRequestTakesHold | packages/ac-jobs/src/ac_jobs/engine.py:649-669 | A request that has got the run lease leaves the first token and pauses the run, unless it is paused already. |
| RunKernel.WaitingRequestTakesHold | packages/ac-jobs/src/ac_jobs/engine.py:627-648 | A request that found the lease taken leaves the first token for the attempt that then runs. |
| RunKernel.LateRequestIsDropped | packages/ac-jobs/src/ac_jobs/engine.py:609-652 | A request that finds an ended run, or gives up while it is pending, leaves no token. |
| RunKernel.LoneCreationTakesHold | packages/ac-jobs/src/ac_jobs/engine.py:451-485 | A creation that runs alone leaves a PENDING run, or the run that was there. |
| RunKernel.StopInTimeIsHonoured | packages/ac-jobs/src/ac_jobs/engine.py:1054-1107 | A token durable before the attempt's last check: the attempt never ends SUCCEEDED, nor with a pause or failure of the handler's own. |
| RunKernel.OutcomeIsRecorded | packages/ac-jobs/src/ac_jobs/engine.py:1054-1128 | Whatever a handler returns, in an attempt not asked to stop, is what is recorded of that attempt, with the exact condition of each final status and what it carries. |
| RunKernel.RaisingIsRecorded | packages/ac-jobs/src/ac_jobs/engine.py:1097-1107 | A handler that raises fails its attempt, asked to stop or not. |
| RunKernel.StopIsRecorded | packages/ac-jobs/src/ac_jobs/engine.py:1054-1096 | A handler that stops itself, or returns after its attempt was asked to stop, and an attempt asked to stop before its handler: paused with the attempt's token, if any. |
| RunKernel.LoneExecutionStarts | packages/ac-jobs/src/ac_jobs/engine.py:957-1032 | An execution alone starts the next attempt within seven steps, unless a token stands against it or the run has ended. |
| RunKernel.AttemptReachesHandler | packages/ac-jobs/src/ac_jobs/engine.py:1054-1056 | An attempt just started and not asked to stop is handed to its handler. |
| RunKernel.FinishedRunIsLeftAlone | packages/ac-jobs/src/ac_jobs/engine.py:957-964 | A run that has succeeded, or failed and may not be resumed, is left alone. |
| RunKernel.NextRunPausesStoppedAttempt | packages/ac-jobs/src/ac_jobs/engine.py:974-989 | An attempt left RUNNING by a crash, or never started, is paused with its token by the next run. |
| RunKernel.FailedRunResumesIff | packages/ac-jobs/src/ac_jobs/engine.py:957-1032 | Resuming a FAILED run starts the next attempt iff its last attempt has no token; otherwise nothing changes. |
| RunKernel.FailedWithTokenIsFinal | packages/ac-jobs/src/ac_jobs/engine.py:974-989 | A FAILED run with a token for its last attempt keeps its snapshot forever. |
| RunKernel.RaisingAfterStopIsFinal | packages/ac-jobs/src/ac_jobs/engine.py:1097-1107 | A handler that raises after its attempt was asked to stop leaves such a run. |
| RunKernel.StrandedRunIsReachable | packages/ac-jobs/src/ac_jobs/engine.py:938-1128 | A concrete run that gets there: created, executed, asked to stop, and its handler raises. |
| EventLog.EventWriter.TruncateIncompleteTail | packages/ac-jobs/src/ac_jobs/events.py:113-140 | The chunked backward scan cuts the file exactly after its last line break, and forgets the cache iff it cut. |
| EventLog.EventWriter.ReadSequence | packages/ac-jobs/src/ac_jobs/events.py:142-166 | The cached or window-read sequence number, with its failures. |
| EventLog.EventWriter.Append | packages/ac-jobs/src/ac_jobs/events.py:168-207 | One append: any number of its bytes may survive a failure, all of them included. |
| EventLog.SequenceIsCount | packages/ac-jobs/src/ac_jobs/events.py:142-166 | On any log, the cached or bounded-window number equals the number of records. |
| EventLog.SequenceIsLastRecords | packages/ac-jobs/src/ac_jobs/events.py:142-166 | On any file of complete lines, the number is read iff the last line is within the size limit and decodes to a record, and it is that record's. |
| EventLog.AppendIsAllOrNothing | packages/ac-jobs/src/ac_jobs/events.py:168-207 | From any torn log, an append is wholly present with the next number or wholly absent; success means present, and a failure leaves it present only when every byte was written. |
| EventLog.AppendKeepsCompleteLines | packages/ac-jobs/src/ac_jobs/events.py:168-207 | On any file at all, an append keeps every complete line, and adds nothing where it finds the log corrupt. |
| EventLog.LogSurvivesEveryRun | packages/ac-jobs/src/ac_jobs/events.py:92-207 | Any interleaving of writers, torn appends and deaths keeps all earlier records, with later ones behind them, numbered on. |
| EventLog.ReadAllRecords | packages/ac-jobs/src/ac_jobs/events.py:92-111 | The reading loop with its numbering checks. |
| EventLog.ReadAllIsExact | packages/ac-jobs/src/ac_jobs/events.py:92-111 | A full read of any file succeeds iff every complete line decodes to a record of its own number, and yields those records. |
| EventLog.FileIsItsLines | packages/ac-jobs/src/ac_jobs/events.py:96 | Every file is its lines with their breaks, in order; a carriage return and the line feed behind it are one break. |
| EventLog.EveryRunReadsBack | packages/ac-jobs/src/ac_jobs/events.py:254-257 | After any run from an empty file, a full read yields exactly the events whose appends landed, in order, numbered from one; which appends land is defined on the events alone. |
| EventLog.ReadTail | packages/ac-jobs/src/ac_jobs/events.py:229-252 | The tail reader: the last megabyte from its first line break. |
| EventLog.TailIsSuffix | packages/ac-jobs/src/ac_jobs/events.py:229-257 | The tail is a suffix of the full read: all of a small log, else what begins after the first line break of the last megabyte, and never without the last record. |
| EventLog.DecodableIsExact | packages/ac-jobs/src/ac_jobs/events.py:240-252 | The tail lists exactly the lines that decode, in order. |
| LeasePool.StepKeepsInv | packages/ac-jobs/src/ac_jobs/lease_pool.py:54-147 | Binding, scanning, granting, releasing and dying keep the pool invariant. |
| LeasePool.CapacityIsTheLargestRequest | packages/ac-jobs/src/ac_jobs/lease_pool.py:54-87 | The persisted capacity is the largest that any instance asked for. |
| LeasePool.GrantRespectsLimit | packages/ac-jobs/src/ac_jobs/lease_pool.py:112-147 | At a grant with limit L at most L slots of the instance's capacity are held; the grant is of the first slot found free; without a grant every probe is released. |
| LeasePool.PoolIsBounded | packages/ac-jobs/src/ac_jobs/lease_pool.py:54-87 | Held slots never exceed the persisted capacity, which never shrinks; a probe exists only during its own scan. |
| LeasePool.HolderKeepsItsSlot | packages/ac-jobs/src/ac_jobs/lease_pool.py:112-147 | A granted slot stays with its holder until that holder releases it or dies. |
| LeasePool.ReleaseFreesItsSlot | packages/ac-jobs/src/ac_jobs/lease_pool.py:26-32 | A holder's release, or its death, frees just what it held. |
| LeasePool.ReleasedSlotCanBeAcquired | packages/ac-jobs/src/ac_jobs/lease_pool.py:112-147 | A released slot can be had at once by an acquisition whose limit the others leave room for. |
| LeasePool.UndisturbedAcquireSucceedsIff | packages/ac-jobs/src/ac_jobs/lease_pool.py:112-147 | An acquisition that runs alone takes one more slot iff fewer than its limit are held, and gives the acquisition lock back either way. |
| ArtifactStore.StepKeepsInv | packages/ac-jobs/src/ac_jobs/storage.py:282-330 | Every publishing step and every death keeps the store invariant, for any hash. |
| ArtifactStore.PublishedIsReadForever | packages/ac-jobs/src/ac_jobs/storage.py:362-406 | Once a publication returned, reading and finding give exactly its bytes and reference in every later state. |
| ArtifactStore.LonePublicationEnds | packages/ac-jobs/src/ac_jobs/storage.py:282-330 | A publication alone ends within six steps: returned iff its content's hash holds no other content and its id is unpublished or published just so, else in the conflict at fault. |
| ArtifactStore.FindIsExact | packages/ac-jobs/src/ac_jobs/storage.py:362-374 | After any run an id is absent iff nothing stands at its place, fails iff another id of the same hash does, and is otherwise found with content that reads back. |
| ArtifactStore.ReadsAreVerified | packages/ac-jobs/src/ac_jobs/storage.py:396-409 | From any directory, damaged or not, content is handed out only for the reference its manifest holds and only with the digest that reference names. |
| ArtifactStore.PublishedWasAsked | packages/ac-jobs/src/ac_jobs/storage.py:282-330 | Every manifest and outcome is that of a publication somebody asked for. |
| ArtifactStore.ManifestsNameObjects | packages/ac-jobs/src/ac_jobs/storage.py:282-330 | Every manifest names a stored object of its digest. |
| ArtifactStore.PublicationsAgree | packages/ac-jobs/src/ac_jobs/storage.py:313-330 | All successful publications of one id are the same publication. |
| ArtifactStore.ConflictsHaveCauses | packages/ac-jobs/src/ac_jobs/storage.py:292-330 | An object conflict exhibits two contents of one hash; a manifest conflict exhibits a different earlier publication. |
| GroupWorkers.EveryRunIsSequential | packages/ac-jobs/src/ac_jobs/group_workers.py:98-164 | However calls interleave and die, the control and all answers are those of calls made one at a time: no update is lost. |
| GroupWorkers.AnswersTookEffect | packages/ac-jobs/src/ac_jobs/group_workers.py:98-164 | Every answered call is one of them, with that answer. |
| GroupWorkers.EffectsWereAsked | packages/ac-jobs/src/ac_jobs/group_workers.py:98-164 | Every effect is of a call that was started, with what it asked. |
| GroupWorkers.LoneCallEnds | packages/ac-jobs/src/ac_jobs/group_workers.py:98-164 | A call that nobody disturbs is answered after one reading and one commit as the sequential call is. |
| GroupWorkers.InitializeTakesHold | packages/ac-jobs/src/ac_jobs/group_workers.py:98-130 | An initialise is refused iff its target is not between one and its capacity; the first one stores what was asked at revision zero, a later one at most enlarges the capacity. |
| GroupWorkers.SetTakesHold | packages/ac-jobs/src/ac_jobs/group_workers.py:138-164 | A set is refused, without effect, iff the group has not started or the target is out of bounds; otherwise it changes the target it found to the one asked for, and nothing else, counting a real change. |
| GroupWorkers.RetriesOnlyAfterAnotherWrite | packages/ac-jobs/src/ac_jobs/storage.py:202-238 | A create or swap is turned away iff another process has written since the read. |
| GroupWorkers.ControlIsAlwaysInBounds | packages/ac-jobs/src/ac_jobs/group_workers.py:42-79 | The target always lies in 1 to capacity. |
| GroupWorkers.CapacityNeverShrinks | packages/ac-jobs/src/ac_jobs/group_workers.py:64-79 | Capacity and revision never fall, and an equal revision means an equal control. |
| GroupWorkers.CapacityGrowsOnlyOnRequest | packages/ac-jobs/src/ac_jobs/group_workers.py:118-130 | The capacity stays iff no later initialisation asks for more. |
| GroupWorkers.TargetsStayWithinIff | packages/ac-jobs/src/ac_jobs/group_workers.py:138-164 | From any point on, the targets stay within a capacity iff no accepted set exceeds it. |
| GroupWorkers.RunnerReadsAcceptableTargets | packages/ac-jobs/src/ac_jobs/engine.py:805-829 | At every moment after its initialisation a runner reads a target between one and its capacity, iff no accepted set after that call exceeds the capacity; an operator's earlier target survives the initialisation. |
| GroupWorkers.RunnerCanReadTooLargeTarget | packages/ac-jobs/src/ac_jobs/groups.py:315-325 | A concrete run: a small initialisation, a larger one, and a set above the first one's capacity. |
| WorkGroup.LoadUnits | packages/ac-jobs/src/ac_jobs/groups.py:212-245 | The loading loop copies, takes over and queues units as specified, and stops iff some unit's document is for another input, with the copies made so far. |
| WorkGroup.NewestIsTheLastHolder | packages/ac-jobs/src/ac_jobs/engine.py:789-804 | The replayed document is that of the newest earlier epoch that holds the unit. |
| WorkGroup.StartCopiesExactly | packages/ac-jobs/src/ac_jobs/groups.py:212-245 | A start copies a unit iff the document of the newest earlier epoch holding it is a success for the same input; it never stops at a mismatch; exactly the units without a document are queued, in their order, and the others are the results. |
| WorkGroup.StepKeepsInv | packages/ac-jobs/src/ac_jobs/groups.py:308-351 | Every scheduler step, worker outcome, exception and crash keeps the group invariant. |
| WorkGroup.UnitsArePartitioned | packages/ac-jobs/src/ac_jobs/groups.py:308-351 | Each unit is in exactly one of pending, in flight, results and pauses, until an exception leaves. |
| WorkGroup.OnlyListedUnits | packages/ac-jobs/src/ac_jobs/groups.py:308-351 | Nothing else is in any of them. |
| WorkGroup.TargetIsTheLastRead | packages/ac-jobs/src/ac_jobs/groups.py:313-330 | While units are submitted the target in force is the one the last effective poll read. |
| WorkGroup.SubmissionsRespectTheTarget | packages/ac-jobs/src/ac_jobs/groups.py:313-328 | A submission stays within the target that the last poll delivered, which lies in 1 to capacity; it takes the first pending unit, which has no document, and never happens after the group has to stop. |
| WorkGroup.BadTargetEndsTheRun | packages/ac-jobs/src/ac_jobs/groups.py:314-325 | A target outside 1 to capacity submits nothing more and sends the group to its exit. |
| WorkGroup.OutcomeReachesTheGroup | packages/ac-jobs/src/ac_jobs/groups.py:329-350 | What a worker ends with is what the group takes in: a stored result, a pause, or an exception that leaves. |
| WorkGroup.ReturnWaitsForWorkers | packages/ac-jobs/src/ac_jobs/groups.py:308-351 | A run ends by itself only when every submitted worker has settled. |
| WorkGroup.DocumentsNeverChange | packages/ac-jobs/src/ac_jobs/groups.py:290-301 | Within an epoch, across restarts, a stored document never changes. |
| WorkGroup.StoredUnitsAreNeverInvoked | packages/ac-jobs/src/ac_jobs/groups.py:212-245 | Within an epoch, across restarts, a unit with a document is never submitted again. |
| WorkGroup.SuccessIsNeverRepeated | packages/ac-jobs/src/ac_jobs/groups.py:212-245 | A unit that has succeeded is never submitted again in any later epoch either, while its input stays the same. |
| WorkGroup.SelectOutcome | packages/ac-jobs/src/ac_jobs/groups.py:352-365 | The first unit with a run-level pause decides, else the first paused one, else all results in unit order. |
| WorkGroup.ListedInUnitOrder | packages/ac-jobs/src/ac_jobs/groups.py:362-365 | The returned list holds exactly the units with a result, once each, in unit order. |
| WorkGroup.ChosenIsUnique | packages/ac-jobs/src/ac_jobs/groups.py:354-361 | At most one unit can decide. |
| WorkGroup.ReturnedResultsAreStored | packages/ac-jobs/src/ac_jobs/groups.py:308-365 | Without a pause, the returned results are exactly the stored documents of the units. |
| WorkGroup.OmissionHasAListedFailure | packages/ac-jobs/src/ac_jobs/groups.py:302-365 | Without a pause, a unit is omitted only under fail-fast when a listed unit failed. |
| WorkGroup.RerunStartsFromTheResults | packages/ac-jobs/src/ac_jobs/groups.py:210-245 | Running a returned group again starts from the very same results, writes nothing, and is at once finished if none was omitted. |
| WorkGroup.WorkOnlyFalls | packages/ac-jobs/src/ac_jobs/groups.py:312-350 | Pending plus in-flight work never grows and falls with every worker taken in. |
| WorkGroup.NeverStuck | packages/ac-jobs/src/ac_jobs/groups.py:312-350 | A run always has a move of its own that changes something, or some worker is still busy. |

## Left out

- Concurrent processes are modelled as step functions on values in RunKernel, LeasePool, ArtifactStore, GroupWorkers and WorkGroup, not as classes updated in place, because their statements are about interleavings; aliasing between such states is not modelled.
- Files, fsync, permissions, locks, threads, sockets, HTTP, subprocesses and PDF parsing: a lease, an atomic replacement and a crash are steps, a file is its content.
- JSON codecs and schema checks: a document is its decoded value, and the event codec is any encoding without line breaks that decodes back.
- Hashing: the artifact store is proved for every hash function; semantic keys and group ids are opaque values.
- Regular expressions, Unicode normalisation and tokenisation: a term is its match function, a line is what the heading patterns see of it, a title comparison, the body overlap, the section digest, the structural-title test and the header key parser are parameters.
- An entry's provenance record, and the warning texts.
- The digest in a section id is a parameter and may collide; the overlay's duplicate check is one of the modelled refusals.
- The heap of `heapq` is a priority queue of distinct (start, end, term) items; a term's compiled pattern always matches non-empty text.
- TextEscape.WrittenTextOpensNothing: speaks of one span and its prefix; of the renderer's joining only the joint itself is modelled (TextEscape.JoinedSpansAreDeadIff), its blanks, hyphens and formulas are a parameter of MergeChains.
- Finding a block's original lines among the preprocessed blocks, and scaling its box, are inputs of MergeChains.
- Top-level structure and version checks of the restoration, and error texts and details everywhere.
- `_context`, line and column numbers, the ripgrep prefilter, candidate selection and representation preference of the search.
- Resume inputs, working state, recovery preparation, the lease information file, event emission inside the kernel, and spec conflicts at creation: they can end a process early, which the kernel model allows between any two steps by a crash or by giving up.
- Timestamps, polling delays and fairness: progress is a falling measure and the absence of stuck states.
- `read_source` and `adopt` of the artifact store, identifier validation, registries and command lines.
- The group's unit set check is exact equality of the listed units; group ids and event emission of units are not modelled.
