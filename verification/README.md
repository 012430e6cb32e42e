# A verified model of the deterministic cores

This project models, in Dafny 4.11, the deterministic parts of an agent runtime and its
code-analysis engine, and proves what each of them promises.

* **Call graph** (`Snapshot`, `Query`, `Listings`, `Reach`, `Discovery`, `SnapshotRepository`). One immutable generation
  with three lookup tables, a breadth-first walk with a depth limit and a visit budget, and a bounded
  store of generations. The walk is proved against the ball of a given radius in the graph that a
  plain scan of the calls describes; `Callers` is the exact converse of `Callees`.
* **File graph** (`RepoView`). A second breadth-first search, which marks files when they are queued
  instead of when they are taken, proved against the same ball.
* **Paging** (`Paging`, `FindingsList`). Printable cursors, and one theorem about following them that
  both page formats instantiate.
* **Context compaction** (`Messages`, `Transcript`, `TranscriptMeaning`, `Compaction`,
  `CompactionValidity`, `Rounds`, `Elision`, `ElisionSize`, `Stubs`, `Superseded`, `Rereads`, `Blocks`,
  `WindowPolicy`). The transcript validator
  and what it accepts in declarative terms; eliding old tool output, dropping old messages together with the other
  halves of their tool calls, replacing reads that a later read covers, and the policy that decides
  when to compact.
* **Refresh cache** (`RefreshCache`). Staged and committed extraction results through success,
  cancellation, extraction errors and failed publication.
* **Duplicate functions** (`Duplication`, `DuplicationLaws`, `Grouping`, `Copies`). The index of near copies, the
  comparison of one edited file, and exactly when it finds what rebuilding the index would.
* **Findings** (`Findings`, `Priority`, `Ranking`). Per-rule bounds, suppression, ranking and counts.
* **Admission** (`Admission`). Duplicate detection over a bounded window and session revisions.
* **Capabilities** (`Capabilities`, `Delegation`). The execution policy and chains of delegation.
* **Positions** (`LineIndex`). Byte offsets of UTF-8 text to line and column.

`Sorting`, `Text`, `Arithmetic` and `Common` hold what these share: stable sorting and what determines
its result, the string operations of the standard library that the code relies on, and division.

Code that changes things in place is modelled by classes, arrays and loops that are proved against
specification functions; the laws are lemmas about those functions. What the main operations answer is
stated once more without those functions, on the fields of requests, calls, messages, files and findings:
`Query.Tells`, `Compaction.KeepsSurvivors`, `Stubs.Shrunk`, `Rereads.Rewritten`, `RefreshCache.StoppedBy`,
`Copies.ReportsPath`, `Priority.GoesBefore`, `Delegation.IsNarrowed` and `Admission.Reaches` are these
statements. Loops and a few contracts state a predicate as an equation, `P(x) == true`. It means the same
as `P(x)`, and the verifier then carries the predicate as a whole instead of clause by clause.

Three places where the code and its own comments differ, and the model follows the code:

* A traversal with no resolution filter is documented to follow resolved and possible edges
  (`crates/code-analysis/src/model.rs:238`), but in the direction of callees it also collects
  unresolved ones (`crates/code-analysis/src/query.rs:257`). `Query.DefaultFilter` proves that the
  callables are those of the documented filter, and that the edges are exactly when no callable in range
  makes an unresolved call or only callers are followed.
* The limits of an answer are documented as those that cut the subgraph short
  (`crates/code-analysis/src/model.rs:261`), but the depth limit is named whenever a neighbour at the
  requested depth has not been expanded yet, even if it is already queued
  (`crates/code-analysis/src/query.rs:229-236`). `Query.DepthFlagFalseAlarm` gives a snapshot where
  nothing is missing. `Discovery.FlagIsRightIff` proves for which graphs the flag is right whatever the
  order of expansion, and `Discovery.FlagIsRightInOrderIff` for which it is right in a given order;
  `Query.WalkFrom` fixes the order.
* Elision is documented to shrink bulky output to a short stub (`crates/context/src/compaction.rs:4`). A
  stub is short, but it can be longer than what it replaces: `ElisionSize.FourByteOutputGrows` and
  `ElisionSize.StampAloneGrows` give such outputs for every tool, and `ElisionSize.ElidedIsShorterIff` proves
  when a stub is shorter.

One result of the code is not determined by its input. A hash map decides in which order the groups of
equal shape are visited, and where functions of different shapes share a place in a file, the index depends
on that order (`DuplicationLaws.TiesDependOnVisitingOrder`). `DuplicationLaws.RebuildIsDeterminedIff` proves
for which files it does not, and `DuplicationLaws.IncrementalEqualsRebuildIff` when comparing one edited file
finds what the rebuilt index reports, in every order.

## Model

| member | source | states |
|---|---|---|
| Snapshot.NewSnapshot | crates/code-analysis/src/snapshot_repository.rs:45-77 | looking up a caller or a target in the built tables gives, position by position and mention by mention, what scanning all calls for it gives; each id maps to its last callable |
| Snapshot.SitesOf | crates/code-analysis/src/snapshot_repository.rs:52-63 | the positions listed for an id are exactly the calls made by it, and exactly the calls that mention it |
| Listings.TablesList | crates/code-analysis/src/snapshot_repository.rs:52-63 | the by-caller table lists a call once, under its caller; the by-target table once under its target and once for each time a candidate occurs; both in the order of the calls |
| Snapshot.SitesAreWellResolved | crates/code-analysis/src/service.rs:522-672 | whatever the resolver answers, an unresolved site has no target and no candidates, a resolved one has exactly one, candidates stay within their limit, and an external name never comes with a workspace target |
| Snapshot.SiteMeans | crates/code-analysis/src/service.rs:522-672 | the site of each outcome: a known target resolves it; several make it possible, with the first eight known ones in order and a note when there were more; all else leaves it unresolved |
| Reach.BallIsShortPaths | crates/code-analysis/src/query.rs:201-246 | the ball used as specification is exactly what paths of bounded length reach |
| Query.NeighboursOf | crates/code-analysis/src/query.rs:248-277 | the table lookups return the known callables one allowed edge away, in the order and multiplicity of a scan of the calls, and note exactly the allowed incident edges |
| Query.StepMeans | crates/code-analysis/src/query.rs:248-277 | w is one step from v exactly when it is a callable and some call that the request follows has v as its caller and w as its target or a candidate, or the other way round |
| Query.RangeMeans | crates/code-analysis/src/query.rs:201-246 | the callables in range are those that a chain of such calls from a root leads to, no longer than the requested depth |
| Query.WalkFrom | crates/code-analysis/src/query.rs:205-246 | callables are expanded in the one order a queue yields; the budget stops the walk exactly when more of them are in range than it allows, after the first ones in that order; otherwise exactly those in range are found, nearest first; the edges are exactly the allowed ones of the expanded callables; the depth flag says exactly whether one at the requested depth came before one of its neighbours |
| Discovery.DiscoveredUnique | crates/code-analysis/src/query.rs:205-246 | the order in which the queue yields vertices is determined by the roots, the neighbour lists and the depth limit |
| Query.WalkOrderUnique | crates/code-analysis/src/query.rs:205-246 | so a snapshot and a request have one order of expansion |
| Query.Traverse | crates/code-analysis/src/query.rs:127-199 | which requests are refused and why; what is listed and what each named limit means, with and without a used-up budget; for the depth limit, when it says that something lies out of range. On the fields: the listed callables and calls are in range and in snapshot order, all of them unless a limit on them is named, and all that chains of any length lead to when none is |
| Listings.RefusalMeans | crates/code-analysis/src/query.rs:170-198 | a request is accepted exactly when it has a limit, a depth of at most 32 and from 1 to 64 roots that are all callables; of several faults the first in this order is reported |
| Query.StoppedUnique | crates/code-analysis/src/query.rs:219-228 | a used-up budget stops the walk in one place only, so what is then listed and flagged is determined |
| Reach.ClosedBallIsReachable | crates/code-analysis/src/query.rs:219-243 | a ball closed under steps is the whole reflexive-transitive closure |
| Reach.AlarmMeaning | crates/code-analysis/src/query.rs:229-236 | no depth flag means nothing lies beyond the range; a flag means an edge out of the last layer or inside it |
| Discovery.SomeOrderAlarms | crates/code-analysis/src/query.rs:229-236 | some order of expansion raises the flag exactly when there is such an edge |
| Discovery.FlagIsRightIff | crates/code-analysis/src/query.rs:229-236 | in every order the flag tells whether something lies out of range exactly when something does or no edge joins two callables of the last layer |
| Discovery.FlagIsRightInOrderIff | crates/code-analysis/src/query.rs:229-236 | in a given order it does so exactly when something lies out of range or no edge of the last layer points forward in that order |
| Query.DepthFlagFalseAlarm | crates/code-analysis/src/query.rs:229-236 | the flag is not always right: a snapshot of four calls where every order of expansion raises it although nothing is missing |
| Query.UnresolvedIncidentIff | crates/code-analysis/src/query.rs:47-53 | without a filter an unresolved call is collected at its caller, unless only callers are followed, and nowhere else; the documented filter never collects it |
| Query.DefaultSteps | crates/code-analysis/src/query.rs:248-277 | without a filter the steps are those of the documented one |
| Query.DefaultFilter | crates/code-analysis/src/query.rs:248-277 | without a filter the callables are those of the documented one, and the edges are too exactly when no callable in range makes an unresolved call or only callers are followed |
| Query.CallersConverseOfCallees | crates/code-analysis/src/query.rs:248-277 | y is within n steps of x by callees exactly when x is within n steps of y by callers, under any filter |
| Query.ReachesIffReachedBy | crates/code-analysis/src/query.rs:248-277 | the same for reachability at any depth |
| Query.ListingsAreScans | crates/code-analysis/src/query.rs:85-125 | the calls listed from a caller and to a target are those a plain scan finds, in order, once for each mention |
| Listings.ListingsMean | crates/code-analysis/src/query.rs:85-125 | the calls listed from a caller are those it makes, and those listed to a target those that have it as target or candidate; without a filter, unresolved ones are listed only from a caller |
| Query.AscendingIsSorted | crates/code-analysis/src/query.rs:127-168 | nodes and edges are listed in strictly ascending snapshot position |
| Paging.CursorRoundTrip | crates/code-analysis/src/query.rs:307-323 | a printed cursor decodes to its offset for its own snapshot and is refused by any other, even when ids contain colons |
| Paging.DecodeMeans | crates/code-analysis/src/query.rs:311-323 | a cursor is accepted exactly when it is the id of the snapshot, a colon and a number; another id is told apart from no number |
| Paging.PagesServe | crates/code-analysis/src/query.rs:279-305 | a page under any limit holds the items from its cursor on and hands out the cursor of the next one exactly when there are more |
| Paging.PageMeans | crates/code-analysis/src/query.rs:279-305 | a page is given exactly when it starts within the items, the very end included; it has at least one item if there is one and at most 500, and a cursor exactly when more follow |
| Paging.FollowingCursors | crates/code-analysis/src/query.rs:279-323 | following cursors delivers every item once and in order, with a limit that may change at each call, and ends within as many pages as there are items |
| SnapshotRepository.Repository.PublishNext | crates/code-analysis/src/snapshot_repository.rs:140-152 | a publication removes the generation with the same id, appends the new one and drops the oldest beyond the retention |
| SnapshotRepository.RetainsLatest | crates/code-analysis/src/snapshot_repository.rs:118-163 | after any sequence of publications the store holds exactly the most recently published distinct generations, up to its retention, oldest first |
| RepoView.NewView | crates/findings/src/view.rs:27-56 | both adjacency tables agree with a plain scan of the import edges |
| RepoView.ListingMeans | crates/findings/src/view.rs:31-40 | a file lists exactly its resolved imports of other files, and the resolved imports of it by other files |
| RepoView.ReachableFiles | crates/findings/src/view.rs:89-122 | the search terminates on cyclic graphs and finds exactly the other files that a chain of at most the given number of imports leads to |
| Transcript.ValidateTranscript | crates/agent-core/src/transcript.rs:20-69 | the validator accepts exactly the transcripts that keep the call discipline; its error names the oldest open call where none may be open, or the first result that answers no call left open by those before it, told apart by whether a later message makes the call |
| Blocks.IdsInOrder | crates/context/src/compaction.rs:123-135 | the calls a message makes and answers are those of its blocks, block by block |
| TranscriptMeaning.AcceptsIffWellPaired | crates/agent-core/src/transcript.rs:20-69 | with unique ids, a transcript is accepted exactly when every call made by the assistant is answered later with no user or system message between, and every answer has its call |
| Compaction.CloseOverToolPairs | crates/context/src/compaction.rs:171-201 | the loop terminates and turns the kept set into the least one that includes it and holds both halves of every call it touches |
| Compaction.WithoutDropped | crates/context/src/compaction.rs:203-229 | the kept messages in their original order, with the note after the first gap |
| Compaction.DropPrefix | crates/context/src/compaction.rs:143-229 | exactly those messages stay, in order, that chains of shared calls tie to one of the last, a pinned one, a summary, or the first user message where that is asked for; the note tells how many are missing, where the first of them was; nothing changes when none is |
| Compaction.KeptAreSurvivors | crates/context/src/compaction.rs:143-201 | the kept set is exactly what such chains reach |
| CompactionValidity.KeptIsValid | crates/context/src/compaction.rs:143-229 | the kept messages of a valid transcript are a valid transcript whenever ids are unique |
| CompactionValidity.NoteIsValidIff | crates/context/src/compaction.rs:203-229 | with the note, the result is valid exactly when no surviving call is open at the end of the first gap |
| CompactionValidity.RoundsAreKeptWhole | crates/context/src/compaction.rs:171-229 | with complete rounds that do not interleave no surviving call is open there |
| CompactionValidity.DropPreservesValidity | crates/context/src/compaction.rs:143-229 | dropping keeps a valid transcript with complete rounds valid, note included, for every closed kept set |
| CompactionValidity.InterleavedRoundsBreak | crates/context/src/compaction.rs:217-222 | four messages of two interleaved rounds that are valid and become invalid with the note |
| Rounds.AlwaysValidIff | crates/context/src/compaction.rs:143-229 | every closed kept set gives a valid result, note included, exactly when every message between a call and its answer is tied to the call by a chain of shared calls |
| Rounds.CompactionIsSafeIff | crates/context/src/compaction.rs:143-229 | whatever number of messages and whatever protection a caller asks for, compaction gives a valid transcript, exactly under that condition |
| Elision.StubIsStub | crates/context/src/compaction.rs:19-40 | every stub is recognized as one, whatever the tool is called and whatever it put out |
| Elision.ElideOnce | crates/context/src/compaction.rs:29-45 | eliding an elided result changes nothing |
| Elision.StampSurvives | crates/context/src/compaction.rs:24-33 | the recovery stamp of shortened output is found again in its stub |
| ElisionSize.ElidedIsShorterIff | crates/context/src/compaction.rs:100-117 | eliding trades what is cut off for the overhead of the stub, and shortens a result exactly when the overhead is the smaller |
| ElisionSize.StubIsShort | crates/context/src/compaction.rs:14-17 | a stub has at most 955 bytes and the name of its tool, however long the output was |
| ElisionSize.LongOutputShrinks | crates/context/src/compaction.rs:76-121 | so output longer than that always shrinks |
| ElisionSize.AsciiShrinks | crates/context/src/compaction.rs:14-17 | so does all elidable ASCII output without a stamp, for tool names below 80 bytes |
| ElisionSize.HeadOnlyGrows | crates/context/src/compaction.rs:100-117 | output that fits in the head as a whole grows by at least 48 bytes |
| ElisionSize.StampAloneGrows | crates/context/src/compaction.rs:109-117 | output that is one recovery stamp grows |
| ElisionSize.FourByteOutputGrows | crates/context/src/compaction.rs:14-17 | an input: from 65 to 120 characters of four bytes grow, whatever the tool is called |
| ElisionSize.HistoryBalance | crates/context/src/compaction.rs:76-121 | the length of a history changes by exactly what its stubs add less what they cut off |
| ElisionSize.HistoryShrinks | crates/context/src/compaction.rs:76-121 | when each replaced result has less overhead than it cuts off, the history is shorter by at least a byte for each |
| ElisionSize.MeasuresAgree | crates/context/src/providers/truncating.rs:61-77 | the budget of compaction and the steps of the read rewriter measure a history alike, save that one counts 6,000 for each image |
| Elision.ElideToolResults | crates/context/src/compaction.rs:76-121 | exactly the large, not yet elided results of unprotected messages outside the tail become stubs, and they are counted |
| Stubs.ElisionMeans | crates/context/src/compaction.rs:76-121 | every message kept for itself stays as it is; in the others exactly the results over 256 bytes that are no stubs yet become stubs |
| Stubs.StubMeans | crates/context/src/compaction.rs:100-117 | a stub names the tool and the size, says whether the call failed, and keeps the first 120 characters and the last stamp |
| Stubs.ToolMeans | crates/context/src/compaction.rs:81-104 | the tool is the one named by the last call with that id |
| Stubs.StampFoundMeans | crates/context/src/compaction.rs:29-35 | the stamp is the last line that, without white space at its end, is in brackets, signed and at most 400 bytes |
| Elision.ElidingTwice | crates/context/src/compaction.rs:76-121 | a second pass counts nothing to elide and changes nothing |
| Elision.SameShapeSameRules | crates/context/src/compaction.rs:76-121 | elision is invisible to the validator, to the uniqueness of ids and to the rounds |
| Elision.Compact | crates/context/src/providers/truncating.rs:61-107 | the two tiers, each only while the messages are too long, keep a valid transcript with complete rounds valid, for every budget, tail and retention set; with unique ids alone the kept messages without the note are valid |
| Superseded.RewritePoint | crates/context/src/superseded.rs:52-67 | the shortest prefix that holds all whole steps of the history |
| Superseded.PointUnderExtension | crates/context/src/superseded.rs:52-67 | the point never moves back when the history grows, and stays until the next whole step is reached |
| Superseded.StubSupersededReads | crates/context/src/superseded.rs:71-120 | exactly the results superseded before the point are replaced, and they are counted |
| Rereads.RewriteMeans | crates/context/src/superseded.rs:71-120 | nothing changes from the point on; before it, exactly the results of reads change that a later read before the point covers, and each says what was read again |
| Rereads.SupersededMeans | crates/context/src/superseded.rs:94-107 | a read is superseded exactly when after some successful result of it another read has one, of the same file, whole or of the same part |
| Rereads.ReadMeans | crates/context/src/superseded.rs:130-152 | what a call asks for: its path without any leading "./", and the listing of its other arguments by key |
| Rereads.CoversMeans | crates/context/src/superseded.rs:154-158 | a read of a part never covers a read of the whole file |
| Superseded.ReplacedHasNewerCopy | crates/context/src/superseded.rs:71-120 | every replaced read has a later read of the same path before the point that covers it and is not replaced itself |
| Superseded.FailedReadsStay | crates/context/src/superseded.rs:71-120 | a failed read is never replaced |
| Superseded.SecondPassReplacesNothing | crates/context/src/superseded.rs:71-122 | rewriting the rewritten history replaces nothing and changes nothing |
| Superseded.PrefixStability | crates/context/src/superseded.rs:38-120 | until the next whole step, the rewritten extended history is the rewritten history followed by the new messages unchanged |
| Superseded.Assemble | crates/context/src/superseded.rs:38-47 | what the provider sends: the history rewritten up to its point, and unchanged below one step |
| Superseded.SentPrefixStays | crates/context/src/superseded.rs:12-16 | what the provider sent is a prefix of what it sends next, until a whole step has been added |
| RefreshCache.CallGraph.FactsOf | crates/code-analysis/src/service.rs:286-357 | cached or not, the facts are what the adapter extracts from the current bytes; an adapter is asked exactly for a key that no cache holds |
| RefreshCache.CallGraph.ExtractFiles | crates/code-analysis/src/service.rs:253-284 | all files' facts in discovery order, the live keys and the keys asked for; it goes through exactly when no check before a file is cancelled and no adapter breaks, and its error tells what was first; the committed cache is untouched and nothing staged is lost |
| RefreshCache.CallGraph.RestoreStaged | crates/code-analysis/src/service.rs:394-408 | a failed publication puts the staged entries back, within the cache limit |
| RefreshCache.CallGraph.Commit | crates/code-analysis/src/service.rs:410-427 | the committed keys become exactly the live keys when they fit, and as many of them as fit otherwise |
| RefreshCache.CallGraph.Refresh | crates/code-analysis/src/service.rs:74-126 | it fails exactly when something stands in its way, and tells what was first: the request, a cancelled check, discovery, an adapter, or publishing; then the committed cache is unchanged. Otherwise no check was cancelled, facts equal fresh extraction, committed keys are exactly the live keys and nothing is staged |
| RefreshCache.StoppedByOne | crates/code-analysis/src/service.rs:74-126 | at most one thing is the first to stop a refresh |
| RefreshCache.CallGraph.RefreshAll | crates/code-analysis/src/service.rs:74-126 | in any sequence of refreshes, whatever fails in it, every successful one used freshly extracted facts |
| RefreshCache.CallGraph.RefreshTwice | crates/code-analysis/src/service.rs:95-107 | a refresh that succeeds again on the same files asks no adapter for one that had facts, and gives the same facts |
| RefreshCache.LiveKeysFit | crates/code-analysis/src/service.rs:20-22 | a discovery has at most one live key for each file, so within the file bound all of them fit in the cache |
| RefreshCache.BoundMeans | crates/code-analysis/src/service.rs:80-88 | the source is asked for as many files as the request says, but at most 10,000 |
| RefreshCache.Evict | crates/code-analysis/src/service.rs:394-427 | eviction stops at the limit and keeps the largest keys |
| Duplication.Build | crates/code-health/src/duplication.rs:55-113 | for some order of visiting the shapes, every path's list is the settled entries of its functions, and the groups are those of the repository |
| Duplication.DuplicatesFor | crates/code-health/src/duplication.rs:122-174 | the settled entries of the functions of one file against the other files |
| Copies.IndexReports | crates/code-health/src/duplication.rs:55-118 | for every path the index reports exactly its compared functions that share a shape with another one and lie inside no other such function: with name, lines and size, and all other functions of the shape by path, name and first line |
| Copies.ComparisonReports | crates/code-health/src/duplication.rs:119-174 | comparing one edited file reports the same of a repository with that file, whatever its functions share |
| Duplication.Settle | crates/code-health/src/duplication.rs:31-50 | sorting, sorting copies and dropping inner entries in place computes the settled list |
| DuplicationLaws.RebuildIsDeterminedIff | crates/code-health/src/duplication.rs:81-113 | the list of a file in a rebuilt index is the same for all orders of the groups exactly when, at every place, the kept entries of any two shapes come to the same in either order |
| DuplicationLaws.IncrementalEqualsRebuildIff | crates/code-health/src/duplication.rs:119-174 | comparing one edited file finds what the rebuilt index reports, in every order and whatever the stale index recorded for the file, exactly when that holds and the kept entries of different shapes are not interleaved |
| Grouping.CommutingIsNotEnough | crates/code-health/src/duplication.rs:133-166 | the second half of that condition does not follow from the first: values that come to the same in either order and are listed interleaved |
| DuplicationLaws.IncrementalEqualsRebuild | crates/code-health/src/duplication.rs:119-174 | so it does for every index and order when comparable functions of one place share a shape |
| DuplicationLaws.TiesDependOnVisitingOrder | crates/code-health/src/duplication.rs:81-113 | an input: three files for which the rebuilt index depends on the order of the groups, because two closures of one place and span have copies in different files |
| DuplicationLaws.SettleKeepsOutermost | crates/code-health/src/duplication.rs:41-49 | an entry is kept exactly when no other span covers its own |
| DuplicationLaws.SettleInventsNothing | crates/code-health/src/duplication.rs:31-50 | what is kept is a listed entry with its copies sorted |
| DuplicationLaws.DroppedInsideKept | crates/code-health/src/duplication.rs:28-50 | everything dropped lies strictly inside something kept |
| DuplicationLaws.SettledInLineOrder | crates/code-health/src/duplication.rs:115-118 | the reported functions of a file come in line order |
| DuplicationLaws.EmptyIffNoCopies | crates/code-health/src/duplication.rs:176-178 | the index is empty exactly when no two comparable functions share a shape |
| Findings.RunRules | crates/findings/src/analyzer.rs:112-155 | the run is cancelled exactly when some check finds it so; otherwise each rule contributes its best drafts in order, skipped and truncated rules are named |
| Findings.KeyRoundTrip | crates/findings/src/analyzer.rs:280-287 | the key recovered from an id is the draft's key, whatever colons rule and key contain |
| Findings.Assemble | crates/findings/src/analyzer.rs:215-277 | ranked and suppressed findings are the sorted halves of the input, each suppressed one with the reason of the first suppression that covers it |
| Ranking.IdOrderIsKeyOrder | crates/findings/src/model.rs:132-148 | within a rule the final order agrees with the order of the drafts |
| Priority.FindingLeMeans | crates/findings/src/model.rs:132-148 | measured before candidate, then severity from high to info, confidence from high to low, more impact first, and ids |
| Priority.ContributionIsBest | crates/findings/src/analyzer.rs:131-154 | a rule that runs contributes as many of its drafts as it may, none milder than one it cut, each with all its fields |
| Priority.CoveringMeans | crates/findings/src/config.rs:49-55 | a finding is hidden by the first suppression of its rule that has its key, or with a star at its end the start of its key |
| Ranking.TruncateThenRank | crates/findings/src/analyzer.rs:131-156 | for any rules, bounding each to its best k and then ranking equals ranking everything and keeping the first k of each rule |
| Ranking.SortPlain | crates/findings/src/analyzer.rs:239 | ranking findings together with their rules is ranking the findings |
| Ranking.TruncateThenRankById | crates/findings/src/analyzer.rs:131-156 | with distinct rule ids, the first k of each rule are the first k of each id |
| Ranking.PartsOfRanking | crates/findings/src/analyzer.rs:216-240 | the ranked and the suppressed findings are the two parts of that list, in its order |
| Ranking.NothingLost | crates/findings/src/analyzer.rs:222-240 | ranked and suppressed together are exactly the kept findings |
| Ranking.CountsAddUp | crates/findings/src/analyzer.rs:241-249 | counts by rule, kind or severity add up to the total |
| Ranking.CountsAreExact | crates/findings/src/analyzer.rs:241-249 | each count is the number of findings with that value, and only values that occur are listed |
| Ranking.Analyze | crates/findings/src/analyzer.rs:95-158 | the whole analysis: the order of both lists by the fields, every finding a draft of a rule that ran, hidden exactly where a suppression covers it, the counts, and the bounds as above |
| FindingsList.ListDelivers | crates/findings/src/set.rs:99-141 | following the cursors of a query delivers every matching finding once and in order, under any allowed limits, and ends |
| FindingsList.MatchingMeans | crates/findings/src/set.rs:116-185 | a query matches exactly the findings that each part of it admits, in order, then the suppressed ones where it includes them; a minimum admits what is as serious, or as sure |
| FindingsList.RefusedFor | crates/findings/src/set.rs:99-114 | why a page is refused: its limit, its set, its query, in this order |
| FindingsList.CursorsAreBound | crates/findings/src/set.rs:105-114 | a cursor is accepted only by the set and the query it was handed out for |
| Admission.Handler.Insert | apps/harnessd/src/handler.rs:46-64 | a new answer is remembered and the oldest beyond the window are forgotten |
| Admission.Handler.MutateSession | apps/harnessd/src/handler.rs:335-451 | the new state and the response of one mutation, with every way to refuse it |
| Admission.UnreachedIsTold | apps/harnessd/src/handler.rs:354-400 | a command that names another session, repeats one, expects another revision or finds its session closed changes nothing and is told which |
| Admission.ReachedIsAnswered | apps/harnessd/src/handler.rs:402-451 | any other is answered by its session and remembered; taken, it makes the next revision, and closing forgets the session |
| Admission.NoLostUpdate | apps/harnessd/src/handler.rs:380-396 | of two commands that expect the same revision the second is not taken once the first was |
| Admission.CacheHoldsWindow | apps/harnessd/src/handler.rs:29-64 | over any run the cache holds exactly the last 1024 settled commands, once each and in order, with their answers |
| Admission.RepeatIsHarmless | apps/harnessd/src/handler.rs:366-380 | a repeat within the window returns the original result and revision and changes nothing |
| Admission.OnlyTheWindowRepeats | apps/harnessd/src/handler.rs:366-380 | no other command is taken for a repeat |
| Admission.RevisionCountsAccepted | apps/harnessd/src/handler.rs:413-440 | a session's revision is the one it was last created or restored with plus the commands accepted since, up to saturation |
| Admission.OpenSessionsHaveRevisions | apps/harnessd/src/handler.rs:172-333 | every open session has a revision |
| Capabilities.PolicyIsMonotone | crates/agent-core/src/execution_policy.rs:35-103 | more grants and a freer mode never take a tool away, save the plan tool of plan mode |
| Delegation.AllowsToolIff | crates/agent-core/src/execution_policy.rs:35-100 | exactly which tools a session has, by its grants and its mode |
| Delegation.ServerAccessIff | crates/agent-core/src/execution_policy.rs:14-33 | when a server is used fully, for reading, or not |
| Capabilities.CommandsImplyWritesAndWeb | crates/agent-core/src/execution_policy.rs:14-87 | a session that may run any command tool may also write, reach the web and use its allowed servers fully |
| Capabilities.ModesCompared | crates/agent-core/src/execution_policy.rs:35-87 | for equal grants, exactly which tools a virtual session lacks against an executing one, and a planning session against a virtual one |
| Capabilities.Toolset.Restrict | crates/agent-core/src/execution_policy.rs:105-114 | every tool neither permitted nor discovered is denied, disabled and made undelegatable; no other is touched |
| Delegation.RestrictionMeans | crates/agent-core/src/execution_policy.rs:102-114 | a tool the policy allows or discovery found stays as it is; any other is denied, disabled and made undelegatable |
| Capabilities.DeriveChildTools | crates/agent-core/src/capabilities.rs:45-109 | a delegation succeeds exactly when every named tool can be delegated; a subset is refused at its first tool that cannot, with the matching error |
| Capabilities.DeriveChildAgent | crates/agent-core/src/capabilities.rs:111-132 | the child of a successful delegation |
| Capabilities.ToolsNeverWiden | crates/agent-core/src/capabilities.rs:45-132 | along every chain, a descendant's tools were held, delegatable and enabled in every proper ancestor, which granted no less |
| Delegation.HeldIff | crates/agent-core/src/capabilities.rs:45-109 | a descendant holds a tool exactly when every spawn on the way names it and nothing above shut it off; it is enabled, delegatable and permitted exactly as the root and all that was asked for on the way allow |
| Capabilities.DescendantsStayWithinPolicy | crates/agent-core/src/execution_policy.rs:102-114 | every tool of a descendant of a restricted root is permitted by the policy or a discovered server tool |
| Capabilities.PermissionIsStrictest | crates/agent-core/src/capabilities.rs:86-101 | a descendant's permission is exactly the strictest one asked for on the way |
| Capabilities.SpawningEnds | crates/agent-core/src/capabilities.rs:119-128 | exactly the levels short of the root's limit may spawn, so none at max(d, 1) or deeper |
| Capabilities.OverridesReplace | crates/agent-core/src/capabilities.rs:129-130 | a descendant has the workspace named last on its way, and the backend named last, or the root's where none is named |
| LineIndex.NewIndex | crates/findings/src/source.rs:44-48 | the starts are zero and one past every newline |
| LineIndex.PartitionPoint | crates/findings/src/source.rs:55 | the binary search returns what a linear scan counts |
| LineIndex.Position | crates/findings/src/source.rs:51-58 | the indexed position is the end of the text before the offset, both numbers truncated to 32 bits and counted from one, with the overflow of that count in builds that check it and in builds that wrap |
| LineIndex.ReportedIsExactIff | crates/findings/src/source.rs:57 | a position is reported as it is exactly when fewer than 2^32 - 1 newlines, and fewer than 2^32 - 1 characters since the last of them, come before it |
| LineIndex.ReportedIsExact | crates/findings/src/source.rs:57 | so is every position below 2^32 - 1 bytes |
| LineIndex.LongLineOverflows | crates/findings/src/source.rs:57 | that bound is tight: the end of a line of 2^32 - 1 characters overflows or is reported in column zero |
| LineIndex.BoundaryIffCharacter | crates/findings/src/source.rs:52 | the boundaries of encoded text are exactly the offsets of its characters and its end |
| LineIndex.PositionIsPlace | crates/findings/src/source.rs:50-58 | a position is defined exactly at those offsets and is the line and column that reading the characters before it gives |
| LineIndex.LineCountsNewlines | crates/findings/src/source.rs:50-58 | the line is one more than the newlines before it |
| LineIndex.ColumnCountsCharacters | crates/findings/src/source.rs:50-58 | the column is one more than the characters since the last newline |
| LineIndex.PositionsIncrease | crates/findings/src/source.rs:50-58 | larger offsets have strictly larger positions |
| WindowPolicy.NoOverflow | crates/context/src/policy.rs:173-182 | at no machine word does the 128-bit arithmetic overflow or saturate |
| WindowPolicy.PressureReaches | crates/context/src/policy.rs:177-182 | pressure reaches p percent exactly when a hundred times the tokens exceed p - 1 budgets |
| WindowPolicy.BudgetFits | crates/context/src/policy.rs:82-112 | when there is a budget, and that it fits in the window together with the reserved output |
| WindowPolicy.RefusedIff | crates/context/src/policy.rs:70-80 | which policies are refused |
| WindowPolicy.BudgetIsExact | crates/context/src/policy.rs:82-112 | there is a budget exactly when the safe share of a known window leaves something beside the reserved output, and it is all that is left |
| WindowPolicy.PressureIsExact | crates/context/src/policy.rs:108-113 | the pressure shown is the percentage rounded up |
| WindowPolicy.TargetIsExact | crates/context/src/policy.rs:125-133 | the target is the configured share of the budget, the emergency one in an emergency, rounded down |
| WindowPolicy.DecisionThresholds | crates/context/src/policy.rs:108-123 | each decision as an exact inequality |
| WindowPolicy.TargetsProceed | crates/context/src/policy.rs:82-133 | input at or below the normal or emergency target is judged to proceed |
| WindowPolicy.DecisionsMonotone | crates/context/src/policy.rs:82-123 | more tokens never give a milder decision |

## Left out

- DuplicationLaws.IncrementalEqualsRebuildIff: asks that the edited file be listed once and not as a test file; a comparison does not look at the latter.
- Rounds.AlwaysValidIff: asks that calls are made in assistant messages and answered in tool messages only, once each; the validator ignores such blocks elsewhere, while the pairing of messages does not.
- Rounds.CompactionIsSafeIff: asks the same, and that no two messages share an id, as ids are random.
- RefreshCache.CallGraph.RefreshAll: asks that equal hashes mean equal bytes and that extraction depends on path, text and adapter version only.
- RefreshCache.CallGraph.Refresh: asks that the source finds no more files than it is asked for; its scan is left out.
- Superseded.ReplacedHasNewerCopy: asks for one result for each call id.
- FindingsList.ListDelivers: the fingerprint of a query is the query itself, that is, a digest without collisions.
- Locks, concurrent requests, tracing, metrics, clocks and timestamps: a mutation or a refresh is one step.
- The await between admission and settlement of a mutation (`apps/harnessd/src/handler.rs:341-347`): two mutations of one session in flight at once are not modelled.
- File discovery, reading and hashing, and language adapters and resolvers: their answers are arbitrary inputs.
- `find_callables` and the listing of a file's or package's edges: simple filters over the same data.
- JSON encoding, SHA-256 digests, snapshot identities and diagnostics text: labels, and error messages are constructors.
- The texts, evidence and locations of a finding: one opaque content value.
- Health score trends, usage totals, session storage and user interfaces.
