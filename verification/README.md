# Genesis: the algorithms and protocols underneath, verified

Genesis runs many coding agents ("angels") against one repository. This project models, in Dafny, the parts of it
that decide what happens to files, leases and prompts, and proves what they do. One module stands for one component:

- `LineDiff`, `Hunks`, `StrictPatch`: the line diff shown after an integration. The LCS table and its traceback are
  minimal and settle every tie one way, and a strict patcher, written independently and trusting nothing, takes the
  hunks from the old file to the new one and back.
- `PatchSections`, `ContextSearch`, `ContextParser`, `ContextPatch`, `PatchText`, `PatchEdits`, `UpdateLoop`,
  `ChunkOrder`, `AcceptedPatch`: the context patch format, from the section splitter and the three-level search to the
  parser object and the fuzz gate. A commit makes exactly the changes that the lines of its patch ask for, and deletes
  exactly the lines they name; exactly which updates run forever, and exactly which patches put their chunks out of
  order.
- `Leases`, `FileClocks`, `Integration`: the event-sourced lease table and file clocks, manifest validation, and the
  protocol of any number of owners on top of them.
- `CycleDetection`: the three-colour search over mission dependencies.
- `AnchoredEdits`, `EditListings`: edits guarded by hashes of the lines around them, one by one and as listings.
- `ExtractJson`, `Tsln`, `TslnDocument`, `Replay`, `Sectioner`, `DeltaPatch`, `PromptPack`: JSON extraction from model
  output, the TSLN telemetry codec, record and replay, the prompt sectioner, the `@K`/`@S` delta language, and the
  packing of shards under a token budget.
- `Strings`: splitting, joining, trimming and decimal numbers as the Go library does them.

Strings are sequences of bytes, one byte to a `char`. Where the Go code panics, runs forever or overflows 64 bits, the
model has an outcome for it (`Panic`, `Loops`, wrapped arithmetic) instead of a precondition. Files are a map from path
to content, the event log is a sequence of events, hashes and classifiers are function parameters, and random IDs are
parameters that are assumed fresh. Most methods are proved equal to a function of their inputs or of the old state, and
the properties are lemmas about that function; `ensures` clauses that say the property outright are used where the
method is the whole story (`DetectCycle`, `UnifiedDiff`, `ProcessPatch`).

To check everything: `dafny verify dfyconfig.toml`.

## What the proofs found

- Record and replay (`god/recorder.go`): every call that was answered is replayed with its answer. A call that failed
  while recording has no entry, and its failure is replayed exactly when no answered call has its mission or the hash of
  its pack; otherwise the lookup falls through to one of those and answers (`Replay.ReplayIsFaithful`,
  `Replay.FailureIsFilledIn`).
- TSLN (`internal/lean/encoder.go:91-102`, `internal/lean/decoder.go:145-160`): an unchanged counter is written `0` and
  read back as the absolute value 0. Decoding returns the rows exactly when they are `Lossless`; a repeated non-zero
  counter, a status `=` after another status, or a base that is not a whole second loses data.
- Context patches (`cli/internal/diff/patch.go`): both trimming levels report fuzz 1 and never the 100 of the comment at
  line 350. An end-of-file section can be placed before the position already reached, so that a patch that parses
  without fuzz has chunks that `getUpdatedFile` refuses (`ChunkOrder.MarkerClash`); this happens exactly when some
  marked section is not placed behind the chunks before it. Its search starts before the file, and panics, when the
  context is longer than the file. `parseUpdateFile` runs forever exactly when its lines come to a stray `***` or `@@x`
  line over passive lines only: added lines, and section starts whose definition, if any, is not in the file
  (`UpdateLoop.LoopsIff`).
- Delta content (`god/patch_v1.go:321-355`): a count that overflows the position panics for `@K` and moves the position
  before the span for `@S`; the panics are exactly those of `DeltaPatch.PanicsIff`. Without overflow the language is
  sound, and it can tell a change exactly when the new lines that look like indented directives are, in order, lines of
  the span. With overflow, lines of the span can be repeated and reordered at will (`DeltaPatch.CanTellAnyIff`).
- Anchored edits (`god/edit_apply.go`): a bottom-up listing of disjoint spans applies after a rebase when, for each
  span, the three lines after it are still what they were once the spans below are replaced, and with a hash that tells
  texts apart only then (`EditListings.ListingIff`); three lines between spans are always enough. Nothing is rolled back
  when an edit fails, so an integration that gives up half way changes files without moving their clocks
  (`Integration.HalfWayGoesUnseen`).
- Leases during an integration (`god/integrator.go:77-141`): a step keeps every open integration leased exactly when it
  does not release a lease that one of them needs; nothing in the code prevents such a release, after which two owners
  can pass their checks for the same file (`Integration.ReleaseLetsIn`).
- The diff (`god/edit_diff.go:214-220`) is empty exactly when the line lists are equal, so it does not see a missing
  final newline.
- `README.md:474` of the repository says that leases expire. The code never expires one, and the model has no expiry.
- The budget subtraction in `god/prompt_compiler.go:248` is exact unless the budget lies so close to the smallest
  64-bit integer that it wraps around, in which case an impossible budget leaves room (`PromptPack.RoomIff`).

## Model

| member | source | states |
|---|---|---|
| `LineDiff.FillTable` | god/edit_diff.go:82-97 | every entry of the table is the value of the recurrence for the suffixes it stands for |
| `LineDiff.ComputeDiff` | god/edit_diff.go:79-125 | the traceback through the table yields the script `Diff(a, b)` |
| `LineDiff.ScriptSides` | god/edit_diff.go:99-124 | from any cell the script spells both suffixes, and keeps as many lines as the table entry says |
| `LineDiff.LcsIsLongest` | god/edit_diff.go:87-97 | no common subsequence of two suffixes is longer than their table entry |
| `LineDiff.DiffIsCorrect` | god/edit_diff.go:77-125 | the script's old side is a, its new side is b, and its kept lines are a longest common subsequence among all of them |
| `LineDiff.DiffIsMinimal` | god/edit_diff.go:77-125 | no script from a to b has fewer insertions and deletions |
| `LineDiff.DiffIffCanonical` | god/edit_diff.go:99-124 | a script from a to b is the one found exactly when it is minimal, keeps equal heads wherever it can, and inserts a line only where no shortest script of the rest begins with a deletion; this settles every tie |
| `LineDiff.DeletionsGoFirst` | god/edit_diff.go:107-113 | no deletion follows an insertion directly: a replaced line is deleted before its replacement is inserted |
| `LineDiff.UnchangedIffEqual` | god/edit_diff.go:46-55 | the script has no change exactly when the files are equal |
| `Hunks.FindRuns` | god/edit_diff.go:130-142 | the ranges found are the maximal runs of changed ops |
| `Hunks.GroupRuns` | god/edit_diff.go:147-158 | runs at most six ops apart are joined, in order |
| `Hunks.CountBefore` | god/edit_diff.go:171-183 | the start numbers are the numbers of old and new lines before the hunk |
| `Hunks.Show` | god/edit_diff.go:185-200 | the counts are the numbers of old and new lines shown, each line with the prefix of its kind |
| `Hunks.MarkedLine` | god/edit_diff.go:185-200 | a shown line is its text behind a blank, a minus or a plus |
| `Hunks.BuildHunk` | god/edit_diff.go:162-208 | the window is clipped at both ends and the hunk's positions and counts are the true ones |
| `Hunks.BuildHunks` | god/edit_diff.go:128-212 | the hunks are those of the windows of all groups |
| `Hunks.HunksLeaveGaps` | god/edit_diff.go:147-169 | hunks are ordered, with at least one op left out between any two |
| `Hunks.HunksShowNeighbourhoods` | god/edit_diff.go:128-212 | an op is shown in some hunk exactly when a changed op lies within three ops of it |
| `StrictPatch.HunksPatch` | god/edit_diff.go:35-41 | a strict patcher given the hunks of any script never fails and turns its old side into its new side |
| `StrictPatch.HunksUnpatch` | god/edit_diff.go:35-41 | with sides and prefixes swapped the same hunks turn the new side back into the old side |
| `StrictPatch.UnifiedDiff` | god/edit_diff.go:43-75 | no diff exactly when the files are equal; otherwise its hunks patch a into b and, reversed, b into a |
| `StrictPatch.SameLines` | god/edit_diff.go:214-220 | two texts have the same lines exactly when they differ by at most a final newline and are empty only together |
| `StrictPatch.LinesMakeText` | god/edit_diff.go:214-220 | the lines of a text, joined, are the text but for a final newline |
| `StrictPatch.GenerateDiff` | god/edit_diff.go:21-27 | the diff of two texts is empty exactly then, and otherwise patches their lines both ways |
| `PatchSections.PeekNextSection` | cli/internal/diff/patch.go:376-458 | the section up to the next `@@` or `***` line: its old side, its chunks, its end, and whether the end-of-file marker follows |
| `PatchSections.FaithfulAt` | cli/internal/diff/patch.go:423-451 | what faithful chunks are one by one: each deletes the slice of the text at its position, and a line is kept between neighbours |
| `PatchSections.SectionMeaning` | cli/internal/diff/patch.go:376-458 | a section's context is its kept and deleted lines, its chunks are faithful to it, and splicing them into it gives its kept and added lines in order |
| `PatchSections.GetUpdatedFile` | cli/internal/diff/patch.go:513-540 | it succeeds exactly when the chunks are in order within the file, and then replaces every deleted span by its inserted lines at once; it panics only when the last chunk ends past the file |
| `ContextSearch.FuzzLevels` | cli/internal/diff/patch.go:350-356 | an exact match reports fuzz 0 and both trimming levels 1; the 100 is never reached |
| `ContextSearch.TryFindMatch` | cli/internal/diff/patch.go:336-362 | the search at one level, including the panic on a negative start |
| `ContextSearch.FirstMatchMeaning` | cli/internal/diff/patch.go:340-361 | at any level the first matching position is found, and none only if there is none |
| `ContextSearch.ForwardSearch` | cli/internal/diff/patch.go:306-374 | without a marker the search never panics or goes back, and reports fuzz 0 exactly when the context occurs at or after the start, at its first occurrence |
| `ContextSearch.EndSearch` | cli/internal/diff/patch.go:364-374 | with a marker it panics exactly when the context is longer than the file, and reports fuzz 0 exactly when the file ends with the context |
| `ContextSearch.EndSearchGoesBack` | cli/internal/diff/patch.go:364-369 | a section with a marker is placed before the start of its search exactly when the file ends with its context, exactly or after trimming, and the context reaches back that far |
| `ContextSearch.SearchMeaning` | cli/internal/diff/patch.go:306-334 | without a marker the context is found at the first of the three levels at which it matches anywhere from the start on, at its first place there, and is missing only when it matches at none |
| `ContextSearch.MarkerMeaning` | cli/internal/diff/patch.go:364-374 | with a marker the end of the file is tried at all levels first; a match elsewhere costs 10000 more than without the marker |
| `ContextParser.SeekMeaning` | cli/internal/diff/patch.go:223-261 | a definition moves the position behind its first line from there on, equal or else equal after trimming for fuzz 1, unless such a line stands before the position |
| `ContextParser.PassCosts` | cli/internal/diff/patch.go:213-277 | a pass ends behind its section, and adds no fuzz exactly when its definition and its context are both found as they are |
| `ContextParser.HeaderMissing` | cli/internal/diff/patch.go:218-220 | behind the start of the file a line that heads no section is an error, and an empty definition on the last line panics |
| `ContextParser.PassFails` | cli/internal/diff/patch.go:263-270 | a headed pass is rejected exactly when its section is not found, and panics exactly when the search does |
| `ContextPatch.Parser.ReadStr` | cli/internal/diff/patch.go:119-134 | the text after a prefix, moving on only when the prefix is there |
| `ContextPatch.Parser.UpdatePass` | cli/internal/diff/patch.go:213-277 | one pass of the update loop: errors, panic, or the new file position, patch position, fuzz and shifted chunks |
| `ContextPatch.Parser.ParseUpdateFile` | cli/internal/diff/patch.go:200-279 | all passes of an update; a pass that changes nothing is reported as running forever |
| `ContextPatch.Parser.ParseAddFile` | cli/internal/diff/patch.go:281-304 | a file is added exactly when every line up to the next directive starts with a plus; its content is those lines without the plus, joined; otherwise the line is an error |
| `ContextPatch.Parser.ParseDirective` | cli/internal/diff/patch.go:139-190 | one directive with its error cases: duplicate, missing and existing paths, unknown lines |
| `ContextPatch.Parser.Parse` | cli/internal/diff/patch.go:136-198 | all directives up to the end marker; a patch that ends without it panics |
| `PatchText.DeleteOutcome` | cli/internal/diff/patch.go:161-171 | a delete header is refused exactly for a path that has an action already or no file, and otherwise adds the deletion and nothing else |
| `PatchText.AddOutcome` | cli/internal/diff/patch.go:173-186 | an add header is refused for a path that has an action or a file, or a headed line without a plus, and otherwise adds the headed lines without their pluses |
| `PatchText.UpdateOutcome` | cli/internal/diff/patch.go:140-159 | an update header adds the chunks of its update, with the new name exactly when the next line gives one |
| `PatchText.UnknownRefused` | cli/internal/diff/patch.go:188 | any line that heads nothing is refused |
| `PatchText.ParseTells` | cli/internal/diff/patch.go:136-198 | the actions of a patch that parses are exactly those that its header lines, up to the line that ends it, tell |
| `PatchText.HeadersDiffer` | cli/internal/diff/patch.go:142-144 | no two headers of a patch that parses name one path |
| `PatchEdits.BodyLine` | cli/internal/diff/patch.go:403-422 | a body line is a deletion behind a minus, an insertion behind a plus, and else kept, without its first character if that is a blank |
| `PatchEdits.UpdateKeepsEdits` | cli/internal/diff/patch.go:200-279 | the chunks of an update delete exactly the texts of its minus lines and insert exactly those of its plus lines, each once and in order |
| `AcceptedPatch.UpdateNames` | cli/internal/diff/patch.go:200-279 | an update parsed without fuzz has only chunks that delete exactly the lines they name |
| `AcceptedPatch.PatchNames` | cli/internal/diff/patch.go:136-198 | so has every update of a whole patch parsed without fuzz |
| `AcceptedPatch.PatchInOrderIff` | cli/internal/diff/patch.go:136-198 | the updates of a whole patch, fuzzy or not, have their chunks in order exactly when all its markers fit |
| `AcceptedPatch.PatchInOrder` | cli/internal/diff/patch.go:513-540 | without a marker no update of a patch meets an ordering error |
| `UpdateLoop.NoProgress` | cli/internal/diff/patch.go:213-277 | a pass makes no progress exactly on a stray line at file position 0, and then it changes nothing |
| `UpdateLoop.LoopsIff` | cli/internal/diff/patch.go:200-279 | an update runs forever exactly when some line of it is stray and every line before that one is passive: an added line, or a section start whose definition, if any, is not in the file |
| `ChunkOrder.PassInOrderIff` | cli/internal/diff/patch.go:263-276 | after a pass the chunks are in order exactly when those before it, or those of its section, are none, or the last one before ends at or before the first one of the section as placed |
| `ChunkOrder.UpdateInOrderIff` | cli/internal/diff/patch.go:200-279 | the chunks of an update are in order within the file exactly when each section with an end-of-file marker is placed behind the chunks before it |
| `ChunkOrder.UpdateInOrder` | cli/internal/diff/patch.go:200-279 | without an end-of-file marker the chunks of an update, fuzzy or not, are in order within the file |
| `ChunkOrder.MarkerClash` | cli/internal/diff/patch.go:364-369 | an update that deletes the only line of a file twice, the second time with a marker, parses without fuzz to two chunks at line 0 |
| `AcceptedPatch.PatchToCommit` | cli/internal/diff/patch.go:542-575 | in any order of the actions it succeeds exactly when every update is applicable, and each change is the one its action stands for |
| `AcceptedPatch.FrameChecked` | cli/internal/diff/patch.go:460-472 | a text is parsed exactly when its first line begins a patch and its last line is the end marker |
| `AcceptedPatch.IdentifyFilesNeeded` | cli/internal/diff/patch.go:474-493 | a path is needed exactly when some line of the patch is an update or a delete header followed by it |
| `AcceptedPatch.LoadedIff` | cli/internal/diff/patch.go:659-668 | the files the parser sees are those of the repository that the patch asks for |
| `AcceptedPatch.ProcessPatch` | cli/internal/diff/patch.go:655-684 | it reaches a commit exactly when the patch starts as one, its files exist, it parses with fuzz 0 and its markers are in place; then every update deletes exactly the lines it names and replaces them by its insertions, and the changes are exactly those that the headers of the patch ask for, line by line |
| `AcceptedPatch.ParsedInOrderIff` | cli/internal/diff/patch.go:460-472 | a patch text that parses has its chunks in order exactly when its markers are in place |
| `AcceptedPatch.CleanPatchApplies` | cli/internal/diff/patch.go:670-677 | they are whenever the text has none, so that such a patch always has its chunks in order |
| `Leases.ScopeKeyInjective` | heaven/leases.go:210-212 | scope types without a colon give keys that determine type and value |
| `Leases.ReplayIsBijective` | heaven/leases.go:45-81 | after replaying a log that the manager may write, the two maps are inverse to each other |
| `Leases.PrefixIsBijective` | heaven/leases.go:45-81 | so they are after replaying any prefix of it |
| `Leases.HistoryAlternates` | heaven/leases.go:104-176 | the events of any one scope key alternate between issued and released, each release naming the lease issued before it, and the key is held exactly after an odd number |
| `Leases.GrantKeepsFaith` | heaven/leases.go:104-151 | after any part of a request the live maps are what replaying the log gives |
| `Leases.GrantExtends` | heaven/leases.go:104-151 | acquiring touches no existing lease, and whatever is new belongs to the requester |
| `Leases.GrantAnswers` | heaven/leases.go:111-142 | the scopes denied are exactly those another owner held before, and the leases acquired are the live leases of the other ones, both in the order of the request |
| `Leases.GrantHolds` | heaven/leases.go:111-142 | afterwards the requester holds a requested scope exactly when no other owner held it before |
| `Leases.NewLease` | heaven/leases.go:122-138 | every new lease has the owner, mission and time of the request, one of its scopes and the id made for it |
| `Leases.GrantLogs` | heaven/leases.go:122-142 | a request logs the issue of each new lease once and nothing else |
| `Leases.ReleaseKeepsFaith` | heaven/leases.go:154-176 | after a release the live maps are what replaying the log gives |
| `Leases.ReleaseLeaves` | heaven/leases.go:154-176 | a release takes exactly the leases named, and logs each live one of them once |
| `Leases.LeaseManager.constructor` | heaven/leases.go:33-81 | starting on any log gives the maps of its replay |
| `Leases.LeaseManager.AcquireScope` | heaven/leases.go:111-142 | one scope: denied, already held, or issued and logged |
| `Leases.LeaseManager.Acquire` | heaven/leases.go:104-151 | the new maps, the log and both answer lists for a whole request; maps and log stay in agreement |
| `Leases.LeaseManager.Release` | heaven/leases.go:154-176 | the new maps and the log, unknown ids being skipped; the number released is the number of events logged |
| `Leases.LeaseManager.OwnerHoldsScope` | heaven/leases.go:198-208 | true exactly when the scope's live lease belongs to the owner |
| `FileClocks.BumpTicks` | heaven/fileclock.go:52-66 | an increment moves a path's clock by the number of times the path is listed |
| `FileClocks.SameClockNoTick` | heaven/fileclock.go:52-78 | equal clocks at two times mean that no increment in between named the path, and conversely |
| `FileClocks.FileClock.constructor` | heaven/fileclock.go:18-49 | replay over a log with any other events gives each path its number of occurrences in increment events |
| `FileClocks.FileClock.Increment` | heaven/fileclock.go:52-66 | the clocks after the increment, the event logged, and clocks still equal to the counts in the log |
| `FileClocks.FileClock.Get` | heaven/fileclock.go:69-78 | each path asked for with its number of occurrences in the log, 0 for one never named |
| `FileClocks.UnheldNothing` | heaven/server.go:386-398 | no lease is missing exactly when the owner holds every scope of the manifest |
| `FileClocks.UnheldAre` | heaven/server.go:386-398 | the missing leases listed are those of exactly the scopes the owner does not hold, in the order of the manifest, each as often as it is listed there |
| `FileClocks.ValidateManifest` | heaven/server.go:372-442 | the missing leases of the symbols and then of the files, the expected paths whose clock differs from the log, and allowed exactly when there are none of either |
| `Integration.StepIsSafe` | god/integrator.go:77-141 | a step of any owner leaves every open integration with all scopes of its manifest held exactly when it releases no lease that one of them needs |
| `Integration.RunIsSafe` | god/integrator.go:77-141 | so does every run of such steps |
| `Integration.WindowsExclude` | god/integrator.go:77-141 | in every interleaving that keeps needed leases, two integrations of different owners between their lease check and their increment share no file and no symbol, be the check allowed or only drifted |
| `Integration.ReleaseLetsIn` | heaven/leases.go:154-176 | once a needed lease is released, another owner can acquire it and pass its check for the same file |
| `Integration.StepTicks` | god/integrator.go:135-141 | only an increment moves a clock, by the number of times its manifest lists the path |
| `Integration.WindowIsIsolated` | god/integrator.go:77-141 | while an integration is between check and increment, no other owner changes a file of its manifest or moves its clock, when needed leases are kept and the file is written only under manifests that name it |
| `Integration.AllowedIsFresh` | heaven/server.go:400-417 | an owner that reads a file and, no later, its clock, and passes validation without drift, integrates against the content it read, when moreover no integration gave up after writing that file and no other open one of the same owner wrote it |
| `Integration.HalfWayGoesUnseen` | god/integrator.go:111-117 | an integration that fails after writing leaves a changed file behind an unmoved clock |
| `Integration.NoDriftNoTick` | heaven/server.go:400-412 | no drift means exactly that no increment of an expected path happened since its clock was read |
| `CycleDetection.OrderedIsAcyclic` | god/oracle.go:304-319 | an order by finishing time of all nodes rules out every cycle |
| `CycleDetection.EdgeIff` | god/oracle.go:290-296 | the adjacency map has exactly the edges that the nodes list, of two nodes with one id the later one counting |
| `CycleDetection.Detector.ClosesCycle` | god/oracle.go:308-310 | a dependency on a gray node closes a real cycle, because the gray nodes are the current path |
| `CycleDetection.Detector.Visit` | god/oracle.go:304-319 | a visit finishes its node and keeps the finished nodes in topological order, or returns an edge on a cycle; it terminates |
| `CycleDetection.DetectCycle` | god/oracle.go:289-330 | an error exactly when the dependencies the nodes list have a cycle, self-loops and unknown ids included, and it names the edge that closes one; otherwise some order lists every node after its dependencies |
| `AnchoredEdits.WriteThenRead` | god/edit_apply.go:230-246 | lines written and read again are the same, but no lines come back as one empty line |
| `AnchoredEdits.LinesMakeText` | god/edit_apply.go:230-246 | the lines of a file or of an op make its text up but for a final newline, an empty content being no line |
| `AnchoredEdits.ComputeAnchorHash` | god/edit_apply.go:98-119 | the hash of the lines that exist among three before and three after the span, by two loops |
| `AnchoredEdits.WindowIff` | god/edit_apply.go:98-119 | of any two texts that reach the end of a span, its anchor texts agree exactly when the up to three lines before it and the up to three lines after it do |
| `AnchoredEdits.MovedEditIff` | god/edit_apply.go:121-185 | an op anchored on one text applies to any other that reaches the end of its span when the lines around the span are the same, and with an injective hash fails its anchor check otherwise |
| `AnchoredEdits.AnchorIff` | god/edit_apply.go:98-119 | of two texts that agree up to the end of a span, its anchor texts agree exactly when the three lines after it, or those that exist, do |
| `AnchoredEdits.AnchoredEditIff` | god/edit_apply.go:121-185 | an op anchored on a file applies to such a text when those lines agree, and with an injective hash only then: otherwise its anchor does not match |
| `AnchoredEdits.EditResult` | god/edit_apply.go:121-185 | an edit that goes through leaves the lines before and after its span, with the lines of a replacement, or nothing, between them |
| `AnchoredEdits.FaultIff` | god/edit_apply.go:121-185 | which ops fail, and for which of the five reasons |
| `AnchoredEdits.RebaseIff` | god/integrator.go:164-195 | which ops cannot be rebased and why; of the others only the anchor changes |
| `AnchoredEdits.Repository.ApplySpan` | god/edit_apply.go:121-185 | every error case in order, with the repository unchanged; otherwise the span is replaced or removed |
| `AnchoredEdits.Repository.ApplyEditIR` | god/edit_apply.go:23-40 | the ops before the first fault stay applied, and the fault is that of the op that stopped it |
| `AnchoredEdits.Repository.RebaseAnchors` | god/integrator.go:164-195 | every anchor is recomputed on the files as they are; the first op that cannot be rebased is reported |
| `AnchoredEdits.Repository.FixAnchors` | cli/internal/genesis/angel_provider.go:288-332 | the same anchors, but an op that cannot be rebased keeps its own |
| `EditListings.NextEditIff` | god/edit_apply.go:121-185 | an op above all spans already replaced adds its span to the simultaneous replacement when its lines are undisturbed, and with an injective hash fails its anchor check otherwise |
| `EditListings.ListingIff` | god/edit_apply.go:23-40 | a bottom-up listing of disjoint spans anchored on the original applies, through the read and write cycles, to the simultaneous replacement of all spans when every op finds its lines; with an injective hash it otherwise stops with an anchor mismatch |
| `EditListings.BottomUpApplies` | god/edit_apply.go:23-40 | with three lines between neighbouring spans every listing applies, whatever the hash |
| `EditListings.ListingNeverStops` | god/edit_apply.go:23-40 | a listing whose ops find their lines never stops half way |
| `EditListings.RebaseAndApply` | god/integrator.go:90-117 | the drift branch, rebase and apply, reaches the simultaneous replacement when every op finds its lines, and with an injective hash reports an anchor mismatch otherwise, whatever anchors the ops came with |
| `EditListings.CloseSpansClash` | god/edit_apply.go:139-143 | on any two-line file, rewriting the second line and then the first fails on the second op |
| `ExtractJson.ExtractJSON` | cli/internal/genesis/angel_provider.go:344-374 | the scan loop, with its skipping of strings and escapes, as a function of its input |
| `ExtractJson.CloseRuns` | cli/internal/genesis/angel_provider.go:351-372 | the scan is an automaton over braces, strings and escapes |
| `ExtractJson.ValueNeutral` | cli/internal/genesis/angel_provider.go:351-372 | every value of the grammar of RFC 8259, sections 2 to 7, leaves that automaton where it was, braces and quotes inside strings included |
| `ExtractJson.ExtractsObject` | cli/internal/genesis/angel_provider.go:344-374 | from any prefix without a brace, an object and any suffix, exactly the object is extracted |
| `ExtractJson.ExtractsToClose` | cli/internal/genesis/angel_provider.go:344-374 | any text is cut from its first opening brace to where the automaton closes |
| `ExtractJson.ExtractsOpen` | cli/internal/genesis/angel_provider.go:344-374 | when the automaton never closes, all from the first opening brace on is returned |
| `ExtractJson.NothingToExtract` | cli/internal/genesis/angel_provider.go:345-348 | a text without an opening brace is returned as it is |
| `Tsln.WrapBack` | internal/lean/encoder.go:94-102 | a 64-bit difference added back gives the value even when both wrap around |
| `Tsln.DeltaColumn` | internal/lean/decoder.go:145-160 | what a delta column decodes to: the previous decoded value plus the difference, but 0 for an unchanged value |
| `Tsln.CounterText` | internal/lean/encoder.go:91-102 | a counter is written as it is first, then as 0 or as the signed difference |
| `Tsln.MillisBack` | internal/lean/encoder.go:72-73 | an offset in milliseconds loses nothing exactly on whole milliseconds |
| `Tsln.RowDecodes` | internal/lean/decoder.go:83-140 | every encoded row decodes, and to what |
| `Tsln.CellsIff` | internal/lean/decoder.go:97-160 | a row is read from exactly thirteen cells of which all but the status are numbers, and what each cell reads as |
| `Tsln.RowKept` | internal/lean/decoder.go:97-135 | after a predecessor that came back, a row comes back exactly when its time is kept, no non-zero counter repeats and `=` follows only `=` |
| `TslnDocument.Encoder.EncodeRow` | internal/lean/encoder.go:55-135 | the row's line is appended to the buffer and the row becomes the previous one |
| `TslnDocument.EncodeMetricsRows` | internal/lean/encoder.go:155-172 | no document exactly for no rows; otherwise the body of all rows under the first row's base |
| `TslnDocument.Decode` | internal/lean/decoder.go:83-142 | the rows of the non-blank lines, or an error when any line has the wrong fields |
| `TslnDocument.DecodeIff` | internal/lean/decoder.go:83-142 | decoding gives exactly one row for each line that is not blank, as its cells read after the row before, and fails when one of them reads as none |
| `TslnDocument.BodyDecodes` | internal/lean/decoder.go:83-142 | whatever the rows, with clean statuses their document decodes, and to what |
| `TslnDocument.RoundTrip` | internal/lean/decoder.go:10-142 | decoding an encoded document gives the rows back exactly when they are lossless |
| `TslnDocument.RepeatIsLost` | internal/lean/encoder.go:95-97 | a row repeated with a non-zero counter does not come back |
| `Replay.KeyInjective` | god/recorder.go:127-130 | keys agree exactly when mission and turn do, even with colons in mission IDs |
| `Replay.RecordingProvider.TakeTurn` | god/recorder.go:42-49 | a call takes the number of earlier calls of its mission as its turn |
| `Replay.RecordingProvider.Append` | god/recorder.go:56-72 | an answered call appends its entry, in whatever order calls complete |
| `Replay.AnswerIsRecorded` | god/recorder.go:42-73 | in any interleaving, the entry for a call's turn holds what the provider answered to that call, and exists only if it answered |
| `Replay.ReplayProvider.constructor` | god/recorder.go:166-185 | the three tables answer for every mission, turn and hash as the entries do, later entries overriding earlier ones |
| `Replay.ReplayProvider.Send` | god/recorder.go:187-219 | the lookup chain of turn, hash and mission, with the turn counted over all calls sent so far |
| `Replay.LookupFails` | god/recorder.go:195-218 | replay has no answer exactly when neither the mission nor the hash was ever recorded |
| `Replay.LookupMeaning` | god/recorder.go:195-218 | the last entry for the turn answers; failing that the last one for the hash; failing that the response of the mission that stands at the turn, or its first one |
| `Replay.ReplayIsFaithful` | god/recorder.go:187-219 | for any interleaving, completion order and failures while recording and any order and packs while replaying, the k-th call of a mission ends as its recorded k-th call did exactly when that one was answered or no entry has its mission or its hash |
| `Replay.ErrorFreeReplay` | god/recorder.go:187-219 | after an error-free recording every call within the recorded number is answered by the one recorded call with its mission and turn |
| `Replay.FailureIsFilledIn` | god/recorder.go:51-54 | a call that failed while recording is replayed with an answer exactly when some answered call has its mission or the hash of the replayed pack |
| `Replay.SecondAnswerFillsIn` | god/recorder.go:195-218 | when the first of two calls failed and the second was answered, replaying the first gives the answer to the second |
| `Sectioner.SplitAfterConcat` | heaven/sectioner.go:75 | the lines make up the text |
| `Sectioner.SplitOnHeadings` | heaven/sectioner.go:72-123 | the sections are those that start at the section starts, with the titles of their headings |
| `Sectioner.StartsAreHeadings` | heaven/sectioner.go:84-105 | sections start at the first line and at exactly the heading lines with an even number of fence lines before them |
| `Sectioner.HeadingText` | heaven/sectioner.go:84-105 | a line with one to three marks and a blank before its text is a heading, and the text its title |
| `Sectioner.HeadingIff` | heaven/sectioner.go:84-105 | no other line is a heading: trimmed, it must start with one to three marks and a blank |
| `Sectioner.CutKeepsFences` | heaven/sectioner.go:72-123 | every section but the last closes the code fences it opens, before the size split |
| `Sectioner.CutAre` | heaven/sectioner.go:72-123 | each part is the lines from one section start to the next, with the title of the heading it starts with |
| `Sectioner.CutConcat` | heaven/sectioner.go:72-123 | the headings split loses nothing |
| `Sectioner.SplitsBest` | heaven/sectioner.go:161-177 | a cut is after the last paragraph end within the limit, else after the last line end, else at the limit; it makes progress exactly when the limit is not 0 |
| `Sectioner.SplitAtParagraphs` | heaven/sectioner.go:151-188 | the pieces of a text; the loop terminates for every limit of at least 1 |
| `Sectioner.PartsConcat` | heaven/sectioner.go:151-188 | the pieces make up the text |
| `Sectioner.PartsFit` | heaven/sectioner.go:151-188 | no piece is empty or longer than the limit |
| `Sectioner.PartsCutBest` | heaven/sectioner.go:161-181 | every piece but the last ends at the best cut of what was left |
| `Sectioner.SplitLargeSections` | heaven/sectioner.go:125-149 | sections within the limit stay, the others become their pieces with continued titles and the same kind |
| `Sectioner.SectionPrompt` | heaven/sectioner.go:30-70 | all layers in order; sections are numbered consecutively with their offset, length and the hash of their content; an empty prompt has one empty section |
| `Sectioner.SectionedAre` | heaven/sectioner.go:40-55 | each section is a piece of a part cut at headings, with the kind of that part's title and the title itself, marked as continued after the first piece |
| `Sectioner.SectionedConcat` | heaven/sectioner.go:30-32 | the sections of any prompt make it up byte for byte |
| `Sectioner.SectionedFits` | heaven/sectioner.go:56-57 | for a prompt that is not empty no section is empty or longer than the limit |
| `Sectioner.SectionsTile` | heaven/sectioner.go:59-67 | each section is the part of the prompt at its offset, and the next starts where it ends |
| `DeltaPatch.DecodeLine` | god/patch_v1.go:305-364 | one line: keep, skip, literal or error, with 64-bit positions |
| `DeltaPatch.DecodePatchV1Content` | god/patch_v1.go:286-368 | the text that content decodes to over a span, an error, or a panic |
| `DeltaPatch.DirectiveMeaning` | god/patch_v1.go:305-355 | a line that is, trimmed, `@K` or `@S` with nothing or something that starts with a digit behind it, in braces or not, is that directive, or an error unless the count is a number from 1 up |
| `DeltaPatch.LiteralMeaning` | god/patch_v1.go:357-363 | any other line is literal, a doubled `@` at its start standing for one |
| `DeltaPatch.EscapeIsLiteral` | god/patch_v1.go:357-363 | an escaped text that can be told stands for itself |
| `DeltaPatch.ExpressibleIff` | god/patch_v1.go:308-363 | some line stands literally for a text exactly when it starts with `@` or is no directive |
| `DeltaPatch.CountLineParses` | god/patch_v1.go:307-310 | `@KN`, `@K{N}`, `@SN` and `@S{N}` mean N lines |
| `DeltaPatch.CountIsSingles` | god/patch_v1.go:321-355 | at any position, before the span included, a count does what as many single directives do exactly when it does not overflow the position and does not keep lines from before the span to past its end |
| `DeltaPatch.OverflowIsNotSingles` | god/patch_v1.go:321-355 | a count that overflows it does not: `@KN` panics, `@SN` moves before the span, single directives are rejected |
| `DeltaPatch.CountsAreShorthand` | god/patch_v1.go:289-293 | in any content a count may be replaced by as many single directives wherever it does that |
| `DeltaPatch.DecodingIsSound` | god/patch_v1.go:296-368 | when no count met overflows the position, decoding never panics, and its output is the new side of a script over the span, whose kept lines are an ordered subsequence of it |
| `DeltaPatch.DecodingIsComplete` | god/patch_v1.go:296-368 | every script whose inserted lines can be told decodes from its rendering |
| `DeltaPatch.CanTellIff` | god/patch_v1.go:286-368 | some content without overflow takes a to b exactly when the untellable lines of b are a subsequence of a |
| `DeltaPatch.CanTellAnyIff` | god/patch_v1.go:286-368 | some content at all does exactly when each untellable line of b stands somewhere in a |
| `DeltaPatch.PanicsIff` | god/patch_v1.go:316-346 | decoding panics exactly when some `@K` count is met at a position before the span without passing its end, or overflows the position |
| `DeltaPatch.RenderedTextDecodes` | god/patch_v1.go:296-368 | the same as text: joined lines decode to joined lines |
| `DeltaPatch.DiffDecodes` | god/patch_v1.go:296-368 | the minimal edit script of any a and b, rendered with escapes, decodes over a to b |
| `DeltaPatch.OverflowRereads` | god/patch_v1.go:343-355 | with overflowing counts a line of the span can be kept twice |
| `PromptPack.BestIsFirst` | god/prompt_compiler.go:194-205 | the candidate kept for a blob is one of its candidates and beats all earlier ones |
| `PromptPack.BestIsBest` | god/prompt_compiler.go:194-205 | no candidate for the blob has a higher score |
| `PromptPack.OncePerBlob` | god/prompt_compiler.go:180-205 | each blob among the candidates has exactly one entry, the first of its best candidates |
| `PromptPack.BloblessStay` | god/prompt_compiler.go:194-205 | candidates without a blob are all kept |
| `PromptPack.JoinsEntry` | god/prompt_compiler.go:194-201 | a further candidate for a blob replaces its entry exactly when it scores higher |
| `PromptPack.Deduplicate` | god/prompt_compiler.go:184-205 | the loop over candidates with its index of blobs seen leaves one entry for each blob, and each candidate without one |
| `PromptPack.ScoreShards` | god/prompt_compiler.go:183-211 | the scored list is a permutation of the deduplicated candidates, sorted by descending score, each with its own score and estimate |
| `PromptPack.ScoreWeights` | god/prompt_compiler.go:144-178 | what each property of a shard adds to its score, and what its tokens take away |
| `PromptPack.TokenEstimate` | god/prompt_compiler.go:136-142 | one token for every four whole bytes and ten more |
| `PromptPack.RegularAt` | god/prompt_compiler.go:283-289 | the shards ranked are all candidates but those of prompt sections |
| `PromptPack.FirstFitIsFirst` | god/prompt_compiler.go:260-279 | a pinned section takes the first of its candidates that fits |
| `PromptPack.PackPinnedSections` | god/prompt_compiler.go:253-281 | the pinned sections packed, with the tokens they take and what they leave |
| `PromptPack.PinnedTakes` | god/prompt_compiler.go:253-281 | each pinned section in turn packs the first of its candidates that fits in what the ones before it leave, and nothing exactly when none fits |
| `PromptPack.PackScored` | god/prompt_compiler.go:292-325 | the ranked shards packed and the number dropped, which account for all of them |
| `PromptPack.GreedyTakes` | god/prompt_compiler.go:292-325 | a shard is packed exactly when it fits beside the better-ranked packed ones, and no dropped shard would fit in the final leftover |
| `PromptPack.PackFits` | god/prompt_compiler.go:247-325 | the tokens of all packed shards never exceed what header and mission left of the budget |
| `PromptPack.PackIs` | god/prompt_compiler.go:253-325 | pinned sections are packed first, and ranked shards in what they leave |
| `PromptPack.RoomIff` | god/prompt_compiler.go:247-251 | the room is max(0, budget - header - mission) exactly when the subtraction does not wrap around |
| `PromptPack.Compile` | god/prompt_compiler.go:219-343 | pinned sections and then ranked shards, with the totals and counts of the budget record |
| `PromptPack.BudgetKept` | god/prompt_compiler.go:333-341 | a pack stays within its budget exactly when header and mission do |

## Left out

- HTTP handlers and clients, JSON marshalling, file and process calls, and errors of those: the model starts from
  decoded requests, a map of files and a sequence of events. Recorded responses are kept as they are, while a file round
  trip would compact their JSON.
- The text of a diff header, which prints start 1 for an empty side where the POSIX unified format has 0: the numbers of
  a hunk are modelled.
- `ApplyCommit` (`cli/internal/diff/patch.go:620-653`): a commit is a map, written in the order of a map iteration; two
  changes that write one path through a move are not modelled.
- Solo mode, which skips the lease check, and events of the three managed kinds that other clients post.
- Integration.WindowIsIsolated: says nothing about two integrations of one owner, whose leases do not keep them apart.
- The conflict mission that a failed integration produces, the snapshot for the diff and path normalisation in
  `god/integrator.go`.
- Lease expiry, which the code does not have, and wrap-around of clocks and turn numbers, which 64 bits never reach.
- `insert_*`, `add_file`, `delete_file`, `replace_line` and template edits: one more case each beside the span edits.
- TSLN float columns, which `%.2f` rounds, and the header lines of a document: the header is its base time.
- Token drift of a replay, a floating-point statistic.
- `classifySentinel` and the hash of a section are parameters of the sectioner; a limit below 1, for which the loop of
  `splitAtParagraphs` does not end, is excluded and shown to make no progress.
- `ParsePatchV1` and the detection of delta content (`god/patch_v1.go:26-236`, `god/patch_v1.go:370-429`), which leaves
  content without any directive undecoded.
- Scores are in hundredths, so ties that floating-point rounding would break are ties; sorting is any descending order,
  as with `sort.Slice`. Sums of token estimates do not wrap around. The header text of a pack and its metadata are left
  out, and so is budget accounting after a solo packer extends the header.
- White space beyond ASCII: `TrimSpace` drops the six ASCII spaces.
- The terminal interface, authentication, language servers, databases, benchmarks and the AA and ISA parsers.
