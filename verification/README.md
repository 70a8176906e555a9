# lgtmaybe: the diff geometry engine and the protocols around it

lgtmaybe reviews a pull request by walking its unified diff, rewriting the diff for a model (padding hunks
with file text, merging hunks that touch, cutting oversized ones, packing the pieces into token batches),
and posting what the model finds as comments on lines of the original diff. This project models that path in
Dafny and proves that no step of it moves a changed line, together with the protocols that decide what is
submitted, posted, parsed and skipped.

How the modules follow the program:

- `Text`, `Numerals`, `DiffParse`, `Geometry`, `Sections`, `HunkLookup`, `ChangeIndex`, `ChangeCount`: reading a
  diff (core/diffparse.py, core/diff.py). The walk is one cursor over lines; a patch is also read as hunks, and
  the two readings are proved equal. One predicate, `WellFormedPatch`, says what a file's section of a git diff
  is, after "Diff -u or -U Output Format" of POSIX.1-2017 `diff`; `WellFormedDiff` is one such section per path.
  Its first half, `SoundPatch`, asks only that each hunk's header is true of its body: all an expanded patch keeps.
  `PathLines`: the grammar of hunk headers and path lines, and what each patch is called.
- `Expand`, `ExpandProofs`, `Application`, `ExpandMeaning`, `ExpandEdges`, `ExpandWindows`: padding and merging
  (engine/compress.py, expand_hunks). `ExpandWindows` says from the hunks, the settings and the head text alone what
  an expanded patch shows. `Application` gives a patch its meaning: applying its hunks to the old lines writes the
  new ones.
- `Slicing`, `SliceProofs`, `Batching`: splitting at hunks, cutting inside one, packing (engine/compress.py).
  `Sizes`, `Greedy`: how long slices are, what may be over the budget, and that the packing is the greedy one.
  `Delivery`: split, padded and packed, from the diff to the batches a model is sent (engine/stages.py).
- `DiffBuild`, `HeaderNotes`: printing diffs from two texts (core/diffbuild.py), and what the lines above the hunks
  tell. `Fingerprint`, `Rebase`: what a diff's hash covers, and what it leaves out.
- `Findings`, `Snap`, `Anchors`, `Rejoin`, `Placement`, `Conflicts`, `Merge`: from the model's findings to lines of the
  original diff (engine/engine.py, engine/conflicts.py).
- `Markers`, `Prose`, `StampedIds`, `Posting`, `Matching`: markers and fences in model prose, hidden ids, what is
  posted, and when the order of the comments matters to it (core/comment.py).
- `FanOut`: the scheduler of model calls (engine/engine.py, _fan_out).
- `JsonSpans`, `Envelopes`, `ParseFindings`, `Answers`: reading a model's answer, whole or cut off (engine/parse.py),
  with the grammar of RFC 8259, sections 2, 6 and 7: numbers, the three literal names, and strings with their
  escapes and without control characters.
- `Watermark`: which heads count as reviewed (review.py, github/rest_gateway.py).

Code that is expressions and recursion is a function; a loop of the source is a method proved equal to such a
function, and what the source promises is proved about the function. A protocol is a state machine over its
steps. Every lemma carries `{:induction false}`: no proof rests on induction the verifier finds by itself.

Eight results say where the code does less than its own documentation, each with the exact condition:

- An expanded patch turns the old file into the new one if and only if the old file is not empty. For an added
  file the header is printed with the adjusted start, one past the line an empty range names. The numbers the walk
  gives its lines are true either way.
- `hunk_for_line` joins its answer without a final newline. It loses the line asked for if and only if the first
  hunk covering it ends in an empty context line and the line ends that hunk's range; `BlankEndIsLost` has a diff.
- `unposted` is first fit. A second run posts nothing whatever the order of the comments if and only if no finding
  can be starved: no findings before it can take, one each, all comments it shares an id with (`OrderMatters` has
  three findings where they can). Where sharing goes in classes none can be, and the order is nothing.
- A head is stamped complete before its review is written out if and only if the run replaces the summary of a
  review at the same commit and stops after that write: among the comments, or before the second summary that
  carries what the host refused. It is reported complete all the same.
- `_strip_trailing_commas` leaves a trailing comma if and only if two stood in a row before a closer.
- Reasoning blocks are cut out of the raw answer, strings included. An answer is left as it is if and only if no
  opening tag in it is followed by a closing one; a closed envelope with one tag in a string of each of two findings
  is read as one finding (`TagsInStringsLoseAFinding`).
- Defanging leaves three backticks in a row if and only if a whole run of them is longer than three and two more than
  a multiple of three (`ProseIsClean`).
- A header with no hunks below it (a change of mode, an empty file added or deleted) is split off under its path if and
  only if it is a rename or the path holds no " b/" that can pass for a side.

## Model

| member | source | states |
|---|---|---|
| Text.SplitJoin | src/lgtmaybe/core/diffparse.py:75 | joining lines without newlines and splitting the text gives the lines back |
| Text.LinesOfUnlines | src/lgtmaybe/core/diffparse.py:75 | lines printed with or without a final newline are read back exactly; the one case that loses a line is a blank last line printed without one |
| DiffParse.HunkHeaderRoundTrip | src/lgtmaybe/core/diffparse.py:42-53 | every hunk header parses back to its numbers and section, whether a length of 1 on either side is written or left out |
| PathLines.HeaderGrammar | src/lgtmaybe/core/diffparse.py:29-53 | a line is a hunk header with given numbers and section if and only if it is spelt as one: the two ranges as numerals, each length optional and 1 when left out, between the signs |
| PathLines.PathLineNames | src/lgtmaybe/core/diffparse.py:56-116 | a path line of either side names the path it is written with, whatever timestamp follows a tab |
| DiffParse.WalkDiff | src/lgtmaybe/core/diffparse.py:56-116 | the loop over file, counters and in_hunk yields exactly the walk of the cursor machine |
| DiffParse.WalkConcat | src/lgtmaybe/core/diffparse.py:56-116 | walking two stretches of lines is walking the first and then the second from the cursor it leaves |
| Geometry.ParsePatch | src/lgtmaybe/engine/compress.py:424-434 | the loop that appends to the last hunk computes the recursive parse of the lines |
| Geometry.ParsePrinted | src/lgtmaybe/engine/compress.py:424-434 | printed hunks under a preamble without hunk headers parse back to that preamble and those hunks |
| Geometry.SectionWalk | src/lgtmaybe/core/diffparse.py:56-116 | a section is walked as its parsed hunks, under the path bound above them, from any cursor |
| ChangeIndex.ChangedLineIndex | src/lgtmaybe/core/diffparse.py:119-139 | the dictionary filled along the walk is the index of the changed lines by path and side, in order |
| ChangeIndex.IndexSnoc | src/lgtmaybe/core/diffparse.py:132-139 | one more changed line appends to its own key's list and leaves every other key alone |
| ChangeIndex.BuildCommentableLines | src/lgtmaybe/core/diff.py:76-98 | the set filled in the loop holds the new-side anchor of each line not deleted and the old-side anchor of each line not added |
| ChangeIndex.ChangesAreCommentable | src/lgtmaybe/core/diff.py:76-98 | every indexed changed line is a line a comment can be posted on |
| ChangeCount.ChangedLineCount | src/lgtmaybe/core/diffparse.py:142-162 | the counting loop computes the number of plus and minus lines inside hunks |
| ChangeCount.CountAtLeastIndex | src/lgtmaybe/core/diffparse.py:142-162 | for any text at all the count is never below the number of indexed lines |
| ChangeCount.CountIsIndexSize | src/lgtmaybe/core/diffparse.py:142-162 | on a well-formed diff the count is exactly the number of indexed lines |
| Sections.CutIsExact | src/lgtmaybe/core/diffparse.py:200-220 | cutting at file headers loses nothing and cuts at every header and nowhere else |
| Sections.SplitDiff | src/lgtmaybe/core/diffparse.py:200-231 | the loop names each patch by the first place that has a path, in the source's order, with the changed files and "unknown" behind it |
| PathLines.PatchIsCalled | src/lgtmaybe/core/diffparse.py:200-231 | the kth patch is called after the path its lines give, else after the kth changed file, else "unknown"; a diff without file headers is one patch called after the first |
| Sections.SplitConcatenatesBack | src/lgtmaybe/core/diffparse.py:200-231 | the patches of a diff that opens with a file header concatenate back to it, character for character |
| Sections.WalkIsCompositional | src/lgtmaybe/core/diffparse.py:56-231 | the walk of a diff is the concatenation of the walks of its patches |
| Rejoin.JoinKeepsChanges | src/lgtmaybe/engine/engine.py:478 | joining patches with a newline keeps their changed lines, although a patch that ends in a newline leaves a blank line read as context |
| Rejoin.RejoinKeepsChanges | src/lgtmaybe/engine/engine.py:478 | splitting a diff by file and joining the patches again keeps every changed line |
| HunkLookup.HunkForLine | src/lgtmaybe/core/diffparse.py:165-197 | the nested loops compute the lookup: the first hunk of the path's patch whose range covers the line |
| HunkLookup.RangeIsWalk | src/lgtmaybe/core/diffparse.py:190-194 | the range a sound header claims is exactly the set of lines walking the hunk anchors, on either side |
| HunkLookup.ReadersAgree | src/lgtmaybe/core/diffparse.py:56-231 | the walk and split_by_file bind a section with hunks to the same path |
| HunkLookup.LookupIffCommentable | src/lgtmaybe/core/diffparse.py:165-197 | on a well-formed diff a hunk is found for a line if and only if the line is commentable |
| HunkLookup.LookedUpHunkHolds | src/lgtmaybe/core/diffparse.py:165-197 | walking the hunk found yields the line unless, in the diff, the first hunk of the path that covers it ends in an empty line and the line ends that hunk's range; then it does not |
| HunkLookup.BlankEndIsLost | src/lgtmaybe/core/diffparse.py:165-197 | a well-formed diff whose blank line can be commented on and is missing from the hunk looked up for it |
| Expand.EnclosingBoundary | src/lgtmaybe/engine/compress.py:301-323 | the walk back over sorted spans computes the enclosing boundary |
| Expand.EnclosingIsInnermost | src/lgtmaybe/engine/compress.py:301-323 | the boundary is the start of the innermost definition that contains the line within reach, and None exactly when there is none |
| Expand.GroupHunks | src/lgtmaybe/engine/compress.py:464-497 | the loop that grows its last group computes the grouping |
| Expand.MergeBodies | src/lgtmaybe/engine/compress.py:514-522 | the extend loop of a group computes its hunks' bodies with the gaps between them filled from the head text |
| Expand.ExpandHunks | src/lgtmaybe/engine/compress.py:353-400 | the whole function: the patch back when there is nothing to pad with or no hunk, else the rendered groups under the preamble |
| ExpandProofs.GroupingKeeps | src/lgtmaybe/engine/compress.py:464-497 | grouping loses and reorders no hunk, joins only gaps the head text reaches, and keeps each group's pad below the one before |
| ExpandProofs.RenderKeepsChanges | src/lgtmaybe/engine/compress.py:500-532 | one group rendered: header lengths count the body, both starts are at least 1, and the changed lines are those of its hunks |
| ExpandProofs.ExpandKeepsChanges | src/lgtmaybe/engine/compress.py:353-532 | for any head text, stale, short or empty, the changed line index is unchanged, and an expanded patch has true lengths, starts of at least 1 and hunks in order and apart on both sides |
| ExpandProofs.ExpandedTextParses | src/lgtmaybe/engine/compress.py:353-400 | the text printed parses back to the preamble and exactly the rendered hunks |
| ExpandWindows.ExpandedShowsWindows | src/lgtmaybe/engine/compress.py:353-532 | read back, an expanded patch shows exactly the maximal runs of hunks whose padding touches over lines the head text has, each under one header: above its first hunk the padding it asks for (n lines, or back to the start of the innermost definition within reach, inside both files) clear of the run before, below its last the trailing padding, and the first hunk's section |
| ExpandWindows.FirstHunkPadded | src/lgtmaybe/engine/compress.py:439-532 | the first hunk, where the head text reaches it, starts on both sides exactly as many lines earlier as it asks for |
| ExpandEdges.ExpandKeepsMeaningUnlessAdded | src/lgtmaybe/engine/compress.py:353-532 | with the trailing pad every leading pad brings, it still does if and only if the old file is not empty |
| ExpandEdges.TrailingContextLines | src/lgtmaybe/engine/compress.py:326-337 | the trailing pad is zero exactly when there is no leading pad, and otherwise one line or the most lines a quarter of the leading pad holds |
| ExpandMeaning.ExpandKeepsMeaningOfEdits | src/lgtmaybe/engine/compress.py:353-532 | hunks that show both sides keep their meaning outright, whatever the pad sizes |
| ExpandMeaning.AddedFileLosesItsStart | src/lgtmaybe/engine/compress.py:530-532 | the concrete added file that no longer applies after expansion |
| ExpandMeaning.ExpandedNumbersAreTrue | src/lgtmaybe/engine/compress.py:353-532 | every line the expanded patch keeps or adds, padding included, is the new file's line at the number the walk gives it, and every line it keeps or deletes the old file's; an added or deleted file is no exception |
| Slicing.TakeLines | src/lgtmaybe/engine/compress.py:105-120 | the prefix kept is within the budget and one line more would not be |
| Slicing.SplitPatchIntoHunks | src/lgtmaybe/engine/compress.py:123-148 | the loop with a current hunk computes the split at the marks |
| SliceProofs.SplitPatchWalks | src/lgtmaybe/engine/compress.py:123-148 | of any patch whose hunk headers are true of their bodies, the units are walked in order to the same entries, and each is well formed on its own with one hunk and the same path |
| Slicing.FindSliceEnd | src/lgtmaybe/engine/compress.py:198-215 | the growing loop on the estimate and the shrinking loop on the measure compute the end of one slice |
| Slicing.SplitHunkByBudget | src/lgtmaybe/engine/compress.py:151-219 | the nested loops terminate and compute the slices |
| Sizes.SlicesAreGreedy | src/lgtmaybe/engine/compress.py:151-219 | an oversized hunk is cut into slices one after another from its first body line to its last, each as long as the estimate lets it be, or shrunk from there to the first length measured within the budget or to one line; a single slice is the unit itself |
| SliceProofs.SplitHunkWalks | src/lgtmaybe/engine/compress.py:151-219 | the slices are walked in order to the unit's entries, number for number; their bodies concatenate to its body; each fits the budget, has one body line, or is the untouched unit |
| Batching.BatchFiles | src/lgtmaybe/engine/compress.py:222-287 | the loop that fills batches computes the batches, recursive or not |
| Batching.BatchesArePacked | src/lgtmaybe/engine/compress.py:222-287 | nothing is lost or reordered; every batch is non-empty and within the budget or one unit; any two neighbours together reach the budget |
| Sizes.SentFits | src/lgtmaybe/engine/compress.py:222-287 | with recursive batching every patch in a batch fits the budget, has at most one body line, holds no hunk, or is one hunk whose own printing fits; a file under the budget is sent whole |
| Greedy.BatchesAreGreedy | src/lgtmaybe/engine/compress.py:222-287 | a list of batches holding the units in order is the one made if and only if a unit that fills the budget stands alone, the others of a batch are within it together, and no batch was closed while the next unit still fitted |
| Batching.BatchingMovesNothing | src/lgtmaybe/engine/compress.py:222-287 | with recursive batching the batches hold exactly the walked lines of the files, with the same paths, order and numbers; asked of the files only that hunk headers are true of their bodies |
| Delivery.ExpandedIsSound | src/lgtmaybe/engine/stages.py:594-612 | padded with any text, a well-formed patch is one the packing keeps whole: hunk headers true of their bodies, under the same path |
| Delivery.SentIsTheDiff | src/lgtmaybe/engine/stages.py:594-613 | split by file, padded from any text and packed to any budget, a diff is sent with exactly its changed lines, in order, at their own paths, sides and numbers |
| Delivery.SentUnderItsPath | src/lgtmaybe/engine/stages.py:594-613 | every line in a batch is sent under the path its own headers bind it to |
| Batching.BatchCountBound | src/lgtmaybe/engine/compress.py:222-287 | there are at most 2 * total / max + 1 batches |
| DiffBuild.HeaderAloneIsNamed | src/lgtmaybe/core/diffbuild.py:50-74 | the header printed for a change with no hunks is read back as the change's path if and only if it is a rename or no " b/" in the path can pass for a side |
| DiffBuild.BlockHeaderParses | src/lgtmaybe/core/diffbuild.py:118-130 | a printed range parses back, with the omitted length 1 and the zero-length start that names the line before |
| DiffBuild.AlignmentApplies | src/lgtmaybe/core/diffbuild.py:104-130 | the hunks printed for any alignment of two line lists are in order and turn the first into the second |
| DiffBuild.FilePatchRoundTrip | src/lgtmaybe/core/diffbuild.py:104-130 | for any two texts, whatever their lines look like, and any alignment, the printed patch is read back as hunks that turn the one into the other, well formed and bound to the change's path by both readers |
| DiffBuild.ReadymadeHunksWalk | src/lgtmaybe/core/diffbuild.py:77-101 | hunks a host served keep their walked lines under the header and get the change's path |
| HeaderNotes.ReadymadeTells | src/lgtmaybe/core/diffbuild.py:50-101 | above hunks a host served the patch tells exactly what holds of the change: created or removed with which mode (a plain file's if none is named), which modes it switched between, from where to where it moved; without hunks it is those lines alone |
| HeaderNotes.FilePatchTells | src/lgtmaybe/core/diffbuild.py:50-130 | so does a patch made from two texts, and of a rename with no hunk that nothing else changed; with no hunk it is split off under its path exactly when the header alone would be |
| Fingerprint.WalkFromHashed | src/lgtmaybe/core/diff.py:51-64 | what a reader sees of a diff, numbers aside, is a function of the lines that are hashed |
| Fingerprint.SameHashSameReading | src/lgtmaybe/core/diff.py:51-64 | two well-formed diffs with one fingerprint agree on every path, kind and line text, in order, unless the hash collides on the two texts it was given |
| Rebase.FingerprintExactly | src/lgtmaybe/core/diff.py:51-64 | two well-formed diffs have one fingerprint if and only if, blob id lines aside, they are the same line by line but for the ranges of their hunk headers, up to a collision on the two texts hashed |
| Snap.SnapFindings | src/lgtmaybe/engine/engine.py:1403-1415 | the list of findings is snapped one by one on one prepared index |
| Snap.SnapIsSound | src/lgtmaybe/engine/engine.py:1426-1496 | a finding that stays anchored stands on a changed line of its path and side that answers its quote at the strictest level any line does, none nearer; one that nothing answers keeps its line and is marked |
| Anchors.UnanchoredExactly | src/lgtmaybe/engine/engine.py:1426-1496 | a finding that quotes a line is marked unanchored if and only if no changed line of its path and side is that line but for the whitespace around it, none has the same words, and it is not so that the quote has 8 characters and exactly one line holds it or, with 8 characters itself, stands in it |
| Anchors.SnapSettles | src/lgtmaybe/engine/engine.py:1436-1496 | where a changed line settles a quote (the strictest level that any answers, the nearest there, the first of equals; at the loosest the only one), the finding is put on that line and nothing else of it changes |
| Anchors.AnchoredHasSettled | src/lgtmaybe/engine/engine.py:1426-1496 | a finding that stays anchored has such a line |
| Anchors.UnquotedStays | src/lgtmaybe/engine/engine.py:1472-1496 | a finding with no quote, or one of nothing but whitespace, is left as it is |
| Placement.ReviewKeepsIndex | src/lgtmaybe/engine/engine.py:478 | splitting, expanding every patch with any text and joining keeps the changed line index of the diff |
| Placement.SnappedIsCommentable | src/lgtmaybe/engine/engine.py:1403-1496 | end to end: a finding that quotes a line and stays anchored on the rewritten diff stands on a commentable line of the original one |
| Placement.SnappedGoesInline | src/lgtmaybe/core/comment.py:367-393 | so such a finding goes inline if it is not broad and the host can place it |
| Conflicts.ResolveConflicts | src/lgtmaybe/engine/conflicts.py:68-93 | the loop keeps, in order, exactly the findings no finding of the input outranks |
| Conflicts.OnlyCutsYield | src/lgtmaybe/engine/conflicts.py:31-65 | a loser is always a ponytail finding, a winner is correctness or security, and no winner is itself outranked |
| Conflicts.DroppedForSurvivor | src/lgtmaybe/engine/conflicts.py:68-93 | for every dropped finding one that outranks it survives |
| Conflicts.DroppedExactly | src/lgtmaybe/engine/conflicts.py:31-93 | a finding is dropped if and only if it is a ponytail finding and a correctness or security finding of the same path and side stands within 3 lines of it |
| Conflicts.ArbitratedOnce | src/lgtmaybe/engine/conflicts.py:68-93 | arbitrating again, on all of the first result or any part of it, changes nothing |
| Merge.Dedupe | src/lgtmaybe/engine/engine.py:1499-1545 | the dictionary loop returns one finding a key in the order the keys first occur, each the first of the best by anchoring, severity and body length |
| Merge.MergeUnique | src/lgtmaybe/engine/engine.py:1499-1545 | that description admits one result only |
| Merge.OneOfASite | src/lgtmaybe/engine/engine.py:1499-1545 | of the findings at one site (one path, line and side, and for a scanner's hit one title, apart from all others) exactly one is kept: the first that none there is better than by anchoring, then severity, then body length |
| Merge.MergeAfterArbitration | src/lgtmaybe/engine/engine.py:510-522 | every surviving finding is there or one at its key no worse; what was dropped has its winner's key there; a ponytail finding never takes a key that held a correctness or security one; arbitrating again is the identity |
| Merge.MergingFirstLosesTheFix | src/lgtmaybe/engine/engine.py:502-510 | the concrete pair for which merging before arbitrating keeps the cut and loses the fix |
| Markers.StripMarkers | src/lgtmaybe/core/comment.py:52-65 | the loop terminates at the fixed point of one pass of the substitution |
| Markers.PassShortens | src/lgtmaybe/core/comment.py:52-65 | a pass leaves alone exactly the texts that carry no marker and shortens all others |
| Markers.StrippedIsMarkerFree | src/lgtmaybe/core/comment.py:52-65 | the result carries no marker anywhere, even one spliced together; a text without markers comes back as it was |
| Prose.ProseIsClean | src/lgtmaybe/core/comment.py:33-70 | model prose made safe carries no marker anywhere, and a fence if and only if the stripped text has a whole run of backticks longer than three and two more than a multiple of three; a text without markers reads as before but for spaces of no width, and one with no fence either is returned as it was |
| StampedIds.LastBlockFound | src/lgtmaybe/core/comment.py:294-339 | whatever stands before it, the block at the end of a body is the one split off and read |
| StampedIds.BlockExactly | src/lgtmaybe/core/comment.py:287-339 | ids are read from a text if and only if it is a block: the finding marker, possibly whitespace and the identity marker, and only whitespace to the end |
| StampedIds.RenderedKeysReadBack | src/lgtmaybe/core/comment.py:342-440 | the keys read from a rendered comment are its finding's two ids, even with look-alike markers in the suggestion |
| StampedIds.CommentShows | src/lgtmaybe/core/comment.py:421-440 | split off its ids, a rendered comment is its heading, its body and its suggestion as code: with a fence inside exactly where ProseIsClean says one is left, the same but for spaces of no width, and untouched where it has no fence |
| StampedIds.RetiringSilences | src/lgtmaybe/core/comment.py:297-326 | splitting loses nothing, and the body with its block retired carries no active id |
| Posting.PartitionFindings | src/lgtmaybe/core/comment.py:367-393 | the loop fills the three lists as each finding's destination says |
| Posting.PartitionIsExact | src/lgtmaybe/core/comment.py:367-393 | what goes inline is exactly what is anchored on a commentable line, not broad, and placed by the host |
| Posting.PartitionLosesNothing | src/lgtmaybe/core/comment.py:367-393 | the three lists together hold each finding exactly as often as the input |
| Posting.FindUnposted | src/lgtmaybe/core/comment.py:396-418 | the loop over a working list computes the candidates to post |
| Posting.RerunAddsNothing | src/lgtmaybe/core/comment.py:396-418 | with the keys of what was posted appended, a second run over the same candidates posts nothing |
| Posting.AbsorbedOneForOne | src/lgtmaybe/core/comment.py:396-418 | absorbed candidates map one to one to comments that share an id, the rest keep their order, and no comment left over shares an id with one of them |
| Posting.RerunThroughComments | src/lgtmaybe/core/comment.py:354-440 | the same through the page: a run that reads back the bodies the last one rendered posts nothing |
| Matching.AnyOrderExactly | src/lgtmaybe/core/comment.py:396-418 | a run posts nothing whatever the order of the comments if and only if no finding can be starved: earlier findings cannot take, one each, every comment it shares an id with |
| Matching.OrderIsNothingInClasses | src/lgtmaybe/core/comment.py:396-418 | where findings that share an id with one comment share ids with the same comments, a second run posts nothing in whatever order it finds the comments |
| FanOut.FanOut | src/lgtmaybe/engine/engine.py:775-825 | whatever futures each wait returns, the loop terminates with one outcome a call in call order, each call submitted once and none before its primer finished |
| FanOut.EveryRun | src/lgtmaybe/engine/engine.py:775-825 | for every order of completions: nothing in flight if and only if as many completed as there are calls, and then no primer and no deferred batch is left and the results are the outcomes in call order |
| FanOut.SubmittedOnceCleared | src/lgtmaybe/engine/engine.py:775-825 | at every moment of every run the calls submitted are exactly those that have no primer or whose primer has finished: none early, none late |
| FanOut.SubmitAllKeeps | src/lgtmaybe/engine/engine.py:799-825 | releasing calls whose primer has finished puts each in flight once and moves no other |
| FanOut.CompleteKeeps | src/lgtmaybe/engine/engine.py:813-825 | one completion keeps the invariant, strands no deferred call, and adds exactly one new result |
| JsonSpans.OutsideStrings | src/lgtmaybe/engine/parse.py:120-141 | the two flags compute the quote and escape automaton |
| JsonSpans.BalancedSpans | src/lgtmaybe/engine/parse.py:144-159 | one walk with two stacks yields exactly the spans of a naive scan from each opener outside strings, in opening order |
| JsonSpans.StackEnds | src/lgtmaybe/engine/parse.py:144-159 | an opener on its stack ends where its own kind's count, started at its distance from the top, comes to zero |
| JsonSpans.IsUnterminated | src/lgtmaybe/engine/parse.py:257-276 | the depth loop says whether openers outrun closers outside strings |
| JsonSpans.StrippedDepth | src/lgtmaybe/engine/parse.py:162-168 | removing trailing commas opens and closes nothing |
| JsonSpans.OnePassIsEnough | src/lgtmaybe/engine/parse.py:162-168 | after one pass no trailing comma is left outside strings, and a second pass changes nothing, if and only if no two trailing commas stood in a row |
| Envelopes.CharsQuoted | src/lgtmaybe/engine/parse.py:120-141 | the characters of a string, escapes included, neither open nor end anything for the automaton |
| Envelopes.OpenPrefix | src/lgtmaybe/engine/parse.py:144-276 | in any prefix of an envelope whose array is not closed, the spans are exactly the texts of the completed findings, and the depth is positive |
| ParseFindings.IterJsonValues | src/lgtmaybe/engine/parse.py:171-206 | the candidates are tried in order, each text once, repaired when it does not decode |
| ParseFindings.ParseAnswer | src/lgtmaybe/engine/parse.py:381-463 | the loop with its held-back finding computes the outcome, each failure under its own shape |
| ParseFindings.WholeEnvelopeParses | src/lgtmaybe/engine/parse.py:381-463 | a closed envelope of schema-valid findings parses to all of them, if no reasoning block can be read in it |
| ParseFindings.ClosedArrayParses | src/lgtmaybe/engine/parse.py:381-463 | cut after its array closes, it still parses to all of them, if no reasoning block can be read in what is left |
| ParseFindings.CutEnvelopeIsTruncated | src/lgtmaybe/engine/parse.py:326-463 | cut anywhere before that, it is reported truncated with exactly the completed findings in order, minus textual repeats, never a lone first finding as the answer, if no reasoning block can be read in what is left |
| ParseFindings.StripsBlocksOnly | src/lgtmaybe/engine/parse.py:110-117 | any text is left alone by the stripping of reasoning blocks if and only if no opening tag in it has a closing tag after it; otherwise it gets shorter |
| ParseFindings.TriedAsItStands | src/lgtmaybe/engine/parse.py:171-206 | an envelope is among the texts tried if and only if no opening tag in it, strings included, is followed by a closing one |
| ParseFindings.TagsInStringsLoseAFinding | src/lgtmaybe/engine/parse.py:110-206 | the closed envelope of two findings that is read as one, because the tags in their strings are taken for a block |
| Answers.TrailingCommasAreRepaired | src/lgtmaybe/engine/parse.py:162-463 | an answer that does not decode and is a valid envelope but for trailing commas parses to all the envelope's findings |
| Answers.WrappedEnvelopeParses | src/lgtmaybe/engine/parse.py:171-463 | an envelope in prose or fences, with or without trailing commas, parses to exactly those of its findings the schema takes, in order, unless the schema refuses every one |
| Answers.BareFindingParses | src/lgtmaybe/engine/parse.py:279-463 | an answer that is one object the schema takes parses to that finding |
| Answers.FirstWholeWins | src/lgtmaybe/engine/parse.py:381-463 | the first value that is a whole answer is taken, whatever was read before and after it |
| Answers.NoWholeOutcome | src/lgtmaybe/engine/parse.py:381-463 | where none is: cut off comes before a lone finding, the first lone finding before a refusal, a refusal before what the text looks like |
| Answers.RecoveredExactly | src/lgtmaybe/engine/parse.py:326-343 | of a cut answer a finding is recovered if and only if some object read, whose last "findings" member is no list, is it by the schema |
| Answers.NothingReadOutcome | src/lgtmaybe/engine/parse.py:209-255 | an answer with nothing that decodes is empty, broken JSON where some bracketed part has a quote in it, or else prose |
| Answers.NotFindingsOutcome | src/lgtmaybe/engine/parse.py:209-255 | an answer that decodes, or has a quoted and bracketed part that does, and has nothing shaped like findings was never findings |
| Answers.StrayListIsPassedOver | src/lgtmaybe/engine/parse.py:279-294 | a list is shaped like findings if and only if all its items are objects; any other changes nothing of what is found after it |
| Answers.AnyBlockIsCut | src/lgtmaybe/engine/parse.py:110-117 | a reasoning block, with either tag in any case, is cut out with all it holds and what stands around it stays |
| Watermark.ScopeIsSound | src/lgtmaybe/review.py:246-306 | a run is given all that is not covered yet, and told there is nothing only where a completed head is the same or has the same fingerprint |
| Watermark.HistoryKeeps | src/lgtmaybe/review.py:104-306 | every stamp, overview marker and verdict is justified after every history of pushes, overlapping runs, partial runs, interruptions between writes and failed lookups |
| Watermark.NothingToReviewIsTrue | src/lgtmaybe/review.py:130-306 | a run reports nothing to review only if every change of the head was handed to engine.review by completed runs, or its diff fingerprints as that completed head's; with an overview required, that head's review had been posted to its end |
| Watermark.StampedBeforeTheRest | src/lgtmaybe/github/rest_gateway.py:539-607 | a head is stamped while part of its review is unwritten if and only if the run updates a review at the same commit and stops after that first write, among the comments or before the second summary with what the host refused |
| Watermark.CompleteButNotPosted | src/lgtmaybe/github/rest_gateway.py:539-574 | the history in which such a head is then reported complete |
| Watermark.CompletedIsRecognised | src/lgtmaybe/review.py:130-292 | after all writes of a complete run, a later run at the same head that can read them has nothing to review |
| Watermark.IncrementIsReviewed | src/lgtmaybe/review.py:246-306 | after all writes of a complete run and a push, an incremental run that can read the host is given exactly the increment the compare answers with; the whole diff only where the compare has no usable answer; and a verdict where the diff fingerprints as before |
| Watermark.EarlierReviewsStay | src/lgtmaybe/github/rest_gateway.py:535-607 | a complete run replaces the summary of a review at its own commit and no other; at a new commit it adds one review and leaves the earlier ones |

## Left out

- All HTTP, subprocess, git, file and model calls. The host in `Watermark` is its summaries, overview marker and head; its answers and failures are free choices of each step.
- SHA-256, the tokenizer, difflib's matching and json.loads: a hash is any function, a count any function to naturals, an alignment any valid one; json.loads is relied on for reading the envelope at hand, its array and its findings as what they are, and for refusing texts that leave a bracket open. Two spellings of one member name are not identified.
- Redaction, which runs before the diff is split: every statement starts from the diff as the geometry engine receives it.
- Paths git quotes, and paths with control characters: `SafePath` asks what the builders' callers ask.
- Regular expressions in general: hunk headers, file headers, markers and id blocks have direct scanners. Digits are ASCII, where `\d` also takes other decimal digits.
- Negative token budgets in cutting and packing: max is a natural number. Line numbers are naturals.
- Retries (`_rescue`), the worker limit of the pool and exceptions of a call: an outcome is a function of the call.
- The JSON envelope has one key, "findings", and flat findings with scalar values; a `needs` key beside it and nested values are not covered by the exactness of truncation.
- Watermark.NothingToReviewIsTrue: takes a head's diff against its base as fixed; a base that moves under an unchanged head is not modelled, and the host's compare is taken at its word that it covers all that came since.
- Watermark: dry runs, labels, the merge-gate check and thread resolution write nothing it reads; they are one kind of write that changes nothing.
- `_validate_prior_findings`, learned feedback, severity floors, caps, suppression, reflection and the summary's prose.
- StampedIds.RenderedKeysReadBack: takes the badge and the capitals of the severity as given text.
- Classes: the source's hunks, groups and findings are plain data here, and aliasing of a hunk's body list between groups is not modelled.
