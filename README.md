# vet, modelled in Dafny

vet is a terminal code-review tool. It reads the working tree's diff as
files made of hunks made of lines. It walks the reviewer through every hunk in
turn and collects review comments, either on a whole hunk or on one line
(typed as `:N text`). At the end it writes one document to an output file:
the feedback, grouped by file, or the sentinel `ABORTED`.

This project models the logic underneath the terminal widgets:

- `Types`, `Keys`: the diff and comment records, and key events.
- `Diff`: the mapping from the diff parser's records to the session's
  files, hunks and lines, and the text snippet a comment captures of its
  hunk.
- `Grouping`, `Formatter`: the feedback document. It is built as the formatter
  builds it: a loop fills an insertion-ordered map by file, then the lines are
  pushed. Both are proved equal to a line-by-line specification. The
  specification's properties are proved: first-appearance order of files,
  list order within a file, label precedence, the fenced snippet, and the
  header and footer.
- `Navigation`, `CommentStore`, `Session`: the session controller as a class
  whose fields are the app's state variables. Each handler is a method whose
  new state is tied to a specification function. The lemmas beside them prove:
  - a sequential walk visits every hunk once, in order, and then finishes;
  - going back undoes going forward;
  - re-submitting replaces a comment by its key;
  - a review can write at most one string, and only on exit.
- `CommentInput`: the comment editor as a class over `input` and `lineMode`.
  Its key handler is proved against `KeyStep`, together with the `:N`
  grammar.
- `HunkReview`, `DiffView`, `Overview`: the pure projections of the review,
  diff and overview screens.
- `Summary`: the summary screen's grouping by file with global positions, and
  its selection state machine as a class proved against `SummaryStep`.
- `Screens`: the three key-driven screens wired to the session's handlers. A
  review keypress reaches both input hooks: the screen's own Ctrl keys and the
  comment editor.

Handlers read the state as of the last render. The model keeps this. So
`addHunkComment` decides the end of the review on the comment list from
*before* its own update. A first comment placed on the last hunk is therefore
stored, but the review ends on the no-feedback screen
(`Screens.FirstCommentOnLastHunkEndsWithoutFeedback`).

JavaScript truthiness is modelled where the source relies on it. A line number
of 0 counts as "no line" in the labels, in the dispatch of a submission, and in
the line-comment map. The overview's digit test is a lexicographic string
comparison, so a pasted "12" passes it (`Overview.DigitKeyShape`). Integers are
unbounded.

The code behaves in three places as a reader might not expect, and the model
follows it:

- The snippet strips at most one leading `+` or `-` from a line's content, not
  a leading space.
- A line label needs a *truthy* line number, so 0 falls back to the range label.
- The diff fence is omitted when the snippet is empty. The deleted-file flag is
  not tested, but a deleted file's comments always carry an empty snippet
  anyway (`CommentStore.DeletedFileCommentBlock`).

## Model

| member | source | states |
|---|---|---|
| Util.SplitJoin | src/__tests__/diff.test.ts:42-45 | splitting newline-joined lines that contain no newline gives back exactly those lines |
| Util.TakeWhile | src/cli/components/CommentInput.tsx:26 | the greedy `\d+` run: a prefix, all matching, and maximal |
| Util.ParseNatToString | src/cli/components/CommentInput.tsx:28 | `parseInt` of a number's decimal rendering gives the number back |
| Util.IntToStringInjective | src/output/formatter.ts:31 | different numbers render as different decimal strings |
| Util.PadStart | src/cli/components/DiffView.tsx:38 | `padStart(width)`: length is the larger of the two, the text is a suffix, the rest is spaces |
| Util.Filter | src/cli/App.tsx:78-81 | `filter` keeps only elements satisfying the predicate, taken from the input, never more of them |
| Util.FilterKeeps | src/cli/App.tsx:78-81 | every element satisfying the predicate survives `filter` |
| Util.FilterAppend | src/cli/App.tsx:78-81 | `filter` distributes over concatenation |
| Diff.ToDiffLineKeepsParserLine | src/git/diff.ts:38-64 | a parser change keeps its marker as the marker of its line's kind, and its snippet line gives the parser's line back: unchanged for an addition or deletion, with the marker space in front for context |
| Diff.ToHunk | src/git/diff.ts:66-76 | one line per change in order; the start line falls back from `newStart` to `oldStart` to 1 and is never 0; `endLine >= startLine` when the counts are non-negative; header defaults to "" |
| Diff.ToFileDiff | src/git/diff.ts:32-89 | new/deleted flags copied; binary iff no chunks and neither new nor deleted; path falls back from `from` to `unknown` for a deleted file, else from `to` to `from` to `unknown`, and is never empty; one hunk per chunk |
| Diff.ToFileDiffsKeepsChunks | src/git/diff.ts:26-37 | a blank diff gives no hunks; otherwise the files hold exactly one hunk per parser chunk, and a file that is not deleted and has no hunk is flagged new or binary |
| Diff.SnippetLines | src/git/diff.ts:93-98 | the snippet's filter keeps every line: one rendered line per hunk line |
| Diff.GenerateDiffSnippet | src/git/diff.ts:92-100 | a hunk with no lines gives exactly "" |
| Diff.SnippetSplitsIntoLines | src/__tests__/diff.test.ts:29-63 | the snippet of N newline-free lines splits into N pieces, each starting with its line's marker and continuing with the content minus at most one leading `+`/`-` |
| Diff.SnippetLineOfMarkedContent | src/git/diff.ts:96-97 | an added or deleted line whose content starts with its own marker reappears unchanged; a context line keeps its space behind the marker space |
| Grouping.Paths | src/output/formatter.ts:16-21 | the keys of the per-file map are never more than the comments |
| Grouping.PathOf | src/output/formatter.ts:17-20 | every comment's path is a map key |
| Grouping.CommentOn | src/output/formatter.ts:17-20 | every map key is some comment's path |
| Grouping.PathsDistinct | src/output/formatter.ts:16-21 | the map's keys are distinct |
| Grouping.PathsAreTheDistinctPaths | src/output/formatter.ts:16-21 | the keys are distinct and are exactly the paths the comments carry |
| Grouping.PathsInFirstAppearanceOrder | src/__tests__/formatter.test.ts:70-111 | when file A's heading comes before file B's, every comment on B is preceded in the list by a comment on A |
| Grouping.CommentsOfSnoc | src/output/formatter.ts:17-20 | appending a comment adds it to its own file's group and to no other |
| Grouping.CommentsOfAbsent | src/output/formatter.ts:16-21 | a path no comment carries has an empty group |
| Grouping.GroupSizesSnoc | src/output/formatter.ts:23-46 | appending a comment adds one to the group sizes exactly when its path is listed |
| Grouping.GroupsPartition | src/output/formatter.ts:23-46 | the groups' sizes add up to the number of comments: every comment is written exactly once |
| Grouping.IndexedOfEntries | src/cli/Summary.tsx:28-33 | each entry of the summary's group is the comment at its global index, on that path, with increasing indices |
| Grouping.IndexedOfComplete | src/cli/Summary.tsx:28-33 | every comment on the path appears in its group with its global index |
| Grouping.IndexedOfProjects | src/cli/Summary.tsx:28-33 | dropping the indices gives the formatter's group, element by element |
| Grouping.PathCount | src/cli/Summary.tsx:78 | the map's size is the number of distinct paths |
| Grouping.DistinctCard | src/cli/Summary.tsx:78 | a list without repeats has as many elements as its set |
| Formatter.CommentBlock | src/output/formatter.ts:27-45 | the label first, then the ```` ```diff ```` fence around the snippet iff the snippet is non-empty (6 lines or 3), then the text and an empty line |
| Formatter.Feedback | src/output/formatter.ts:3-6 | the document is "" exactly when there are no comments |
| Formatter.FeedbackFrame | src/output/formatter.ts:8-51 | a non-empty document starts with the title line and ends with `\n---\n` and the closing sentence, with no trailing newline |
| Formatter.SectionsSnoc | src/output/formatter.ts:23-26 | one more file adds its heading, an empty line and its comments' blocks at the end |
| Formatter.GroupByPath | src/output/formatter.ts:16-21 | the loop builds a map whose keys, in insertion order, are the distinct paths in first-appearance order, each holding that file's comments in list order |
| Formatter.GroupedSnoc | src/output/formatter.ts:16-21 | one iteration of the grouping loop turns the grouping of a prefix into the grouping of the prefix with one more comment |
| Formatter.PushComment | src/output/formatter.ts:28-44 | the pushes for one comment append exactly its block |
| Formatter.PushSection | src/output/formatter.ts:24-45 | the pushes for one file append its heading, an empty line and its comments' blocks |
| Formatter.PushSections | src/output/formatter.ts:23-46 | pushing each file's section in the map's key order appends the sections of all files in that order |
| Formatter.FormatFeedback | src/output/formatter.ts:3-52 | the formatter's loops produce exactly the specified document |
| Formatter.AbortedIsNeverFeedback | src/output/formatter.ts:54-56 | `ABORTED` differs from every feedback document |
| Formatter.LabelShape | src/output/formatter.ts:28-34 | the label's characters tell deletion, line and range labels apart |
| Formatter.LabelIdentifiesLocation | src/output/formatter.ts:28-34 | equal labels mean the same precedence case and, for line labels, the same line number |
| Formatter.LabelExamples | src/__tests__/formatter.test.ts:10-67 | the test comments give `**Lines 10-12:**` and `**Line 15 specifically:**`; a deleted file's comment has no fence |
| Overview.TotalHunksAppend | src/cli/Overview.tsx:19 | the hunk total of two lists of files is the sum of their totals |
| Overview.TotalHunksBound | src/cli/Overview.tsx:19 | no file has more hunks than the total |
| Overview.FileSuffixIdentifies | src/cli/Overview.tsx:47-57 | equal suffixes mean the same case of deleted, new, binary or counted, and for a counted suffix the same number of hunks |
| Overview.ShortcutBound | src/cli/Overview.tsx:71 | the hint's upper end is at most 9 and at most the file count, and is one of them |
| Overview.OverviewKey | src/cli/Overview.tsx:21-32 | a jump always names an existing file |
| Overview.DigitKeyShape | src/cli/Overview.tsx:26 | the string comparison admits exactly the texts starting with 1..8, and "9" |
| Overview.DigitJump | src/cli/Overview.tsx:26-30 | digit key d opens file d-1 if it exists and does nothing otherwise |
| Overview.OtherKeysIgnored | src/cli/Overview.tsx:21-32 | keys other than Enter, `q` and a leading 1..9 do nothing |
| Overview.FixtureTotals | src/__tests__/Overview.test.tsx:35-107 | the test fixture totals 4 hunks, reads `3 files changed, 4 hunks total`, and shows ` (2 hunks)`, ` (new)`, ` (deleted)` |
| Navigation.Advance | src/cli/App.tsx:113-124 | stays in range; finishes exactly on the last hunk of the last file |
| Navigation.Retreat | src/cli/App.tsx:126-134 | stays in range; changes nothing at the first hunk of the first file |
| Navigation.SkipFile | src/cli/App.tsx:136-143 | hunk 0 of the next file, or finish exactly on the last file |
| Navigation.NextFile | src/cli/App.tsx:151-156 | hunk 0 of the next file when there is one, otherwise no move |
| Navigation.PrevFile | src/cli/App.tsx:158-163 | hunk 0 of the previous file when there is one, otherwise no move |
| Navigation.TotalHunksPrefixMonotone | src/cli/App.tsx:113-124 | the hunks before a file never decrease along the list |
| Navigation.TotalHunksSnocPrefix | src/cli/App.tsx:113-124 | one more file adds its hunks to the count before the next one |
| Navigation.RankBound | src/cli/App.tsx:113-124 | a hunk's position in the sequential order is below the total |
| Navigation.RankStrictlyIncreasing | src/cli/App.tsx:113-124 | the position follows the lexicographic (file, hunk) order |
| Navigation.RankInjective | src/cli/App.tsx:113-124 | different hunks have different positions |
| Navigation.AdvanceIsNextInOrder | src/cli/App.tsx:113-124 | when every file has hunks, advancing moves to the next position and finishes exactly at the last |
| Navigation.WalkOrder | src/cli/App.tsx:113-124 | the n-th advance from (0,0) stands on the hunk at position n |
| Navigation.WalkFinishes | src/cli/App.tsx:113-124 | after all hunks the walk finishes the review |
| Navigation.WalkVisitsEveryHunkOnce | src/cli/App.tsx:113-124 | the walk reaches each hunk at exactly one step, its position |
| Navigation.WalkInFile | src/cli/App.tsx:113-124 | whatever the hunk counts, the walk stands on hunk h of file f after a fixed number of advances, entering a file without hunks at hunk 0 |
| Navigation.RetreatUndoesAdvance | src/cli/App.tsx:113-134 | going back undoes an advance that did not finish |
| Navigation.RetreatIntoEmptyFile | src/cli/App.tsx:129-132 | going back into a file without hunks sets the hunk index to -1 |
| Session.AfterAdvance | src/cli/App.tsx:113-124 | the cursor stays in range; the screen changes only to the finish decision on the list read |
| Session.AfterSkip | src/cli/App.tsx:136-143 | the cursor stays in range |
| Session.App.constructor | src/cli/App.tsx:23-27 | loading, nothing loaded, no comments, cursor (0,0), nothing written |
| Session.App.Load | src/cli/App.tsx:31-44 | the screen is the load decision and the files are the result |
| Session.App.CurrentHunk | src/cli/App.tsx:54-59 | a hunk exactly when the cursor stands on one, and it is that hunk |
| Session.App.Start | src/cli/App.tsx:223 | the review starts at (0,0) |
| Session.App.JumpToFile | src/cli/App.tsx:145-149 | the review starts at (i,0) |
| Session.App.QuitFromOverview | src/cli/App.tsx:195-198 | exits without writing anything |
| Session.App.AdvanceWith | src/cli/App.tsx:113-124 | the new cursor and screen are `AfterAdvance` on the list it is given |
| Session.App.FinishWith | src/cli/App.tsx:165-171 | the screen is the finish decision on the list it is given |
| Session.App.AdvanceToNextHunk | src/cli/App.tsx:113-124 | the new cursor and screen are `AfterAdvance` on the current comments |
| Session.App.FinishReview | src/cli/App.tsx:165-171 | the screen is the finish decision on the current comments |
| Session.App.AddHunkComment | src/cli/App.tsx:61-85 | the comments become the hunk-key upsert of the new comment; the cursor and screen advance deciding on the list from before the update |
| Session.App.AddLineComment | src/cli/App.tsx:87-111 | the comments become the line-key upsert of the new comment; cursor and screen unchanged |
| Session.App.GoToPrevHunk | src/cli/App.tsx:126-134 | the cursor is `Retreat` of the old one |
| Session.App.SkipToNextFile | src/cli/App.tsx:136-143 | the new cursor and screen are `AfterSkip` |
| Session.App.JumpToNextFile | src/cli/App.tsx:151-156 | the cursor is `NextFile` of the old one |
| Session.App.JumpToPrevFile | src/cli/App.tsx:158-163 | the cursor is `PrevFile` of the old one |
| Session.App.HandleSubmitFeedback | src/cli/App.tsx:173-177 | writes exactly the feedback document of the comments, once, and exits |
| Session.App.HandleDiscard | src/cli/App.tsx:179-182 | writes exactly `ABORTED`, once, and exits |
| Session.App.HandleEditComment | src/cli/App.tsx:184-186 | the comments become `EditAt` of the old ones |
| Session.App.HandleDeleteComment | src/cli/App.tsx:188-193 | the comments become `RemoveAt` of the old ones; no-feedback screen iff the old list had at most one comment |
| CommentStore.DeletedFileCommentBlock | src/cli/App.tsx:70 | a deleted file's comment is written as the deletion label, its text and an empty line, with no fence |
| CommentStore.UpsertHunkComment | src/cli/App.tsx:77-82 | the new comment is last, and the others are exactly the old comments without that hunk key |
| CommentStore.UpsertLineComment | src/cli/App.tsx:103-108 | the new comment is last, and the others are exactly the old comments without that line key |
| CommentStore.UpsertHunkCommentSlot | src/cli/App.tsx:77-82 | exactly one comment has the hunk key, the last; the others keep their relative order |
| CommentStore.UpsertLineCommentSlot | src/cli/App.tsx:103-108 | exactly one comment has the line key, the last; the others keep their relative order |
| CommentStore.LineCommentKeepsHunkComment | src/cli/App.tsx:103-108 | a line comment never removes the hunk's hunk-level comment |
| CommentStore.EditAt | src/cli/App.tsx:184-186 | same length; only the text at index i changes; other positions unchanged |
| CommentStore.RemoveAt | src/cli/App.tsx:188-190 | removes exactly the element at index i (one fewer, same multiset minus it, later ones shift down); otherwise unchanged |
| CommentStore.EditKeepsGrouping | src/cli/App.tsx:184-186 | an edit keeps the files, their order, and each file's comment count |
| CommentInput.ParseLineTarget | src/cli/components/CommentInput.tsx:25-31 | a number exactly when the text starts with `:` and a digit |
| CommentInput.ParseLineComment | src/cli/components/CommentInput.tsx:66-69 | matches exactly when `parseLineTarget` does, with the same line |
| CommentInput.LineInput.constructor | src/cli/components/CommentInput.tsx:21-22 | the buffer starts as the existing comment, with no line mode |
| CommentInput.LineInput.UpdateInput | src/cli/components/CommentInput.tsx:34-39 | the new buffer, announcing the line mode if set, else the line the buffer names |
| CommentInput.LineInput.HandleKey | src/cli/components/CommentInput.tsx:41-102 | buffer, line mode and reaction are `KeyStep` of the old state |
| CommentInput.LineTargetOf | src/cli/components/CommentInput.tsx:25-31 | `:N` followed by a non-digit names line N |
| CommentInput.ParseLineCommentPieces | src/cli/components/CommentInput.tsx:66 | the digit run ends where the rendered number ends |
| CommentInput.LineCommentOf | src/cli/components/CommentInput.tsx:66-69 | `:N`, whitespace, then a text on one line parses as line N with that text |
| CommentInput.LineCommentAfter | src/cli/components/CommentInput.tsx:66-69 | the same, for the text after the digits |
| CommentInput.EnterOnEmptySkips | src/cli/components/CommentInput.tsx:60-63 | Enter on an empty buffer skips, submits nothing |
| CommentInput.EnterSubmitsLineComment | src/cli/components/CommentInput.tsx:64-73 | Enter on `:N`, optional whitespace, then text submits the text for line N and clears the buffer; with no whitespace the text must not start with a digit |
| CommentInput.LineCommentWithoutSpace | src/cli/components/CommentInput.tsx:66-73 | `:5x` submits `x` for line 5 |
| CommentInput.LineCommentAfterTab | src/cli/components/CommentInput.tsx:66-73 | `:5<tab>x` submits `x` for line 5 |
| CommentInput.EnterSetsLineMode | src/cli/components/CommentInput.tsx:74-79 | Enter on `:N` and whitespace sets line mode N, clears the buffer, submits nothing |
| CommentInput.EnterOnBareColonDoesNothing | src/cli/components/CommentInput.tsx:64-80 | Enter on `:` without a digit changes nothing and calls nothing |
| CommentInput.EnterInLineMode | src/cli/components/CommentInput.tsx:81-85 | in line mode, Enter submits the text for that line and leaves line mode |
| CommentInput.ColonTakesPrecedence | src/cli/components/CommentInput.tsx:64-85 | a buffer of `:M`, optional whitespace, then text, in line mode N, goes to line M and leaves line mode N set |
| CommentInput.EnterSubmitsHunkComment | src/cli/components/CommentInput.tsx:86-90 | otherwise Enter submits a hunk comment and clears the buffer |
| CommentInput.ArrowsNavigateOnlyWhenEmpty | src/cli/components/CommentInput.tsx:48-58 | Up/Down go back/skip exactly when the buffer is empty |
| CommentInput.EscapeAlwaysFinishes | src/cli/components/CommentInput.tsx:42-46 | Escape always finishes and leaves the buffer alone |
| CommentInput.BackspaceDropsOne | src/cli/components/CommentInput.tsx:94-97 | Backspace/Delete drop one trailing character; empty stays empty |
| CommentInput.TypingAppends | src/cli/components/CommentInput.tsx:99-101 | in every line mode, typed text without Ctrl/Meta is appended and the line mode kept; the announced target is the line mode's number when one is set, otherwise the line the new buffer names |
| CommentInput.CtrlKeysIgnored | src/cli/components/CommentInput.tsx:99 | a Ctrl key leaves the editor alone |
| HunkReview.FindHunkComment | src/cli/HunkReview.tsx:41-43 | the position of the first comment with the path, hunk and a falsy line, or none exactly when there is no such comment |
| HunkReview.SubmittedHunkCommentIsExisting | src/cli/HunkReview.tsx:41-43 | after a hunk comment is submitted, it is the hunk's existing comment |
| HunkReview.LineComments | src/cli/HunkReview.tsx:46-48 | exactly the comments with the path, hunk and a truthy line |
| HunkReview.HunkCommentsSplit | src/cli/HunkReview.tsx:41-48 | every comment of the hunk is a line comment or a hunk-level one |
| HunkReview.TitleIdentifiesHunk | src/cli/HunkReview.tsx:76-78 | two hunks of a file that is not deleted never share a title |
| HunkReview.TitleMarksDeletion | src/cli/HunkReview.tsx:76-78 | the title ends in `)` exactly for a deleted file, whose title carries no hunk counter |
| Screens.RenderThrowsExactlyOnHunklessFiles | src/cli/HunkReview.tsx:88-95 | at any cursor position, the review screen renders a hunk that does not exist exactly on a file that is neither deleted nor has hunks |
| HunkReview.SubtitleIdentifiesFile | src/cli/HunkReview.tsx:72 | different files never share a `file f+1/total` subtitle |
| DiffView.CommentsByLine | src/cli/components/DiffView.tsx:13-18 | the loop builds the specified map from line number to comment |
| DiffView.ByLineKeys | src/cli/components/DiffView.tsx:13-18 | a number is a key iff it is not 0 and some comment carries it |
| DiffView.ByLineLastWins | src/cli/components/DiffView.tsx:13-18 | the stored comment is the last one carrying the number |
| DiffView.StripDisplayMarker | src/cli/components/DiffView.tsx:52 | drops exactly one leading `+`, `-` or whitespace character, if there is one |
| DiffView.Rows | src/cli/components/DiffView.tsx:22 | one row per hunk line, in order |
| DiffView.RowShape | src/cli/components/DiffView.tsx:26-44 | the row's prefix is the line's marker; the number is right-aligned to width 4 (longer ones in full); targeted iff the targeted line is this number |
| DiffView.RowCommentByNumber | src/cli/components/DiffView.tsx:41 | two lines with the same number show the same comment, whatever their kinds |
| DiffView.LineZeroShowsNoComment | src/cli/components/DiffView.tsx:15 | a line numbered 0 shows no comment |
| DiffView.RowAgainstSnippet | src/cli/components/DiffView.tsx:52 | on marked content the row shows marker and text once; the snippet agrees for added/deleted lines and adds a space for context |
| Summary.GroupByFile | src/cli/Summary.tsx:28-33 | the loop builds a map whose keys, in insertion order, are the distinct paths, each holding the file's comments with their global indices |
| Summary.IndexedGroupsSnoc | src/cli/Summary.tsx:28-33 | one iteration of the grouping loop turns the indexed grouping of a prefix into that of the prefix with one more comment, at index equal to the prefix length |
| Summary.IndexedOfSnoc | src/cli/Summary.tsx:29-32 | appending a comment adds it, with its index, to its own file's group only |
| Summary.LocationLabelIdentifiesLocation | src/cli/Summary.tsx:98-102 | equal labels mean the same case (deletion, line, hunk), and within a case the same line number or the same hunk |
| Summary.CountsLineExamples | src/cli/Summary.tsx:85-90 | one comment reads `1 comment across 1 file`, two on one file `2 comments across 1 file` |
| Summary.FileCount | src/cli/Summary.tsx:78 | the file count is the number of distinct paths: at most the comment count, at least 1 when there are comments |
| Summary.ViewEnterAndQuit | src/cli/Summary.tsx:36-47 | in the view, Enter submits and `q` discards, mode and selection unchanged; a key that starts no selection does nothing |
| Summary.SummaryStep | src/cli/Summary.tsx:35-76 | a keypress keeps the selection on a listed comment whenever a selection is in use |
| Summary.SelectStep | src/cli/Summary.tsx:48-63 | the same, for the two select modes |
| Summary.SummaryScreen.constructor | src/cli/Summary.tsx:23-25 | view mode, selection 0, empty edit text |
| Summary.SummaryScreen.HandleKey | src/cli/Summary.tsx:35-76 | mode, selection, edit text and callback are `SummaryStep` of the old state; the selection stays valid |
| Summary.ViewStartsSelection | src/cli/Summary.tsx:39-44 | `e`/`d` start a selection at 0 only when there are comments |
| Summary.SelectionClamped | src/cli/Summary.tsx:51-54 | Up/Down move by one and stop at both ends of the list |
| Summary.EscapeBackToView | src/cli/Summary.tsx:48-66 | Escape returns to the view from any other mode, calling nothing |
| Summary.EditRoundTrip | src/cli/Summary.tsx:55-69 | picking a comment preloads its text; Enter then edits that same index once and returns to the view |
| Summary.DeletePicksSelection | src/cli/Summary.tsx:59-62 | Enter in delete-select deletes the selected index once and returns to the view |
| Summary.CallbacksNameAListedComment | src/cli/Summary.tsx:35-76 | an edit or delete always names a listed comment and returns to the view; submit and discard come only from the view |
| Screens.ReviewStep | src/cli/HunkReview.tsx:54-70 | a review key keeps the cursor in range, ends only in the finish decision on the old list, and changes the comments only on a submission |
| Screens.CtrlKeysRoute | src/cli/HunkReview.tsx:62-70 | Ctrl+N moves the cursor as `NextFile` does (hunk 0 of the next file, if there is one) and Ctrl+P as `PrevFile` does, leaving screen and comments alone; every other key goes to the editor |
| Screens.CtrlKeysOnlyMoveFiles | src/cli/components/CommentInput.tsx:99 | on Ctrl+N/Ctrl+P the editor's buffer, line mode and reaction stay as they were |
| Screens.HandleReviewKey | src/cli/App.tsx:229-243 | the session after a review key is `ReviewStep`, and the editor's state is `KeyStep` |
| Screens.FirstCommentOnLastHunkEndsWithoutFeedback | src/cli/App.tsx:77-84 | a first comment on the last hunk is stored, yet the review ends on the no-feedback screen |
| Screens.LaterCommentOnLastHunkReachesSummary | src/cli/App.tsx:165-171 | with an earlier comment, the same key ends on the summary with the new comment last |
| Screens.LineCommentStaysOnHunk | src/cli/App.tsx:110 | `:N`, optional whitespace, then text, with N not 0, upserts a line comment and keeps cursor and screen |
| Screens.LineSubmitStep | src/cli/HunkReview.tsx:54-57 | whenever the editor submits a text for a line other than 0, the review upserts that line comment and keeps cursor and screen |
| Screens.LineModeZeroIsHunkComment | src/cli/HunkReview.tsx:54-60 | line mode 0 is falsy: the text becomes a hunk comment and the review advances |
| Screens.WalkReachesHunklessFile | src/cli/App.tsx:113-124 | advancing from the start reaches hunk 0 of every file that is neither deleted nor has hunks, where the render throws |
| Screens.HandleOverviewKey | src/cli/App.tsx:219-227 | Enter starts at (0,0), `q` exits writing nothing, a digit opens that file at hunk 0, anything else changes nothing |
| Screens.HandleSummaryKey | src/cli/App.tsx:246-255 | each summary callback reaches its handler; the selection stays valid for the changed list |

## Left out

- Running git and the unified-diff parser. `Diff.ToFileDiffs` receives the diff text and the parser's records as values.
- The output file. `writeFeedback` creates a directory and writes a file; here this is the `written` sequence of `Session.App`. The process exit is the `exited` flag.
- The async load and its error screen. `Session.App.Load` receives the loaded files.
- Terminal rendering: colours, borders, the header component, the prompt text, and the edit cursor glyph.
- The any-key exit screens for "no changes" and "no feedback", and the command-line entry point.
- React's scheduling. Every handler reads the state of the last render, and one keypress reaching two input hooks is sequenced in `Screens.HandleReviewKey`.
- Session.App.AddHunkComment: requires the cursor to stand on a hunk. The source reads `file.hunks[hunkIndex]` and crashes on a file without hunks, and the model does not model the crash.
- Session.App.AddLineComment: requires the cursor to stand on a hunk, for the same reason.
- Screens.HandleReviewKey: requires that a Ctrl+N or Ctrl+P key carries no other key flag, as the terminal reports such keys.
- Screens.HandleReviewKey: the review screen throws while rendering a file that is neither deleted nor has hunks (a binary or mode-only change, a new empty file), since it renders the diff of a hunk that does not exist. The model does not stop there and goes on handling keys. `HunkReview.RenderThrows` marks those positions, `Screens.RenderThrowsExactlyOnHunklessFiles` characterises them, and `Screens.WalkReachesHunklessFile` shows that advancing reaches them.
- Screens.HandleSummaryKey: requires the summary's selection to be valid for the list. This holds from the screen's start and is preserved by every key, but nothing in the source re-checks it when the list changes.
- The editor's `existingComment` prefill. React only reads the initial state on mount, and the editor is mounted once, when the review starts with no comments. The model gives the prefill to `LineInput`'s constructor only.
- The editor's `overrideLineMode` parameter, which no caller passes.
- `skipToNextFile`. It is modelled as `Session.App.SkipToNextFile`, but no screen is wired to it.
- The unused `ReviewState` type and the unused `addedLines` list.
- JavaScript numbers. Integers are unbounded, so `parseInt` of a very long digit run is exact instead of rounded.
- JavaScript strings. A string is a sequence of characters, with no UTF-16 surrogate pairs, so `slice` and comparisons act on whole characters.
- The regular expressions `^:(\d+)`, `^:(\d+)\s*(.*)`, `^[+-]` and `^[+-\s]`. Each is written as a character scanner, with `\s` as the ECMAScript whitespace set and `.` stopping at the line terminators.
