/**
 * Keypresses wired to the session (src/cli/App.tsx renders each screen with
 * its handlers): the overview's keys, the summary's callbacks, and, in most
 * detail, one keypress on the review screen end to end: the screen's own Ctrl keys
 * (src/cli/HunkReview.tsx), the comment editor's reaction
 * (src/cli/components/CommentInput.tsx), the submission dispatch, and the
 * session handler each callback is wired to (src/cli/App.tsx).
 *
 * Both input hooks see the same key, and every handler reads the state of
 * the last render. `ReviewStep` states the result on the session's state;
 * `HandleReviewKey` performs it on the session and the editor.
 */
module Screens {
  import opened Util
  import opened Types
  import opened Keys
  import opened Navigation
  import opened CommentStore
  import opened Session
  import opened CommentInput
  import opened HunkReview
  import Overview
  import SummaryKeys = Summary

  /** The part of the session a review keypress can change. */
  datatype AppState = AppState(pos: Pos, screen: Screen, comments: seq<Comment>)

  /** Whether the editor's reaction to the key submits a comment. */
  predicate Submits(input: string, lineMode: Option<nat>, ev: KeyEvent)
  {
    CtrlKey(ev) == NoMove && KeyStep(input, lineMode, ev).reaction.callback.OnSubmit?
  }

  /** A Ctrl+N or Ctrl+P as the terminal reports it: no other key comes with it. */
  predicate PlainCtrl(ev: KeyEvent)
  {
    !ev.enter && !ev.escape && !ev.upArrow && !ev.downArrow && !ev.backspace && !ev.delete
  }

  /** The comment the screen builds for a submission on the hunk under the cursor. */
  function Made(files: seq<FileDiff>, p: Pos, text: string, lineNumber: Option<int>): Comment
    requires AtHunk(files, p)
  {
    NewComment(files[p.file], p.hunk, files[p.file].hunks[p.hunk], text, lineNumber)
  }

  /**
   * The session after one key on the review screen: the file moves of the
   * Ctrl keys, otherwise what the editor asks for; line comments stay on the
   * hunk, hunk comments and skips advance, deciding the end of the review on
   * the comment list as it was before the key.
   */
  function ReviewStep(files: seq<FileDiff>, p: Pos, comments: seq<Comment>, input: string, lineMode: Option<nat>, ev: KeyEvent): (s: AppState)
    requires 0 <= p.file < |files|
    requires Submits(input, lineMode, ev) ==> AtHunk(files, p)
    ensures InRange(files, p) ==> InRange(files, s.pos)
    ensures s.screen == Review || s.screen == FinishScreen(comments)
    ensures s.comments != comments ==> Submits(input, lineMode, ev)
    ensures s.comments != comments ==> |s.comments| >= 1
  {
    match CtrlKey(ev)
    case ToNextFile => AppState(NextFile(files, p), Review, comments)
    case ToPrevFile => AppState(PrevFile(files, p), Review, comments)
    case NoMove =>
      match KeyStep(input, lineMode, ev).reaction.callback
      case NoCallback => AppState(p, Review, comments)
      case OnEscape => AppState(p, FinishScreen(comments), comments)
      case OnBack => AppState(Retreat(files, p), Review, comments)
      case OnSkip =>
        var v := AfterAdvance(files, p, comments, Review);
        AppState(v.pos, v.screen, comments)
      case OnSubmit(text, line) =>
        match Dispatch(text, line)
        case ToLineComment(t, n) =>
          AppState(p, Review, UpsertLineComment(comments, Made(files, p, t, Some(n)), n))
        case ToHunkComment(t) =>
          var v := AfterAdvance(files, p, comments, Review);
          AppState(v.pos, v.screen, UpsertHunkComment(comments, Made(files, p, t, None)))
  }

  /** On a plain Ctrl key the editor does nothing, so the file move is the whole effect. */
  lemma CtrlKeysOnlyMoveFiles(input: string, lineMode: Option<nat>, ev: KeyEvent)
    requires CtrlKey(ev) != NoMove && PlainCtrl(ev)
    ensures KeyStep(input, lineMode, ev) == Outcome(input, lineMode, Quiet)
  {
    CtrlKeysIgnored(input, lineMode, ev);
  }

  /**
   * The screen's own keys: Ctrl+N moves to the next file and Ctrl+P to the
   * previous one, changing nothing else; every other key is left to the editor.
   */
  lemma CtrlKeysRoute(files: seq<FileDiff>, p: Pos, comments: seq<Comment>, input: string, lineMode: Option<nat>, ev: KeyEvent)
    requires 0 <= p.file < |files|
    ensures ev.ctrl && ev.input == "n" ==>
      ReviewStep(files, p, comments, input, lineMode, ev) == AppState(NextFile(files, p), Review, comments)
    ensures ev.ctrl && ev.input == "p" ==>
      ReviewStep(files, p, comments, input, lineMode, ev) == AppState(PrevFile(files, p), Review, comments)
    ensures !(ev.ctrl && (ev.input == "n" || ev.input == "p")) ==> CtrlKey(ev) == NoMove
  {
  }

  method HandleReviewKey(app: App, editor: LineInput, ev: KeyEvent) returns (target: TargetChange)
    requires app.Valid() && !app.exited && app.screen == Review
    requires Submits(editor.input, editor.lineMode, ev) ==> AtHunk(app.files, app.Cursor())
    requires CtrlKey(ev) != NoMove ==> PlainCtrl(ev)
    modifies app, editor
    ensures app.Valid()
    ensures AppState(app.Cursor(), app.screen, app.comments)
         == ReviewStep(old(app.files), old(app.Cursor()), old(app.comments), old(editor.input), old(editor.lineMode), ev)
    ensures Outcome(editor.input, editor.lineMode, Reaction(KeyStep(old(editor.input), old(editor.lineMode), ev).reaction.callback, target))
         == KeyStep(old(editor.input), old(editor.lineMode), ev)
    ensures app.files == old(app.files) && app.written == old(app.written) && app.exited == old(app.exited)
  {
    var move := CtrlKey(ev);
    if move != NoMove {
      CtrlKeysOnlyMoveFiles(editor.input, editor.lineMode, ev);
    }
    var r := editor.HandleKey(ev);
    target := r.target;
    if move == ToNextFile {
      app.JumpToNextFile();
    } else if move == ToPrevFile {
      app.JumpToPrevFile();
    } else {
      match r.callback
      case NoCallback =>
      case OnEscape => app.FinishReview();
      case OnBack => app.GoToPrevHunk();
      case OnSkip => app.AdvanceToNextHunk();
      case OnSubmit(text, line) =>
        var submission := Dispatch(text, line);
        match submission
        case ToLineComment(t, n) => app.AddLineComment(t, n);
        case ToHunkComment(t) => app.AddHunkComment(t);
    }
  }

  /**
   * The end-of-review decision reads the list from before the key: a first
   * comment submitted on the last hunk is stored, yet the review ends on the
   * no-feedback screen.
   */
  lemma FirstCommentOnLastHunkEndsWithoutFeedback(files: seq<FileDiff>, p: Pos, input: string, ev: KeyEvent)
    requires AtHunk(files, p) && p.file == |files| - 1 && p.hunk == |files[p.file].hunks| - 1
    requires PlainEnter(ev) && !ev.ctrl && input != "" && input[0] != ':'
    ensures var s := ReviewStep(files, p, [], input, None, ev);
      s.screen == NoFeedback && s.comments == [Made(files, p, input, None)]
  {
    EnterSubmitsHunkComment(input, ev);
  }

  /** With a comment already stored, the same key ends the review on the summary. */
  lemma LaterCommentOnLastHunkReachesSummary(files: seq<FileDiff>, p: Pos, comments: seq<Comment>, input: string, ev: KeyEvent)
    requires AtHunk(files, p) && p.file == |files| - 1 && p.hunk == |files[p.file].hunks| - 1
    requires PlainEnter(ev) && !ev.ctrl && input != "" && input[0] != ':' && |comments| > 0
    ensures var s := ReviewStep(files, p, comments, input, None, ev);
      s.screen == Summary && |s.comments| >= 1 && s.comments[|s.comments| - 1] == Made(files, p, input, None)
  {
    EnterSubmitsHunkComment(input, ev);
  }

  /**
   * A line comment typed as `:N`, optional whitespace and a text keeps the
   * cursor on its hunk and the session on the review screen.
   */
  lemma LineCommentStaysOnHunk(files: seq<FileDiff>, p: Pos, comments: seq<Comment>, n: nat, ws: string, text: string, lineMode: Option<nat>, ev: KeyEvent)
    requires AtHunk(files, p) && n != 0
    requires PlainEnter(ev) && !ev.ctrl && Blank(ws)
    requires text != "" && !IsWhitespace(text[0])
    requires |ws| == 0 ==> !IsDigit(text[0])
    requires forall k :: 0 <= k < |text| ==> !IsLineTerminator(text[k])
    ensures var s := ReviewStep(files, p, comments, ":" + NatToString(n) + ws + text, lineMode, ev);
      && s.pos == p && s.screen == Review
      && s.comments == UpsertLineComment(comments, Made(files, p, text, Some(n)), n)
  {
    var input := ":" + NatToString(n) + ws + text;
    EnterSubmitsLineComment(n, ws, text, lineMode, ev);
    LineSubmitStep(files, p, comments, input, lineMode, ev, text, n);
  }

  /** Whatever the buffer, a line submission on a plain key upserts the line comment and stays put. */
  lemma LineSubmitStep(files: seq<FileDiff>, p: Pos, comments: seq<Comment>, input: string, lineMode: Option<nat>, ev: KeyEvent, text: string, n: nat)
    requires AtHunk(files, p) && n != 0 && !ev.ctrl
    requires KeyStep(input, lineMode, ev).reaction.callback == OnSubmit(text, Some(n))
    ensures var s := ReviewStep(files, p, comments, input, lineMode, ev);
      && s.pos == p && s.screen == Review
      && s.comments == UpsertLineComment(comments, Made(files, p, text, Some(n)), n)
  {
    assert CtrlKey(ev) == NoMove;
    assert Dispatch(text, Some(n)) == ToLineComment(text, n);
  }

  /** A line mode of 0 is falsy: the submission becomes a hunk-level comment and the review advances. */
  lemma LineModeZeroIsHunkComment(files: seq<FileDiff>, p: Pos, comments: seq<Comment>, input: string, ev: KeyEvent)
    requires AtHunk(files, p)
    requires PlainEnter(ev) && !ev.ctrl && input != "" && input[0] != ':'
    ensures var s := ReviewStep(files, p, comments, input, Some(0), ev);
      && s.comments == UpsertHunkComment(comments, Made(files, p, input, None))
      && AppStateView(s) == AfterAdvance(files, p, comments, Review)
  {
    EnterInLineMode(input, 0, ev);
    assert CtrlKey(ev) == NoMove;
    assert KeyStep(input, Some(0), ev).reaction.callback == OnSubmit(input, Some(0));
    assert Dispatch(input, Some(0)) == ToHunkComment(input);
  }

  /**
   * Among the cursor's positions, the review screen's render throws exactly on
   * a file that is neither deleted nor has a hunk.
   */
  lemma RenderThrowsExactlyOnHunklessFiles(files: seq<FileDiff>, p: Pos)
    requires InRange(files, p)
    ensures RenderThrows(files[p.file], p.hunk) <==> !files[p.file].isDeleted && |files[p.file].hunks| == 0
  {
  }

  /**
   * Advancing from the start reaches every such file: the review of a diff
   * holding a binary change or a new empty file throws once it gets there.
   */
  lemma WalkReachesHunklessFile(files: seq<FileDiff>, f: nat)
    requires f < |files| && !files[f].isDeleted && |files[f].hunks| == 0
    ensures Walk(files, Stops(files, f)) == Goto(Pos(f, 0))
    ensures RenderThrows(files[f], 0)
  {
    WalkInFile(files, f, 0);
  }

  function AppStateView(s: AppState): View
  {
    View(s.pos, s.screen)
  }

  /** The overview's keys: Enter starts the review, `q` quits, a digit key opens that file. */
  method HandleOverviewKey(app: App, ev: KeyEvent)
    requires app.Valid() && !app.exited && app.screen == Session.Overview
    modifies app
    ensures app.Valid()
    ensures match Overview.OverviewKey(ev, |old(app.files)|)
      case Start => app.screen == Review && app.Cursor() == Pos(0, 0) && !app.exited
      case Quit => app.exited && app.written == [] && app.screen == Session.Overview
      case JumpTo(i) => app.screen == Review && app.Cursor() == Pos(i, 0) && !app.exited
      case Ignore => app.screen == Session.Overview && app.Cursor() == old(app.Cursor()) && !app.exited
    ensures app.files == old(app.files) && app.comments == old(app.comments) && app.written == old(app.written)
  {
    match Overview.OverviewKey(ev, |app.files|)
    case Start => app.Start();
    case Quit => app.QuitFromOverview();
    case JumpTo(i) => app.JumpToFile(i);
    case Ignore =>
  }

  /**
   * The summary's keys: submit or discard write the output and exit; an edit
   * or deletion changes the list, and the selection stays valid for the new
   * list.
   */
  method HandleSummaryKey(app: App, summary: SummaryKeys.SummaryScreen, ev: KeyEvent)
    requires app.Valid() && !app.exited && app.screen == Summary
    requires SummaryKeys.SelectionValid(summary.mode, summary.selectedIndex, |app.comments|)
    modifies app, summary
    ensures app.Valid()
    ensures var o := SummaryKeys.SummaryStep(old(summary.mode), old(summary.selectedIndex), old(summary.editInput), ev, old(app.comments));
      && summary.mode == o.mode && summary.selectedIndex == o.selectedIndex && summary.editInput == o.editInput
      && match o.callback
         case NoCallback => app.comments == old(app.comments) && app.screen == Summary && !app.exited
         case OnSubmit => app.exited && app.written == [Formatter.Feedback(old(app.comments))]
         case OnDiscard => app.exited && app.written == [Formatter.FormatAborted()]
         case OnEdit(i, t) => app.comments == EditAt(old(app.comments), i, t) && app.screen == Summary && !app.exited
         case OnDelete(i) =>
           && app.comments == RemoveAt(old(app.comments), i) && !app.exited
           && app.screen == (if |old(app.comments)| <= 1 then NoFeedback else Summary)
    ensures app.screen == Summary && !app.exited ==> SummaryKeys.SelectionValid(summary.mode, summary.selectedIndex, |app.comments|)
    ensures app.files == old(app.files) && app.Cursor() == old(app.Cursor())
  {
    SummaryKeys.CallbacksNameAListedComment(summary.mode, summary.selectedIndex, summary.editInput, ev, app.comments);
    var cb := summary.HandleKey(ev, app.comments);
    match cb
    case NoCallback =>
    case OnSubmit => app.HandleSubmitFeedback();
    case OnDiscard => app.HandleDiscard();
    case OnEdit(i, t) => app.HandleEditComment(i, t);
    case OnDelete(i) => app.HandleDeleteComment(i);
  }
}
