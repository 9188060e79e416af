/**
 * The session controller (src/cli/App.tsx): the React state of the app as the
 * fields of a class, and its handlers as methods that update them.
 *
 * Handlers read the state as it was when the screen was last drawn. One
 * handler calling another therefore sees the values from before its own
 * updates; `AddHunkComment` passes the comment list it started from to the
 * end-of-review decision, as the source does.
 */
module Session {
  import opened Util
  import opened Types
  import opened Navigation
  import opened CommentStore
  import opened Formatter

  datatype Screen = Loading | NoChanges | Overview | Review | Summary | NoFeedback

  /** The screen after loading: nothing to review, or the overview. */
  function LoadScreen(result: seq<FileDiff>): (s: Screen)
    ensures s == NoChanges || s == Overview
  {
    if |result| == 0 then NoChanges else Overview
  }

  /** finishReview: the summary when the list it reads holds a comment, otherwise the no-feedback screen. */
  function FinishScreen(seen: seq<Comment>): (s: Screen)
    ensures s == Summary || s == NoFeedback
  {
    if |seen| == 0 then NoFeedback else Summary
  }

  /** Cursor and screen together. */
  datatype View = View(pos: Pos, screen: Screen)

  /** advanceToNextHunk, reading `seen` as the comment list: move on, or finish on the last hunk. */
  function AfterAdvance(files: seq<FileDiff>, p: Pos, seen: seq<Comment>, screen: Screen): (v: View)
    requires 0 <= p.file < |files|
    ensures InRange(files, p) ==> InRange(files, v.pos)
    ensures v.screen == screen || v.screen == FinishScreen(seen)
  {
    match Advance(files, p)
    case Goto(q) => View(q, screen)
    case Finish => View(p, FinishScreen(seen))
  }

  /** skipToNextFile: hunk 0 of the next file, or finish on the last file. */
  function AfterSkip(files: seq<FileDiff>, p: Pos, seen: seq<Comment>, screen: Screen): (v: View)
    requires 0 <= p.file < |files|
    ensures InRange(files, p) ==> InRange(files, v.pos)
  {
    match SkipFile(files, p)
    case Goto(q) => View(q, screen)
    case Finish => View(p, FinishScreen(seen))
  }

  class App {
    var screen: Screen
    var files: seq<FileDiff>
    var fileIndex: int
    var hunkIndex: int
    var comments: seq<Comment>
    /** Everything written to the output file, in order. */
    var written: seq<string>
    /** Whether the process has exited. */
    var exited: bool

    /**
     * Nothing is loaded before the load decision; afterwards the cursor is in
     * range; the overview is only shown before the review starts; the summary
     * is only shown with a comment to show; at most one string is ever
     * written, and only on the way out.
     */
    ghost predicate Valid()
      reads this
    {
      && (screen == Loading || screen == NoChanges ==>
            files == [] && comments == [] && fileIndex == 0 && hunkIndex == 0)
      && (screen != Loading && screen != NoChanges ==> InRange(files, Pos(fileIndex, hunkIndex)))
      && (screen == Overview ==> comments == [] && fileIndex == 0 && hunkIndex == 0)
      && (screen == Summary ==> |comments| > 0)
      && |written| <= 1
      && (|written| == 1 ==> exited)
    }

    function Cursor(): Pos
      reads this
    {
      Pos(fileIndex, hunkIndex)
    }

    constructor ()
      ensures Valid() && !exited
      ensures screen == Loading && files == [] && comments == [] && written == []
      ensures fileIndex == 0 && hunkIndex == 0
    {
      screen := Loading;
      files := [];
      fileIndex := 0;
      hunkIndex := 0;
      comments := [];
      written := [];
      exited := false;
    }

    /** The load decision on the files the diff produced. */
    method Load(result: seq<FileDiff>)
      requires Valid() && !exited && screen == Loading
      modifies this
      ensures Valid()
      ensures screen == LoadScreen(result) && files == result
      ensures fileIndex == old(fileIndex) && hunkIndex == old(hunkIndex)
      ensures comments == old(comments) && written == old(written) && exited == old(exited)
    {
      if |result| == 0 {
        screen := NoChanges;
      } else {
        files := result;
        screen := Overview;
      }
    }

    /** getCurrentHunk: the hunk under the cursor, when there is one. */
    function CurrentHunk(): (h: Option<Hunk>)
      reads this
      requires 0 <= fileIndex
      ensures h.Some? <==> AtHunk(files, Cursor())
      ensures h.Some? ==> h.value == files[fileIndex].hunks[hunkIndex]
    {
      if fileIndex >= |files| then None
      else if hunkIndex >= |files[fileIndex].hunks| then None
      else if hunkIndex < 0 then None  // an index of -1 reads `undefined`
      else Some(files[fileIndex].hunks[hunkIndex])
    }

    /** The overview's Enter: the review starts at the cursor, which is still at the first hunk. */
    method Start()
      requires Valid() && !exited && screen == Overview
      modifies this
      ensures Valid()
      ensures screen == Review && Cursor() == Pos(0, 0)
      ensures files == old(files) && comments == old(comments) && written == old(written) && exited == old(exited)
    {
      screen := Review;
    }

    /** jumpToFile, from the overview's digit keys. */
    method JumpToFile(index: int)
      requires Valid() && !exited && screen == Overview && 0 <= index < |files|
      modifies this
      ensures Valid()
      ensures screen == Review && Cursor() == Pos(index, 0)
      ensures files == old(files) && comments == old(comments) && written == old(written) && exited == old(exited)
    {
      fileIndex := index;
      hunkIndex := 0;
      screen := Review;
    }

    /** The overview's `q`: exit without writing anything. */
    method QuitFromOverview()
      requires Valid() && !exited && screen == Overview
      modifies this
      ensures Valid() && exited && written == []
      ensures screen == old(screen) && Cursor() == old(Cursor()) && files == old(files) && comments == old(comments)
    {
      exited := true;
    }

    /** advanceToNextHunk reading `seen` as the comment list. */
    method AdvanceWith(seen: seq<Comment>)
      requires Valid() && !exited && screen == Review && (|seen| > 0 ==> |comments| > 0)
      modifies this
      ensures Valid()
      ensures View(Cursor(), screen) == AfterAdvance(old(files), old(Cursor()), seen, old(screen))
      ensures files == old(files) && comments == old(comments) && written == old(written) && exited == old(exited)
    {
      var file := files[fileIndex];
      if hunkIndex + 1 < |file.hunks| {
        hunkIndex := hunkIndex + 1;
      } else if fileIndex + 1 < |files| {
        fileIndex := fileIndex + 1;
        hunkIndex := 0;
      } else {
        FinishWith(seen);
      }
    }

    /** finishReview reading `seen` as the comment list. */
    method FinishWith(seen: seq<Comment>)
      requires Valid() && !exited && screen == Review && (|seen| > 0 ==> |comments| > 0)
      modifies this
      ensures Valid()
      ensures screen == FinishScreen(seen)
      ensures Cursor() == old(Cursor()) && files == old(files) && comments == old(comments)
      ensures written == old(written) && exited == old(exited)
    {
      if |seen| == 0 {
        screen := NoFeedback;
      } else {
        screen := Summary;
      }
    }

    method AdvanceToNextHunk()
      requires Valid() && !exited && screen == Review
      modifies this
      ensures Valid()
      ensures View(Cursor(), screen) == AfterAdvance(old(files), old(Cursor()), comments, old(screen))
      ensures files == old(files) && comments == old(comments) && written == old(written) && exited == old(exited)
    {
      AdvanceWith(comments);
    }

    method FinishReview()
      requires Valid() && !exited && screen == Review
      modifies this
      ensures Valid()
      ensures screen == FinishScreen(comments)
      ensures Cursor() == old(Cursor()) && files == old(files) && comments == old(comments)
      ensures written == old(written) && exited == old(exited)
    {
      FinishWith(comments);
    }

    /**
     * addHunkComment: the comment replaces the hunk's hunk-level comment,
     * then the review advances, deciding its end on the list as it was.
     */
    method AddHunkComment(text: string)
      requires Valid() && !exited && screen == Review && AtHunk(files, Cursor())
      modifies this
      ensures Valid()
      ensures comments == UpsertHunkComment(old(comments),
        NewComment(old(files)[old(fileIndex)], old(hunkIndex), old(files)[old(fileIndex)].hunks[old(hunkIndex)], text, None))
      ensures View(Cursor(), screen) == AfterAdvance(old(files), old(Cursor()), old(comments), old(screen))
      ensures files == old(files) && written == old(written) && exited == old(exited)
    {
      var file := files[fileIndex];
      var hunk := file.hunks[hunkIndex];
      var comment := NewComment(file, hunkIndex, hunk, text, None);
      var seen := comments;
      comments := UpsertHunkComment(comments, comment);
      AdvanceWith(seen);
    }

    /** addLineComment: the comment replaces the one on its line; the cursor stays. */
    method AddLineComment(text: string, lineNumber: int)
      requires Valid() && !exited && screen == Review && AtHunk(files, Cursor())
      modifies this
      ensures Valid()
      ensures comments == UpsertLineComment(old(comments),
        NewComment(old(files)[old(fileIndex)], old(hunkIndex), old(files)[old(fileIndex)].hunks[old(hunkIndex)], text, Some(lineNumber)), lineNumber)
      ensures Cursor() == old(Cursor()) && screen == old(screen)
      ensures files == old(files) && written == old(written) && exited == old(exited)
    {
      var file := files[fileIndex];
      var hunk := file.hunks[hunkIndex];
      var comment := NewComment(file, hunkIndex, hunk, text, Some(lineNumber));
      comments := UpsertLineComment(comments, comment, lineNumber);
    }

    /** goToPrevHunk. */
    method GoToPrevHunk()
      requires Valid() && !exited && screen == Review
      modifies this
      ensures Valid()
      ensures Cursor() == Retreat(old(files), old(Cursor()))
      ensures screen == old(screen) && files == old(files) && comments == old(comments)
      ensures written == old(written) && exited == old(exited)
    {
      if hunkIndex > 0 {
        hunkIndex := hunkIndex - 1;
      } else if fileIndex > 0 {
        var prevFile := files[fileIndex - 1];
        fileIndex := fileIndex - 1;
        hunkIndex := |prevFile.hunks| - 1;
      }
    }

    /** skipToNextFile (defined in the source, but no screen calls it). */
    method SkipToNextFile()
      requires Valid() && !exited && screen == Review
      modifies this
      ensures Valid()
      ensures View(Cursor(), screen) == AfterSkip(old(files), old(Cursor()), comments, old(screen))
      ensures files == old(files) && comments == old(comments) && written == old(written) && exited == old(exited)
    {
      if fileIndex + 1 < |files| {
        fileIndex := fileIndex + 1;
        hunkIndex := 0;
      } else {
        FinishWith(comments);
      }
    }

    /** jumpToNextFile (Ctrl+N). */
    method JumpToNextFile()
      requires Valid() && !exited && screen == Review
      modifies this
      ensures Valid()
      ensures Cursor() == NextFile(old(files), old(Cursor()))
      ensures screen == old(screen) && files == old(files) && comments == old(comments)
      ensures written == old(written) && exited == old(exited)
    {
      if fileIndex + 1 < |files| {
        fileIndex := fileIndex + 1;
        hunkIndex := 0;
      }
    }

    /** jumpToPrevFile (Ctrl+P). */
    method JumpToPrevFile()
      requires Valid() && !exited && screen == Review
      modifies this
      ensures Valid()
      ensures Cursor() == PrevFile(old(files), old(Cursor()))
      ensures screen == old(screen) && files == old(files) && comments == old(comments)
      ensures written == old(written) && exited == old(exited)
    {
      if fileIndex > 0 {
        fileIndex := fileIndex - 1;
        hunkIndex := 0;
      }
    }

    /** handleSubmitFeedback: write the feedback document, once, and exit. */
    method HandleSubmitFeedback()
      requires Valid() && !exited && screen == Summary
      modifies this
      ensures Valid() && exited
      ensures written == [Feedback(comments)]
      ensures screen == old(screen) && Cursor() == old(Cursor()) && files == old(files) && comments == old(comments)
    {
      var feedback := FormatFeedback(comments);
      written := written + [feedback];
      exited := true;
    }

    /** handleDiscard: write the abort sentinel, once, and exit. */
    method HandleDiscard()
      requires Valid() && !exited && screen == Summary
      modifies this
      ensures Valid() && exited
      ensures written == [FormatAborted()]
      ensures screen == old(screen) && Cursor() == old(Cursor()) && files == old(files) && comments == old(comments)
    {
      written := written + [FormatAborted()];
      exited := true;
    }

    /** handleEditComment: replace the text at `index`. */
    method HandleEditComment(index: int, newText: string)
      requires Valid() && !exited && screen == Summary
      modifies this
      ensures Valid()
      ensures comments == EditAt(old(comments), index, newText)
      ensures screen == old(screen) && Cursor() == old(Cursor()) && files == old(files)
      ensures written == old(written) && exited == old(exited)
    {
      comments := EditAt(comments, index, newText);
    }

    /**
     * handleDeleteComment: remove the comment at `index`; when the list it
     * read held at most one comment, the review has nothing left to send.
     */
    method HandleDeleteComment(index: int)
      requires Valid() && !exited && screen == Summary
      modifies this
      ensures Valid()
      ensures comments == RemoveAt(old(comments), index)
      ensures screen == if |old(comments)| <= 1 then NoFeedback else old(screen)
      ensures Cursor() == old(Cursor()) && files == old(files)
      ensures written == old(written) && exited == old(exited)
    {
      var seen := comments;
      comments := RemoveAt(comments, index);
      if |seen| <= 1 {
        screen := NoFeedback;
      }
    }
  }
}
