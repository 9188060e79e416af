/**
 * The review screen's own logic (src/cli/HunkReview.tsx): which comments it
 * shows for the current hunk, where a submission goes, the Ctrl keys, and
 * the header strings.
 */
module HunkReview {
  import opened Util
  import opened Types
  import opened Keys
  import opened CommentStore

  /** The position of the first hunk-level comment of the hunk, if any (`comments.find`). */
  function FindHunkComment(cs: seq<Comment>, path: string, hunkIndex: int): (r: Option<nat>)
    ensures r.Some? ==> r.value < |cs| && IsHunkKey(cs[r.value], path, hunkIndex)
    ensures r.Some? ==> forall k :: 0 <= k < r.value ==> !IsHunkKey(cs[k], path, hunkIndex)
    ensures r.None? <==> forall k :: 0 <= k < |cs| ==> !IsHunkKey(cs[k], path, hunkIndex)
  {
    if |cs| == 0 then None
    else if IsHunkKey(cs[0], path, hunkIndex) then Some(0)
    else
      match FindHunkComment(cs[1..], path, hunkIndex)
      case None => None
      case Some(k) => Some(k + 1)
  }

  /** existingHunkComment. */
  function ExistingHunkComment(cs: seq<Comment>, path: string, hunkIndex: int): Option<Comment>
  {
    match FindHunkComment(cs, path, hunkIndex)
    case None => None
    case Some(k) => Some(cs[k])
  }

  /** The text handed to the comment editor: the existing comment's, or "". */
  function ExistingText(cs: seq<Comment>, path: string, hunkIndex: int): string
  {
    match ExistingHunkComment(cs, path, hunkIndex)
    case None => ""
    case Some(c) => c.text
  }

  /** After a hunk-level submission, its text is what the hunk shows as existing. */
  lemma SubmittedHunkCommentIsExisting(cs: seq<Comment>, c: Comment)
    requires !HasLine(c)
    ensures ExistingHunkComment(UpsertHunkComment(cs, c), c.filePath, c.hunkIndex) == Some(c)
  {
    UpsertHunkCommentSlot(cs, c);
  }

  predicate IsLineOf(path: string, hunkIndex: int, x: Comment)
  {
    x.filePath == path && x.hunkIndex == hunkIndex && HasLine(x)
  }

  function LineOf(path: string, hunkIndex: int): Comment -> bool
  {
    (x: Comment) => IsLineOf(path, hunkIndex, x)
  }

  /** lineComments: the hunk's comments with a (truthy) line number, in list order. */
  function LineComments(cs: seq<Comment>, path: string, hunkIndex: int): (r: seq<Comment>)
    ensures forall k :: 0 <= k < |r| ==> r[k] in cs && IsLineOf(path, hunkIndex, r[k])
    ensures forall x :: x in cs && IsLineOf(path, hunkIndex, x) ==> x in r
  {
    FilterKeeps(cs, LineOf(path, hunkIndex));
    Filter(cs, LineOf(path, hunkIndex))
  }

  /** Every comment of a hunk is either its line comments or a hunk-level one. */
  lemma HunkCommentsSplit(cs: seq<Comment>, path: string, hunkIndex: int, x: Comment)
    requires x in cs && x.filePath == path && x.hunkIndex == hunkIndex
    ensures x in LineComments(cs, path, hunkIndex) || IsHunkKey(x, path, hunkIndex)
  {
  }

  /** Where handleSubmit sends a submission. */
  datatype Submission = ToHunkComment(text: string) | ToLineComment(text: string, lineNumber: nat)

  /** handleSubmit: a truthy line number makes a line comment, an absent or zero one a hunk comment. */
  function Dispatch(text: string, lineNumber: Option<nat>): (s: Submission)
    ensures s.text == text
    ensures (if s.ToLineComment? then Some(s.lineNumber) else None) == (if lineNumber == Some(0) then None else lineNumber)
  {
    if lineNumber.Some? && lineNumber.value != 0 then ToLineComment(text, lineNumber.value)
    else ToHunkComment(text)
  }

  datatype FileMove = NoMove | ToNextFile | ToPrevFile

  /** The screen's own keys: Ctrl+N and Ctrl+P; everything else is the editor's. */
  function CtrlKey(ev: KeyEvent): (m: FileMove)
    ensures m != NoMove ==> ev.ctrl && |ev.input| == 1
  {
    if ev.ctrl && ev.input == "n" then ToNextFile
    else if ev.ctrl && ev.input == "p" then ToPrevFile
    else NoMove
  }

  /** The header title: a deleted file by name, otherwise the file and the hunk counter. */
  function Title(file: FileDiff, hunkIndex: int): (t: string)
    ensures |t| > |file.path| && t[..|file.path|] == file.path
  {
    if file.isDeleted then file.path + " (deleted)"
    else file.path + " [hunk " + IntToString(hunkIndex + 1) + "/" + NatToString(|file.hunks|) + "]"
  }

  /** The header subtitle: the file counter. */
  function Subtitle(fileIndex: int, totalFiles: nat): string
  {
    "file " + IntToString(fileIndex + 1) + "/" + NatToString(totalFiles)
  }

  /** A deleted file shows the deletion notice, any other file its diff. */
  predicate ShowsDiff(file: FileDiff)
  {
    !file.isDeleted
  }

  /**
   * The diff view is rendered with `file.hunks[hunkIndex]` whenever the file is
   * not deleted, and maps over that hunk's lines: without such a hunk (a new
   * empty file, a binary or mode-only change) the render throws.
   */
  predicate RenderThrows(file: FileDiff, hunkIndex: int)
  {
    ShowsDiff(file) && !(0 <= hunkIndex < |file.hunks|)
  }

  /** Two hunks of a file that is not deleted never share a title. */
  lemma TitleIdentifiesHunk(file: FileDiff, i: int, j: int)
    requires !file.isDeleted && Title(file, i) == Title(file, j)
    ensures i == j
  {
    var head := file.path + " [hunk ";
    var tail := "/" + NatToString(|file.hunks|) + "]";
    assert IntToString(i + 1) == IntToString(j + 1) by {
      TitleCounter(file, i, head, tail);
      TitleCounter(file, j, head, tail);
    }
    IntToStringInjective(i + 1, j + 1);
  }

  lemma TitleCounter(file: FileDiff, i: int, head: string, tail: string)
    requires !file.isDeleted
    requires head == file.path + " [hunk " && tail == "/" + NatToString(|file.hunks|) + "]"
    ensures var t := Title(file, i);
      |head| + |tail| <= |t| && t[|head|..|t| - |tail|] == IntToString(i + 1)
  {
    var a := IntToString(i + 1);
    AppendAssoc4(head + a, "/", NatToString(|file.hunks|), "]");
    MiddleSlice(head, a, tail);
  }

  /** The title ends in `)` exactly for a deleted file, whose title has no hunk counter. */
  lemma TitleMarksDeletion(file: FileDiff, hunkIndex: int)
    ensures var t := Title(file, hunkIndex);
      |t| > 0 && (t[|t| - 1] == ')' <==> file.isDeleted)
  {
  }

  /** Different files never share a subtitle. */
  lemma SubtitleIdentifiesFile(f: nat, g: nat, n: nat)
    requires Subtitle(f, n) == Subtitle(g, n)
    ensures f == g
  {
    var s := Subtitle(f, n);
    var a, b := IntToString(f + 1), IntToString(g + 1);
    var tail := "/" + NatToString(n);
    assert s == "file " + a + tail;
    assert s == "file " + b + tail;
    assert a == s[5..|s| - |tail|];
    assert b == s[5..|s| - |tail|];
    IntToStringInjective(f + 1, g + 1);
  }
}
