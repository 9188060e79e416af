/**
 * The session's comment list and its updates (src/cli/App.tsx,
 * addHunkComment to handleDeleteComment): a resubmitted comment replaces
 * the one in its slot and moves to the end; edits and deletions go by
 * position in the list.
 */
module CommentStore {
  import opened Util
  import opened Types
  import opened Diff
  import opened Grouping
  import Formatter

  /** The comment a submission creates for hunk `hunkIndex` of `file`. */
  function NewComment(file: FileDiff, hunkIndex: int, hunk: Hunk, text: string, lineNumber: Option<int>): (c: Comment)
    ensures c.isDeletedFile ==> c.diffSnippet == ""
    ensures hunk.startLine <= hunk.endLine ==> c.startLine <= c.endLine
  {
    Comment(file.path, hunkIndex, lineNumber, text,
            if file.isDeleted then "" else GenerateDiffSnippet(hunk),
            hunk.startLine, hunk.endLine, file.isDeleted)
  }

  /** A comment on a deleted file is rendered with the deletion label and without a diff fence. */
  lemma DeletedFileCommentBlock(file: FileDiff, hunkIndex: int, hunk: Hunk, text: string, lineNumber: Option<int>)
    requires file.isDeleted
    ensures var c := NewComment(file, hunkIndex, hunk, text, lineNumber);
      Formatter.CommentBlock(c) == [Formatter.DeletionLabel, text, ""]
  {
  }

  /** The slot of a hunk-level comment: same file, same hunk, no (truthy) line number. */
  predicate IsHunkKey(x: Comment, path: string, hunkIndex: int)
  {
    x.filePath == path && x.hunkIndex == hunkIndex && !HasLine(x)
  }

  /** The slot of a line comment: same file, same hunk, the same line number. */
  predicate IsLineKey(x: Comment, path: string, hunkIndex: int, lineNumber: int)
  {
    x.filePath == path && x.hunkIndex == hunkIndex && x.lineNumber == Some(lineNumber)
  }

  function NotHunkKey(path: string, hunkIndex: int): Comment -> bool
  {
    (x: Comment) => !IsHunkKey(x, path, hunkIndex)
  }

  function NotLineKey(path: string, hunkIndex: int, lineNumber: int): Comment -> bool
  {
    (x: Comment) => !IsLineKey(x, path, hunkIndex, lineNumber)
  }

  /** The list after a hunk-level submission: the slot's old comments dropped, `c` appended. */
  function UpsertHunkComment(cs: seq<Comment>, c: Comment): (r: seq<Comment>)
    ensures |r| >= 1 && r[|r| - 1] == c
    ensures forall k :: 0 <= k < |r| - 1 ==> r[k] in cs && !IsHunkKey(r[k], c.filePath, c.hunkIndex)
    ensures forall x :: x in cs && !IsHunkKey(x, c.filePath, c.hunkIndex) ==> x in r
  {
    FilterKeeps(cs, NotHunkKey(c.filePath, c.hunkIndex));
    Filter(cs, NotHunkKey(c.filePath, c.hunkIndex)) + [c]
  }

  /** The list after a line submission on line `n`: the slot's old comments dropped, `c` appended. */
  function UpsertLineComment(cs: seq<Comment>, c: Comment, n: int): (r: seq<Comment>)
    ensures |r| >= 1 && r[|r| - 1] == c
    ensures forall k :: 0 <= k < |r| - 1 ==> r[k] in cs && !IsLineKey(r[k], c.filePath, c.hunkIndex, n)
    ensures forall x :: x in cs && !IsLineKey(x, c.filePath, c.hunkIndex, n) ==> x in r
  {
    FilterKeeps(cs, NotLineKey(c.filePath, c.hunkIndex, n));
    Filter(cs, NotLineKey(c.filePath, c.hunkIndex, n)) + [c]
  }

  /**
   * After a hunk-level submission its slot holds exactly one comment, the new
   * last one, and the comments outside the slot are the same ones in the same
   * order as before.
   */
  lemma UpsertHunkCommentSlot(cs: seq<Comment>, c: Comment)
    requires !HasLine(c)
    ensures var r := UpsertHunkComment(cs, c);
      && (forall k :: 0 <= k < |r| ==> (IsHunkKey(r[k], c.filePath, c.hunkIndex) <==> k == |r| - 1))
      && Filter(r, NotHunkKey(c.filePath, c.hunkIndex)) == Filter(cs, NotHunkKey(c.filePath, c.hunkIndex))
  {
    var p := NotHunkKey(c.filePath, c.hunkIndex);
    var kept := Filter(cs, p);
    FilterAppend(kept, [c], p);
    FilterAll(kept, p);
    assert Filter([c], p) == [] by {
      assert [c][..0] == [];
    }
  }

  /** The same for a line submission, whose slot is its line. */
  lemma UpsertLineCommentSlot(cs: seq<Comment>, c: Comment, n: int)
    requires c.lineNumber == Some(n)
    ensures var r := UpsertLineComment(cs, c, n);
      && (forall k :: 0 <= k < |r| ==> (IsLineKey(r[k], c.filePath, c.hunkIndex, n) <==> k == |r| - 1))
      && Filter(r, NotLineKey(c.filePath, c.hunkIndex, n)) == Filter(cs, NotLineKey(c.filePath, c.hunkIndex, n))
  {
    var p := NotLineKey(c.filePath, c.hunkIndex, n);
    var kept := Filter(cs, p);
    FilterAppend(kept, [c], p);
    FilterAll(kept, p);
    assert Filter([c], p) == [] by {
      assert [c][..0] == [];
    }
  }

  /** A line submission on a truthy line never removes the hunk-level comment of its hunk. */
  lemma LineCommentKeepsHunkComment(cs: seq<Comment>, c: Comment, n: int, x: Comment)
    requires n != 0 && x in cs && IsHunkKey(x, c.filePath, c.hunkIndex)
    ensures x in UpsertLineComment(cs, c, n)
  {
  }

  /** handleEditComment: only the text at `i` changes; an index outside the list changes nothing. */
  function EditAt(cs: seq<Comment>, i: int, t: string): (r: seq<Comment>)
    ensures |r| == |cs|
    ensures forall k :: 0 <= k < |r| && k != i ==> r[k] == cs[k]
    ensures 0 <= i < |cs| ==> r[i] == cs[i].(text := t)
  {
    seq(|cs|, k requires 0 <= k < |cs| => if k == i then cs[k].(text := t) else cs[k])
  }

  /** handleDeleteComment: the comment at `i` removed; an index outside the list changes nothing. */
  function RemoveAt(cs: seq<Comment>, i: int): (r: seq<Comment>)
    ensures 0 <= i < |cs| ==> |r| == |cs| - 1 && multiset(r) + multiset{cs[i]} == multiset(cs)
    ensures !(0 <= i < |cs|) ==> r == cs
    ensures forall k :: 0 <= k < |r| ==> r[k] == if 0 <= i <= k then cs[k + 1] else cs[k]
  {
    if 0 <= i < |cs| then
      assert cs == cs[..i] + [cs[i]] + cs[i + 1..];
      cs[..i] + cs[i + 1..]
    else cs
  }

  /** Editing a text leaves the files and their order alone, and the comments of each file in place. */
  lemma {:induction false} EditKeepsGrouping(cs: seq<Comment>, i: int, t: string)
    ensures Paths(EditAt(cs, i, t)) == Paths(cs)
    ensures forall p :: |CommentsOf(EditAt(cs, i, t), p)| == |CommentsOf(cs, p)|
  {
    if |cs| > 0 {
      var n := |cs| - 1;
      var e := EditAt(cs, i, t);
      assert e[..n] == EditAt(cs[..n], i, t);
      EditKeepsGrouping(cs[..n], i, t);
      forall p ensures |CommentsOf(e, p)| == |CommentsOf(cs, p)| {
        assert e == e[..n] + [e[n]];
        assert cs == cs[..n] + [cs[n]];
        CommentsOfSnoc(e[..n], e[n], p);
        CommentsOfSnoc(cs[..n], cs[n], p);
      }
    }
  }
}
