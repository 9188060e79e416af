/**
 * The review cursor `(fileIndex, hunkIndex)` and the moves the session makes
 * with it (src/cli/App.tsx, advanceToNextHunk to jumpToPrevFile), as functions
 * of the file list and the cursor; the session applies them to its fields.
 */
module Navigation {
  import opened Util
  import opened Types
  import opened Overview

  datatype Pos = Pos(file: int, hunk: int)

  /** The result of a forward move: a new cursor, or the end of the review. */
  datatype Step = Goto(to: Pos) | Finish

  /**
   * Where the cursor can stand: on a hunk of an existing file, or, in a file
   * without hunks, at hunk 0 (entered forwards) or -1 (entered backwards).
   */
  predicate InRange(files: seq<FileDiff>, p: Pos)
  {
    && 0 <= p.file < |files|
    && if |files[p.file].hunks| == 0 then p.hunk == 0 || p.hunk == -1
       else 0 <= p.hunk < |files[p.file].hunks|
  }

  /** The cursor is on an actual hunk. */
  predicate AtHunk(files: seq<FileDiff>, p: Pos)
  {
    0 <= p.file < |files| && 0 <= p.hunk < |files[p.file].hunks|
  }

  /** advanceToNextHunk: the next hunk of this file, else hunk 0 of the next file, else finish. */
  function Advance(files: seq<FileDiff>, p: Pos): (s: Step)
    requires 0 <= p.file < |files|
    ensures InRange(files, p) && s.Goto? ==> InRange(files, s.to)
    ensures s.Finish? <==> p.hunk + 1 >= |files[p.file].hunks| && p.file + 1 >= |files|
  {
    if p.hunk + 1 < |files[p.file].hunks| then Goto(Pos(p.file, p.hunk + 1))
    else if p.file + 1 < |files| then Goto(Pos(p.file + 1, 0))
    else Finish
  }

  /**
   * goToPrevHunk: the previous hunk of this file, else the last hunk of the
   * previous file (index -1 when it has none), else stay.
   */
  function Retreat(files: seq<FileDiff>, p: Pos): (r: Pos)
    requires 0 <= p.file < |files|
    ensures InRange(files, p) ==> InRange(files, r)
    ensures p.file == 0 && p.hunk <= 0 ==> r == p
  {
    if p.hunk > 0 then Pos(p.file, p.hunk - 1)
    else if p.file > 0 then Pos(p.file - 1, |files[p.file - 1].hunks| - 1)
    else p
  }

  /** skipToNextFile: hunk 0 of the next file, else finish. */
  function SkipFile(files: seq<FileDiff>, p: Pos): (s: Step)
    requires 0 <= p.file < |files|
    ensures s.Goto? ==> InRange(files, s.to) && s.to == Pos(p.file + 1, 0)
    ensures s.Finish? <==> p.file + 1 >= |files|
  {
    if p.file + 1 < |files| then Goto(Pos(p.file + 1, 0)) else Finish
  }

  /** jumpToNextFile: hunk 0 of the next file, else stay. */
  function NextFile(files: seq<FileDiff>, p: Pos): (r: Pos)
    requires 0 <= p.file < |files|
    ensures InRange(files, p) ==> InRange(files, r)
    ensures r == if p.file + 1 < |files| then Pos(p.file + 1, 0) else p
  {
    if p.file + 1 < |files| then Pos(p.file + 1, 0) else p
  }

  /** jumpToPrevFile: hunk 0 of the previous file, else stay. */
  function PrevFile(files: seq<FileDiff>, p: Pos): (r: Pos)
    requires 0 <= p.file < |files|
    ensures InRange(files, p) ==> InRange(files, r)
    ensures r == if p.file > 0 then Pos(p.file - 1, 0) else p
  {
    if p.file > 0 then Pos(p.file - 1, 0) else p
  }

  // ---------------------------------------------------------------------------
  // The sequential order of the hunks

  predicate EveryFileHasHunks(files: seq<FileDiff>)
  {
    forall k :: 0 <= k < |files| ==> |files[k].hunks| > 0
  }

  /** The position of a hunk in the review order: the hunks of earlier files, then its index. */
  function Rank(files: seq<FileDiff>, p: Pos): int
    requires 0 <= p.file <= |files|
  {
    TotalHunks(files[..p.file]) + p.hunk
  }

  /** Lexicographic order on cursors. */
  predicate Before(p: Pos, q: Pos)
  {
    p.file < q.file || (p.file == q.file && p.hunk < q.hunk)
  }

  lemma {:induction false} TotalHunksPrefixMonotone(files: seq<FileDiff>, a: nat, b: nat)
    requires a <= b <= |files|
    ensures TotalHunks(files[..a]) <= TotalHunks(files[..b])
  {
    assert files[..b] == files[..a] + files[a..b];
    TotalHunksAppend(files[..a], files[a..b]);
  }

  lemma TotalHunksSnocPrefix(files: seq<FileDiff>, f: nat)
    requires f < |files|
    ensures TotalHunks(files[..f + 1]) == TotalHunks(files[..f]) + |files[f].hunks|
  {
    assert files[..f + 1][..f] == files[..f];
  }

  /** Every hunk's rank is below the total ... */
  lemma RankBound(files: seq<FileDiff>, p: Pos)
    requires AtHunk(files, p)
    ensures 0 <= Rank(files, p) < TotalHunks(files)
  {
    TotalHunksSnocPrefix(files, p.file);
    TotalHunksPrefixMonotone(files, p.file + 1, |files|);
    assert files[..|files|] == files;
  }

  /** ... and the ranks follow the lexicographic order of the cursors. */
  lemma RankStrictlyIncreasing(files: seq<FileDiff>, p: Pos, q: Pos)
    requires AtHunk(files, p) && AtHunk(files, q) && Before(p, q)
    ensures Rank(files, p) < Rank(files, q)
  {
    if p.file < q.file {
      TotalHunksSnocPrefix(files, p.file);
      TotalHunksPrefixMonotone(files, p.file + 1, q.file);
    }
  }

  lemma RankInjective(files: seq<FileDiff>, p: Pos, q: Pos)
    requires AtHunk(files, p) && AtHunk(files, q) && Rank(files, p) == Rank(files, q)
    ensures p == q
  {
    if Before(p, q) {
      RankStrictlyIncreasing(files, p, q);
    } else if Before(q, p) {
      RankStrictlyIncreasing(files, q, p);
    }
  }

  /**
   * When every file has a hunk, advancing from a hunk reaches the hunk of the
   * next rank, and finishes exactly from the last one.
   */
  lemma AdvanceIsNextInOrder(files: seq<FileDiff>, p: Pos)
    requires EveryFileHasHunks(files) && AtHunk(files, p)
    ensures Advance(files, p).Goto? ==>
      AtHunk(files, Advance(files, p).to) && Rank(files, Advance(files, p).to) == Rank(files, p) + 1
    ensures Advance(files, p).Finish? <==> Rank(files, p) == TotalHunks(files) - 1
  {
    var s := Advance(files, p);
    if s.Goto? {
      if s.to.file == p.file + 1 {
        TotalHunksSnocPrefix(files, p.file);
      }
      RankBound(files, s.to);
    } else {
      TotalHunksSnocPrefix(files, p.file);
      assert files[..p.file + 1] == files;
    }
  }

  /** The cursor after `n` advances from the first hunk of the first file. */
  function Walk(files: seq<FileDiff>, n: nat): Step
    requires |files| > 0
  {
    if n == 0 then Goto(Pos(0, 0))
    else
      match Walk(files, n - 1)
      case Finish => Finish
      case Goto(p) => if 0 <= p.file < |files| then Advance(files, p) else Finish
  }

  /** The walk visits the hunk of rank `n` at step `n` ... */
  lemma {:induction false} WalkOrder(files: seq<FileDiff>, n: nat)
    requires |files| > 0 && EveryFileHasHunks(files) && n < TotalHunks(files)
    ensures Walk(files, n).Goto? && AtHunk(files, Walk(files, n).to)
    ensures Rank(files, Walk(files, n).to) == n
  {
    if n > 0 {
      WalkOrder(files, n - 1);
      var p := Walk(files, n - 1).to;
      AdvanceIsNextInOrder(files, p);
    }
  }

  /** ... finishes right after the last hunk ... */
  lemma WalkFinishes(files: seq<FileDiff>)
    requires |files| > 0 && EveryFileHasHunks(files)
    ensures Walk(files, TotalHunks(files)) == Finish
  {
    RankBound(files, Pos(0, 0));
    var n := TotalHunks(files) - 1;
    WalkOrder(files, n);
    AdvanceIsNextInOrder(files, Walk(files, n).to);
  }

  /** ... and every hunk is visited, at the step of its rank and at no other. */
  lemma WalkVisitsEveryHunkOnce(files: seq<FileDiff>, q: Pos, n: nat)
    requires |files| > 0 && EveryFileHasHunks(files) && AtHunk(files, q)
    requires n < TotalHunks(files)
    ensures Walk(files, n) == Goto(q) <==> n == Rank(files, q)
  {
    RankBound(files, q);
    WalkOrder(files, n);
    WalkOrder(files, Rank(files, q));
    if n == Rank(files, q) {
      RankInjective(files, Walk(files, n).to, q);
    }
  }

  /** The advances a file takes: one per hunk, and one when it has none. */
  function StopsIn(file: FileDiff): nat
  {
    if |file.hunks| == 0 then 1 else |file.hunks|
  }

  /** The number of advances from the start that reach file `f`. */
  function Stops(files: seq<FileDiff>, f: nat): nat
    requires f <= |files|
  {
    if f == 0 then 0 else Stops(files, f - 1) + StopsIn(files[f - 1])
  }

  /**
   * Whatever the hunk counts, the walk stands on hunk `h` of file `f` after
   * `Stops(files, f) + h` advances; a file without hunks is entered at hunk 0.
   */
  lemma {:induction false} WalkInFile(files: seq<FileDiff>, f: nat, h: nat)
    requires f < |files| && h < StopsIn(files[f])
    ensures Walk(files, Stops(files, f) + h) == Goto(Pos(f, h))
    decreases f, h
  {
    if h > 0 {
      var n := Stops(files, f) + h - 1;
      WalkInFile(files, f, h - 1);
      WalkStep(files, n, Pos(f, h - 1));
    } else if f > 0 {
      var m := StopsIn(files[f - 1]) - 1;
      var n := Stops(files, f - 1) + m;
      WalkInFile(files, f - 1, m);
      WalkStep(files, n, Pos(f - 1, m));
      assert Stops(files, f) == n + 1;
    }
  }

  lemma WalkStep(files: seq<FileDiff>, n: nat, p: Pos)
    requires |files| > 0 && 0 <= p.file < |files| && Walk(files, n) == Goto(p)
    ensures Walk(files, n + 1) == Advance(files, p)
  {
  }

  /** Going back undoes a forward move between two hunks. */
  lemma RetreatUndoesAdvance(files: seq<FileDiff>, p: Pos)
    requires AtHunk(files, p) && Advance(files, p).Goto?
    ensures Retreat(files, Advance(files, p).to) == p
  {
  }

  /** Going back into a file without hunks leaves the cursor at hunk -1. */
  lemma RetreatIntoEmptyFile(files: seq<FileDiff>, p: Pos)
    requires 0 < p.file < |files| && p.hunk <= 0 && |files[p.file - 1].hunks| == 0
    ensures Retreat(files, p) == Pos(p.file - 1, -1)
  {
  }
}
