/**
 * Grouping comments by file, as both the feedback formatter
 * (src/output/formatter.ts) and the summary screen (src/cli/Summary.tsx) do
 * with an insertion-ordered JavaScript `Map` keyed by `filePath`: the keys in
 * order of first appearance, and under each key that file's comments in list
 * order (the summary also keeps each comment's position in the whole list).
 */
module Grouping {
  import opened Util
  import opened Types

  /** The distinct file paths of `cs`, in order of first appearance. */
  function Paths(cs: seq<Comment>): (ps: seq<string>)
    ensures |ps| <= |cs|
  {
    if |cs| == 0 then []
    else
      var ps := Paths(cs[..|cs| - 1]);
      if cs[|cs| - 1].filePath in ps then ps else ps + [cs[|cs| - 1].filePath]
  }

  lemma PathsSnoc(cs: seq<Comment>, c: Comment)
    ensures Paths(cs + [c]) == if c.filePath in Paths(cs) then Paths(cs) else Paths(cs) + [c.filePath]
  {
    assert (cs + [c])[..|cs|] == cs;
  }

  lemma PathsOfOne(c: Comment)
    ensures Paths([c]) == [c.filePath]
  {
    assert [c][..0] == [];
  }

  lemma PathsOfPair(c: Comment, d: Comment)
    requires c.filePath == d.filePath
    ensures Paths([c, d]) == [c.filePath]
  {
    assert [c, d][..1] == [c];
    PathsOfOne(c);
  }

  /** Adding a key to an insertion-ordered map appends it to the order exactly when it is new. */
  lemma KeysSnoc<V>(order: seq<string>, byFile: map<string, V>, k: string, v: V)
    requires forall p :: p in byFile <==> p in order
    ensures k in byFile ==> forall p :: p in byFile[k := v] <==> p in order
    ensures k !in byFile ==> forall p :: p in byFile[k := v] <==> p in order + [k]
  {
  }

  function SamePath(p: string): Comment -> bool
  {
    (c: Comment) => c.filePath == p
  }

  /** The comments of file `p`, in list order. */
  function CommentsOf(cs: seq<Comment>, p: string): seq<Comment>
  {
    Filter(cs, SamePath(p))
  }

  /** A comment together with its position in the whole list. */
  datatype Indexed = Indexed(comment: Comment, globalIndex: nat)

  /** The comments of file `p` with their positions in `cs`, in list order. */
  function IndexedOf(cs: seq<Comment>, p: string): seq<Indexed>
  {
    if |cs| == 0 then []
    else
      var n := |cs| - 1;
      IndexedOf(cs[..n], p) + (if cs[n].filePath == p then [Indexed(cs[n], n)] else [])
  }

  predicate Distinct<T(==)>(s: seq<T>)
  {
    forall i, j :: 0 <= i < j < |s| ==> s[i] != s[j]
  }

  /** Every comment's path is among the paths ... */
  lemma {:induction false} PathOf(cs: seq<Comment>, k: nat)
    requires k < |cs|
    ensures cs[k].filePath in Paths(cs)
  {
    if k < |cs| - 1 {
      PathOf(cs[..|cs| - 1], k);
    }
  }

  /** ... and every path is some comment's. */
  lemma {:induction false} CommentOn(cs: seq<Comment>, p: string) returns (k: nat)
    requires p in Paths(cs)
    ensures k < |cs| && cs[k].filePath == p
  {
    var init := cs[..|cs| - 1];
    if p in Paths(init) {
      k := CommentOn(init, p);
    } else {
      k := |cs| - 1;
    }
  }

  lemma {:induction false} PathsDistinct(cs: seq<Comment>)
    ensures Distinct(Paths(cs))
  {
    if |cs| > 0 {
      PathsDistinct(cs[..|cs| - 1]);
    }
  }

  /** The paths are distinct and are exactly the paths the comments carry. */
  lemma PathsAreTheDistinctPaths(cs: seq<Comment>)
    ensures Distinct(Paths(cs))
    ensures forall p :: p in Paths(cs) <==> exists k :: 0 <= k < |cs| && cs[k].filePath == p
  {
    PathsDistinct(cs);
    forall p | p in Paths(cs) ensures exists k :: 0 <= k < |cs| && cs[k].filePath == p {
      var k := CommentOn(cs, p);
    }
    forall k | 0 <= k < |cs| ensures cs[k].filePath in Paths(cs) {
      PathOf(cs, k);
    }
  }

  /**
   * First-appearance order: when path `i` comes before path `j`, every comment
   * on path `j` is preceded by some comment on path `i`.
   */
  predicate InFirstAppearanceOrder(cs: seq<Comment>, ps: seq<string>)
  {
    forall i, j, b :: 0 <= i < j < |ps| && 0 <= b < |cs| && cs[b].filePath == ps[j] ==>
      exists a :: 0 <= a < b && cs[a].filePath == ps[i]
  }

  lemma {:induction false} PathsInFirstAppearanceOrder(cs: seq<Comment>)
    ensures InFirstAppearanceOrder(cs, Paths(cs))
  {
    if |cs| > 0 {
      var init := cs[..|cs| - 1];
      PathsInFirstAppearanceOrder(init);
      forall i, j, b | 0 <= i < j < |Paths(cs)| && 0 <= b < |cs| && cs[b].filePath == Paths(cs)[j]
        ensures exists a :: 0 <= a < b && cs[a].filePath == Paths(cs)[i]
      {
        FirstAppearanceStep(cs, i, j, b);
      }
    }
  }

  /** One step of the induction above: the last comment is the newest one. */
  lemma FirstAppearanceStep(cs: seq<Comment>, i: nat, j: nat, b: nat)
    requires |cs| > 0 && InFirstAppearanceOrder(cs[..|cs| - 1], Paths(cs[..|cs| - 1]))
    requires i < j < |Paths(cs)| && b < |cs| && cs[b].filePath == Paths(cs)[j]
    ensures exists a :: 0 <= a < b && cs[a].filePath == Paths(cs)[i]
  {
    var n := |cs| - 1;
    var init := cs[..n];
    var ps, ps0 := Paths(cs), Paths(init);
    assert ps[..|ps0|] == ps0;
    assert ps[i] == ps0[i];
    if b < n {
      EarlierCommentFirst(cs, i, j, b);
    } else if j < |ps0| {
      var k := CommentOn(init, ps0[j]);
      var a := OlderPathFirst(init, i, j, k);
      assert cs[a] == init[a];
    } else {
      var a := CommentOn(init, ps0[i]);
      assert cs[a] == init[a];
    }
  }

  /** A comment before the last one already had its earlier paths before it. */
  lemma EarlierCommentFirst(cs: seq<Comment>, i: nat, j: nat, b: nat)
    requires |cs| > 0 && InFirstAppearanceOrder(cs[..|cs| - 1], Paths(cs[..|cs| - 1]))
    requires i < j < |Paths(cs)| && b < |cs| - 1 && cs[b].filePath == Paths(cs)[j]
    ensures exists a :: 0 <= a < b && cs[a].filePath == Paths(cs)[i]
  {
    var init := cs[..|cs| - 1];
    var ps, ps0 := Paths(cs), Paths(init);
    assert ps[..|ps0|] == ps0;
    assert init[b] == cs[b];
    PathOf(init, b);
    assert ps[j] in ps0;
    assert j < |ps0|;
    var a := OlderPathFirst(init, i, j, b);
    assert cs[a] == init[a];
  }

  /** The order predicate, used at given indices. */
  lemma OlderPathFirst(cs: seq<Comment>, i: nat, j: nat, b: nat) returns (a: nat)
    requires InFirstAppearanceOrder(cs, Paths(cs))
    requires i < j < |Paths(cs)| && b < |cs| && cs[b].filePath == Paths(cs)[j]
    ensures a < b && cs[a].filePath == Paths(cs)[i]
  {
    var ps := Paths(cs);
    var target := ps[i];
    assert 0 <= i < j < |ps| && 0 <= b < |cs| && cs[b].filePath == ps[j];
    assert exists a :: 0 <= a < b && cs[a].filePath == ps[i];
    a :| 0 <= a < b && cs[a].filePath == target;
  }

  lemma {:induction false} CommentsOfAbsent(cs: seq<Comment>, p: string)
    requires forall k :: 0 <= k < |cs| ==> cs[k].filePath != p
    ensures CommentsOf(cs, p) == []
  {
    if |cs| > 0 {
      CommentsOfAbsent(cs[..|cs| - 1], p);
    }
  }

  /** Appending a comment adds one to its own file's group and nothing to any other. */
  lemma CommentsOfSnoc(cs: seq<Comment>, c: Comment, p: string)
    ensures CommentsOf(cs + [c], p) == CommentsOf(cs, p) + (if c.filePath == p then [c] else [])
  {
    assert (cs + [c])[..|cs|] == cs;
  }

  function GroupSizes(cs: seq<Comment>, ps: seq<string>): nat
  {
    if |ps| == 0 then 0 else GroupSizes(cs, ps[..|ps| - 1]) + |CommentsOf(cs, ps[|ps| - 1])|
  }

  lemma {:induction false} GroupSizesSnoc(cs: seq<Comment>, c: Comment, ps: seq<string>)
    requires Distinct(ps)
    ensures GroupSizes(cs + [c], ps) == GroupSizes(cs, ps) + (if c.filePath in ps then 1 else 0)
  {
    if |ps| > 0 {
      var init := ps[..|ps| - 1];
      GroupSizesSnoc(cs, c, init);
      CommentsOfSnoc(cs, c, ps[|ps| - 1]);
      assert c.filePath in ps <==> c.filePath in init || c.filePath == ps[|ps| - 1];
      assert c.filePath == ps[|ps| - 1] ==> c.filePath !in init;
    }
  }

  /** The groups partition the list: their sizes add up to the number of comments. */
  lemma {:induction false} GroupsPartition(cs: seq<Comment>)
    ensures GroupSizes(cs, Paths(cs)) == |cs|
  {
    if |cs| > 0 {
      var n := |cs| - 1;
      var init, c := cs[..n], cs[n];
      assert cs == init + [c];
      var ps0 := Paths(init);
      GroupsPartition(init);
      PathsAreTheDistinctPaths(init);
      GroupSizesSnoc(init, c, ps0);
      if c.filePath !in ps0 {
        assert GroupSizes(cs, Paths(cs)) == GroupSizes(cs, ps0) + |CommentsOf(cs, c.filePath)| by {
          assert Paths(cs)[..|Paths(cs)| - 1] == ps0;
        }
        CommentsOfSnoc(init, c, c.filePath);
        CommentsOfAbsent(init, c.filePath);
      }
    }
  }

  /**
   * The summary's groups: each entry is the comment at its global index and
   * lies on the group's path, and the indices increase ...
   */
  predicate EntriesAt(cs: seq<Comment>, p: string, g: seq<Indexed>)
  {
    && (forall k :: 0 <= k < |g| ==> g[k].globalIndex < |cs| && cs[g[k].globalIndex] == g[k].comment && g[k].comment.filePath == p)
    && (forall k, l :: 0 <= k < l < |g| ==> g[k].globalIndex < g[l].globalIndex)
  }

  lemma {:induction false} IndexedOfEntries(cs: seq<Comment>, p: string)
    ensures EntriesAt(cs, p, IndexedOf(cs, p))
  {
    if |cs| > 0 {
      var n := |cs| - 1;
      var init := cs[..n];
      IndexedOfEntries(init, p);
      var g0 := IndexedOf(init, p);
      forall k | 0 <= k < |g0| ensures cs[g0[k].globalIndex] == g0[k].comment {
        assert init[g0[k].globalIndex] == cs[g0[k].globalIndex];
      }
    }
  }

  /** ... an index is in the group whenever its comment is on that path ... */
  lemma {:induction false} IndexedOfComplete(cs: seq<Comment>, p: string, i: nat)
    requires i < |cs| && cs[i].filePath == p
    ensures exists k :: 0 <= k < |IndexedOf(cs, p)| && IndexedOf(cs, p)[k].globalIndex == i
  {
    var n := |cs| - 1;
    var init := cs[..n];
    var g, g0 := IndexedOf(cs, p), IndexedOf(init, p);
    if i < n {
      assert init[i] == cs[i];
      IndexedOfComplete(init, p, i);
      var k :| 0 <= k < |g0| && g0[k].globalIndex == i;
      assert g[k] == g0[k];
    } else {
      assert g[|g| - 1].globalIndex == n;
    }
  }

  /** ... and dropping the indices gives the formatter's group. */
  lemma {:induction false} IndexedOfProjects(cs: seq<Comment>, p: string)
    ensures |IndexedOf(cs, p)| == |CommentsOf(cs, p)|
    ensures forall k :: 0 <= k < |IndexedOf(cs, p)| ==> IndexedOf(cs, p)[k].comment == CommentsOf(cs, p)[k]
  {
    if |cs| > 0 {
      var n := |cs| - 1;
      IndexedOfProjects(cs[..n], p);
    }
  }

  /** The number of distinct paths, the summary's file count, is the size of the set of paths. */
  lemma PathCount(cs: seq<Comment>)
    ensures |Paths(cs)| == |set k | 0 <= k < |cs| :: cs[k].filePath|
  {
    PathsAreTheDistinctPaths(cs);
    var ps := Paths(cs);
    assert (set k | 0 <= k < |cs| :: cs[k].filePath) == (set x | x in ps) by {
      forall x | x in ps ensures x in (set k | 0 <= k < |cs| :: cs[k].filePath) {
        var k :| 0 <= k < |cs| && cs[k].filePath == x;
      }
    }
    DistinctCard(ps);
  }

  lemma {:induction false} DistinctCard<T>(s: seq<T>)
    requires Distinct(s)
    ensures |set x | x in s| == |s|
  {
    if |s| > 0 {
      var init := s[..|s| - 1];
      DistinctCard(init);
      assert (set x | x in s) == (set x | x in init) + {s[|s| - 1]} by {
        assert s == init + [s[|s| - 1]];
      }
      assert s[|s| - 1] !in init;
    }
  }
}
