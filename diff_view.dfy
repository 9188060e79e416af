/**
 * The hunk's lines as the review screen shows them
 * (src/cli/components/DiffView.tsx): a marker, the padded line number, the
 * content, the comment on that line, and whether the line is the one a
 * `:N` prefix aims at.
 */
module DiffView {
  import opened Util
  import opened Types
  import opened Diff

  /** The map from line number to comment, as the view's loop fills it. */
  function ByLine(cs: seq<Comment>): map<int, Comment>
  {
    if |cs| == 0 then map[]
    else
      var c := cs[|cs| - 1];
      var m := ByLine(cs[..|cs| - 1]);
      if HasLine(c) then m[c.lineNumber.value := c] else m
  }

  method CommentsByLine(lineComments: seq<Comment>) returns (m: map<int, Comment>)
    ensures m == ByLine(lineComments)
  {
    m := map[];
    var i := 0;
    while i < |lineComments|
      invariant 0 <= i <= |lineComments|
      invariant m == ByLine(lineComments[..i])
    {
      var comment := lineComments[i];
      assert lineComments[..i + 1][..i] == lineComments[..i];
      if HasLine(comment) {
        m := m[comment.lineNumber.value := comment];
      }
      i := i + 1;
    }
    assert lineComments[..i] == lineComments;
  }

  /** A line number is in the map exactly when some comment carries it, and 0 never is. */
  lemma {:induction false} ByLineKeys(cs: seq<Comment>, n: int)
    ensures n in ByLine(cs) <==> n != 0 && exists k :: 0 <= k < |cs| && cs[k].lineNumber == Some(n)
  {
    if |cs| > 0 {
      var init := cs[..|cs| - 1];
      ByLineKeys(init, n);
      if n != 0 && cs[|cs| - 1].lineNumber != Some(n) && (exists k :: 0 <= k < |cs| && cs[k].lineNumber == Some(n)) {
        var k :| 0 <= k < |cs| && cs[k].lineNumber == Some(n);
        assert init[k] == cs[k];
      }
      if n in ByLine(init) {
        var k :| 0 <= k < |init| && init[k].lineNumber == Some(n);
        assert cs[k] == init[k];
      }
    }
  }

  /** The comment stored for a line is the last comment carrying that line number. */
  lemma {:induction false} ByLineLastWins(cs: seq<Comment>, k: nat)
    requires k < |cs| && HasLine(cs[k])
    requires forall j :: k < j < |cs| ==> cs[j].lineNumber != cs[k].lineNumber
    ensures cs[k].lineNumber.value in ByLine(cs) && ByLine(cs)[cs[k].lineNumber.value] == cs[k]
  {
    var n := |cs| - 1;
    if k < n {
      ByLineLastWins(cs[..n], k);
    }
  }

  /** One displayed line. */
  datatype Row = Row(prefix: char, number: string, content: string, comment: Option<string>, targeted: bool)

  /** `content.replace(/^[+-\s]/, '')`: at most one leading '+', '-' or whitespace removed. */
  function StripDisplayMarker(s: string): (r: string)
    ensures |s| > 0 && (s[0] == '+' || s[0] == '-' || IsWhitespace(s[0])) ==> [s[0]] + r == s
    ensures !(|s| > 0 && (s[0] == '+' || s[0] == '-' || IsWhitespace(s[0]))) ==> r == s
  {
    if |s| > 0 && (s[0] == '+' || s[0] == '-' || IsWhitespace(s[0])) then s[1..] else s
  }

  function RowOf(l: DiffLine, byLine: map<int, Comment>, targetedLine: Option<int>): Row
  {
    Row(Marker(l.kind),
        PadStart(IntToString(l.lineNumber), 4),
        StripDisplayMarker(l.content),
        if l.lineNumber in byLine then Some(byLine[l.lineNumber].text) else None,
        targetedLine == Some(l.lineNumber))
  }

  /** The rows of a hunk, one per line in order. */
  function Rows(h: Hunk, lineComments: seq<Comment>, targetedLine: Option<int>): (rows: seq<Row>)
    ensures |rows| == |h.lines|
    ensures forall k :: 0 <= k < |rows| ==> rows[k] == RowOf(h.lines[k], ByLine(lineComments), targetedLine)
  {
    var byLine := ByLine(lineComments);
    seq(|h.lines|, k requires 0 <= k < |h.lines| => RowOf(h.lines[k], byLine, targetedLine))
  }

  /** Each row: the line's marker, its number right-aligned to width 4 (longer ones in full), its flag. */
  lemma RowShape(h: Hunk, lineComments: seq<Comment>, targetedLine: Option<int>, k: nat)
    requires k < |h.lines|
    ensures var row := Rows(h, lineComments, targetedLine)[k];
      && row.prefix == Marker(h.lines[k].kind)
      && |row.number| == Max(|IntToString(h.lines[k].lineNumber)|, 4)
      && row.number[|row.number| - |IntToString(h.lines[k].lineNumber)|..] == IntToString(h.lines[k].lineNumber)
      && (row.targeted <==> targetedLine == Some(h.lines[k].lineNumber))
  {
  }

  /**
   * A row shows the comment of the last line comment carrying its number,
   * whatever the kind of the line, so a deleted and an added line with the
   * same number show the same comment.
   */
  lemma RowCommentByNumber(h: Hunk, lineComments: seq<Comment>, targetedLine: Option<int>, i: nat, j: nat)
    requires i < |h.lines| && j < |h.lines| && h.lines[i].lineNumber == h.lines[j].lineNumber
    ensures Rows(h, lineComments, targetedLine)[i].comment == Rows(h, lineComments, targetedLine)[j].comment
  {
  }

  /** Only a truthy line number can show a comment. */
  lemma LineZeroShowsNoComment(h: Hunk, lineComments: seq<Comment>, targetedLine: Option<int>, i: nat)
    requires i < |h.lines| && h.lines[i].lineNumber == 0
    ensures Rows(h, lineComments, targetedLine)[i].comment == None
  {
    ByLineKeys(lineComments, 0);
  }

  /**
   * On the parser's content, which starts with the line's own marker, the row
   * shows marker and text once; the snippet shows an added or deleted line
   * the same way and a context line with one more space.
   */
  lemma RowAgainstSnippet(l: DiffLine, byLine: map<int, Comment>, targetedLine: Option<int>)
    requires |l.content| >= 1 && l.content[0] == Marker(l.kind)
    ensures var row := RowOf(l, byLine, targetedLine);
      && [row.prefix] + row.content == l.content
      && (l.kind != Context ==> SnippetLine(l) == [row.prefix] + row.content)
      && (l.kind == Context ==> SnippetLine(l) == [' ', row.prefix] + row.content)
  {
    SnippetLineOfMarkedContent(l);
    assert l.content == [l.content[0]] + l.content[1..];
  }
}
