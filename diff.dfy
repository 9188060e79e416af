/**
 * From the unified-diff parser's records to the session's diff model, and the
 * text snippet a comment captures of its hunk (src/git/diff.ts).
 *
 * Running git and parsing its output are outside the model: `ToFileDiffs`
 * receives the raw diff text (only to test it for blankness) together with
 * the parser's records for it.
 */
module Diff {
  import opened Util
  import opened Types
  import opened Overview

  /** A parser change record: `type` is "add", "del" or "normal". */
  datatype Change = Change(changeType: string, ln: int, ln2: int, content: string)

  /** A parser chunk record; `content` is the `@@ ... @@` header, if any. */
  datatype Chunk = Chunk(
    content: Option<string>,
    changes: seq<Change>,
    oldStart: int, oldLines: int,
    newStart: int, newLines: int)

  /** A parser file record; `newFile`/`deletedFile` are its `new`/`deleted` flags. */
  datatype ParsedFile = ParsedFile(
    from: Option<string>,
    to: Option<string>,
    newFile: bool,
    deletedFile: bool,
    chunks: seq<Chunk>)

  /** JavaScript `a || b` on numbers: 0 is falsy. */
  function OrElse(a: int, b: int): int { if a != 0 then a else b }

  /** JavaScript `s || fallback` on an optional string: absent and "" are falsy. */
  function OrString(s: Option<string>, fallback: string): string
  {
    if s.Some? && s.value != "" then s.value else fallback
  }

  /** One parser change as a diff line: the kind agrees with the parser's marker, the content is kept. */
  function ToDiffLine(ch: Change): (l: DiffLine)
    ensures Marker(l.kind) == ParserMarker(ch.changeType)
    ensures l.content == ch.content
  {
    var kind := if ch.changeType == "add" then Add else if ch.changeType == "del" then Delete else Context;
    var lineNumber := if ch.changeType == "add" then ch.ln else if ch.changeType == "del" then ch.ln else ch.ln2;
    DiffLine(kind, lineNumber, ch.content)
  }

  function ToHunk(chunk: Chunk): (h: Hunk)
    ensures |h.lines| == |chunk.changes|
    ensures forall k :: 0 <= k < |h.lines| ==> h.lines[k] == ToDiffLine(chunk.changes[k])
    ensures h.startLine != 0
    ensures chunk.newLines >= 0 && chunk.oldLines >= 0 ==> h.endLine >= h.startLine
    ensures h.header == OrString(chunk.content, "")
  {
    var lines := seq(|chunk.changes|, k requires 0 <= k < |chunk.changes| => ToDiffLine(chunk.changes[k]));
    var startLine := OrElse(OrElse(chunk.newStart, chunk.oldStart), 1);
    var endLine := startLine + OrElse(OrElse(chunk.newLines, chunk.oldLines), 1) - 1;
    Hunk(startLine, endLine, lines, OrString(chunk.content, ""))
  }

  function ToFileDiff(pf: ParsedFile): (f: FileDiff)
    ensures f.isNew == pf.newFile && f.isDeleted == pf.deletedFile
    ensures f.isBinary <==> |pf.chunks| == 0 && !pf.newFile && !pf.deletedFile
    ensures f.path != ""
    ensures pf.deletedFile ==> f.path == OrString(pf.from, "unknown")
    ensures !pf.deletedFile ==> f.path == OrString(pf.to, OrString(pf.from, "unknown"))
    ensures |f.hunks| == |pf.chunks|
    ensures forall k :: 0 <= k < |f.hunks| ==> f.hunks[k] == ToHunk(pf.chunks[k])
  {
    var isBinary := |pf.chunks| == 0 && !pf.newFile && !pf.deletedFile;
    var hunks := seq(|pf.chunks|, k requires 0 <= k < |pf.chunks| => ToHunk(pf.chunks[k]));
    var path := if pf.deletedFile then OrString(pf.from, "unknown")
                else OrString(pf.to, OrString(pf.from, "unknown"));
    FileDiff(path, hunks, isBinary, pf.newFile, pf.deletedFile)
  }

  /**
   * The result of getChanges, given the diff text and what the parser made
   * of it: nothing for a blank diff, otherwise one file per parser record.
   */
  function ToFileDiffs(diffOutput: string, parsed: seq<ParsedFile>): (files: seq<FileDiff>)
    ensures files == [] || |files| == |parsed|
    ensures forall k :: 0 <= k < |files| ==> files[k] == ToFileDiff(parsed[k])
  {
    if Blank(diffOutput) then []
    else seq(|parsed|, k requires 0 <= k < |parsed| => ToFileDiff(parsed[k]))
  }

  /** The number of chunks the parser found in all its records. */
  function ChunkTotal(parsed: seq<ParsedFile>): nat
  {
    if |parsed| == 0 then 0 else ChunkTotal(parsed[..|parsed| - 1]) + |parsed[|parsed| - 1].chunks|
  }

  lemma {:induction false} ConvertedHunkTotal(files: seq<FileDiff>, parsed: seq<ParsedFile>)
    requires |files| == |parsed|
    requires forall k :: 0 <= k < |files| ==> files[k] == ToFileDiff(parsed[k])
    ensures TotalHunks(files) == ChunkTotal(parsed)
  {
    if |files| > 0 {
      var n := |files| - 1;
      ConvertedHunkTotal(files[..n], parsed[..n]);
    }
  }

  /**
   * Nothing is lost or invented on the way: the review holds one hunk per
   * parser chunk, and a file that is not deleted and has no hunk is flagged
   * new or binary.
   */
  lemma ToFileDiffsKeepsChunks(diffOutput: string, parsed: seq<ParsedFile>)
    ensures Blank(diffOutput) ==> TotalHunks(ToFileDiffs(diffOutput, parsed)) == 0
    ensures !Blank(diffOutput) ==> TotalHunks(ToFileDiffs(diffOutput, parsed)) == ChunkTotal(parsed)
    ensures var files := ToFileDiffs(diffOutput, parsed);
      forall k :: 0 <= k < |files| && |files[k].hunks| == 0 && !files[k].isDeleted ==>
        files[k].isNew || files[k].isBinary
  {
    if !Blank(diffOutput) {
      ConvertedHunkTotal(ToFileDiffs(diffOutput, parsed), parsed);
    }
  }

  /** The marker the parser puts in front of a change's content. */
  function ParserMarker(changeType: string): char
  {
    if changeType == "add" then '+' else if changeType == "del" then '-' else ' '
  }

  /**
   * A parser change keeps its marker through the conversion, and its snippet
   * line gives back the parser's line: unchanged for an addition or a
   * deletion, with the marker space in front for a context line.
   */
  lemma ToDiffLineKeepsParserLine(ch: Change)
    requires |ch.content| >= 1 && ch.content[0] == ParserMarker(ch.changeType)
    ensures Marker(ToDiffLine(ch).kind) == ch.content[0]
    ensures ch.changeType == "add" || ch.changeType == "del" ==> SnippetLine(ToDiffLine(ch)) == ch.content
    ensures ch.changeType != "add" && ch.changeType != "del" ==> SnippetLine(ToDiffLine(ch)) == [' '] + ch.content
  {
    SnippetLineOfMarkedContent(ToDiffLine(ch));
  }

  // ---------------------------------------------------------------------------
  // Snippets

  /** `content.replace(/^[+-]/, '')`: at most one leading '+' or '-' removed. */
  function StripDiffMarker(s: string): string
  {
    if |s| > 0 && (s[0] == '+' || s[0] == '-') then s[1..] else s
  }

  /** One snippet line: the kind's marker, then the content without its own marker. */
  function SnippetLine(l: DiffLine): string
  {
    [Marker(l.kind)] + StripDiffMarker(l.content)
  }

  function SnippetLines(lines: seq<DiffLine>): (r: seq<string>)
    ensures |r| == |lines|
  {
    seq(|lines|, k requires 0 <= k < |lines| => SnippetLine(lines[k]))
  }

  /**
   * generateDiffSnippet: every line of the hunk (the context filter keeps all
   * of them), each rendered by SnippetLine, joined by newlines.
   */
  function GenerateDiffSnippet(h: Hunk): (snippet: string)
    ensures |h.lines| == 0 ==> snippet == ""
  {
    Join(SnippetLines(h.lines), "\n")
  }

  /**
   * A snippet of N lines whose contents hold no newline splits back into
   * exactly N pieces, the k-th starting with the k-th line's marker and
   * continuing with its content minus at most one leading '+' or '-'.
   */
  lemma SnippetSplitsIntoLines(h: Hunk)
    requires |h.lines| >= 1
    requires forall k :: 0 <= k < |h.lines| ==> '\n' !in h.lines[k].content
    ensures var pieces := Split(GenerateDiffSnippet(h), '\n');
      && |pieces| == |h.lines|
      && forall k :: 0 <= k < |pieces| ==>
           && |pieces[k]| >= 1
           && pieces[k][0] == Marker(h.lines[k].kind)
           && pieces[k][1..] == StripDiffMarker(h.lines[k].content)
  {
    var xs := SnippetLines(h.lines);
    forall k | 0 <= k < |xs| ensures '\n' !in xs[k] {
      var c := h.lines[k].content;
      assert StripDiffMarker(c) <= c || StripDiffMarker(c) == c[1..];
      assert xs[k] == [Marker(h.lines[k].kind)] + StripDiffMarker(c);
    }
    SplitJoin(xs, '\n');
    forall k | 0 <= k < |xs| ensures xs[k][1..] == StripDiffMarker(h.lines[k].content) {
      assert xs[k] == [Marker(h.lines[k].kind)] + StripDiffMarker(h.lines[k].content);
    }
  }

  /**
   * On the parser's content, which starts with the line's own marker, an added
   * or deleted line reappears unchanged, while a context line keeps its
   * leading space and gains the marker space in front of it.
   */
  lemma SnippetLineOfMarkedContent(l: DiffLine)
    requires |l.content| >= 1 && l.content[0] == Marker(l.kind)
    ensures l.kind != Context ==> SnippetLine(l) == l.content
    ensures l.kind == Context ==> SnippetLine(l) == [' '] + l.content
  {
    if l.kind != Context {
      assert l.content == [l.content[0]] + l.content[1..];
    }
  }
}
