/**
 * The feedback document handed to the output sink, and the abort sentinel
 * (src/output/formatter.ts).
 *
 * `Feedback` specifies the document line by line; `FormatFeedback` builds it
 * the way the source does, filling an insertion-ordered map of the comments
 * by file and then pushing lines onto a list.
 */
module Formatter {
  import opened Util
  import opened Types
  import opened Grouping

  const Title := "## Code Review Feedback"
  const Closing := "Please address these comments and let me know when you've made the changes."

  const HeaderLines: seq<string> := [
    Title,
    "",
    "The following comments are from an interactive review of your recent changes. Please address each one:",
    ""]

  const FooterLines: seq<string> := ["---", Closing]

  const DeletionLabel := "**Regarding file deletion:**"

  /** The location label: deletion first, then a truthy line number, then the hunk's range. */
  function Label(c: Comment): string
  {
    if c.isDeletedFile then DeletionLabel
    else if HasLine(c) then "**Line " + IntToString(c.lineNumber.value) + " specifically:**"
    else "**Lines " + IntToString(c.startLine) + "-" + IntToString(c.endLine) + ":**"
  }

  /**
   * The lines of one comment: its label, a fenced diff block exactly when the
   * snippet is non-empty, its text, and an empty line.
   */
  function CommentBlock(c: Comment): (block: seq<string>)
    ensures |block| == if c.diffSnippet != "" then 6 else 3
    ensures block[0] == Label(c)
    ensures c.diffSnippet != "" ==> block[1..4] == ["```diff", c.diffSnippet, "```"]
    ensures block[|block| - 2..] == [c.text, ""]
  {
    [Label(c)]
    + (if c.diffSnippet != "" then ["```diff", c.diffSnippet, "```"] else [])
    + [c.text, ""]
  }

  /** The blocks of a file's comments, in their order. */
  function Blocks(group: seq<Comment>): seq<string>
  {
    if |group| == 0 then [] else Blocks(group[..|group| - 1]) + CommentBlock(group[|group| - 1])
  }

  /** A file's heading, an empty line, then the blocks of that file's comments. */
  function FileSection(cs: seq<Comment>, p: string): seq<string>
  {
    ["### " + p, ""] + Blocks(CommentsOf(cs, p))
  }

  function Sections(cs: seq<Comment>, ps: seq<string>): seq<string>
  {
    if |ps| == 0 then [] else Sections(cs, ps[..|ps| - 1]) + FileSection(cs, ps[|ps| - 1])
  }

  lemma SectionsSnoc(cs: seq<Comment>, ps: seq<string>, p: string)
    ensures Sections(cs, ps + [p]) == Sections(cs, ps) + (["### " + p, ""] + Blocks(CommentsOf(cs, p)))
  {
    assert (ps + [p])[..|ps|] == ps;
  }

  lemma SectionsStep(cs: seq<Comment>, ps: seq<string>, j: nat)
    requires j < |ps|
    ensures Sections(cs, ps[..j + 1]) == Sections(cs, ps[..j]) + FileSection(cs, ps[j])
  {
    assert ps[..j + 1][..j] == ps[..j];
  }

  /** The document's lines: the header, one section per file in first-appearance order, the footer. */
  function FeedbackLines(cs: seq<Comment>): seq<string>
  {
    HeaderLines + Sections(cs, Paths(cs)) + FooterLines
  }

  /** The document: "" for no comments, the lines joined by newlines otherwise. */
  function Feedback(cs: seq<Comment>): (doc: string)
    ensures doc == "" <==> |cs| == 0
  {
    if |cs| == 0 then ""
    else
      FeedbackFrame(cs);
      Join(FeedbackLines(cs), "\n")
  }

  /**
   * A non-empty document starts with the title line and ends with the rule
   * and the closing sentence, with no newline after it.
   */
  lemma FeedbackFrame(cs: seq<Comment>)
    requires |cs| > 0
    ensures Title + "\n" <= Join(FeedbackLines(cs), "\n")
    ensures var doc := Join(FeedbackLines(cs), "\n");
      |doc| >= |Closing| + 5 && doc[|doc| - |Closing| - 5..] == "\n---\n" + Closing
  {
    var h, body := HeaderLines, Sections(cs, Paths(cs));
    ConsTail(h);
    AppendAssoc([h[0]], h[1..], body);
    JoinEnds(Title, h[1..] + body, "---", Closing, "\n");
  }

  /** The map holds, in insertion order `order`, exactly the groups of `cs`. */
  ghost predicate Grouped(cs: seq<Comment>, order: seq<string>, byFile: map<string, seq<Comment>>)
  {
    && order == Paths(cs)
    && (forall p :: p in byFile <==> p in order)
    && (forall p :: p in byFile ==> byFile[p] == CommentsOf(cs, p))
    && (forall p :: p !in byFile ==> CommentsOf(cs, p) == [])
  }

  /** One iteration of the grouping loop keeps the map the grouping of the longer prefix. */
  lemma GroupedSnoc(cs: seq<Comment>, c: Comment, order: seq<string>, byFile: map<string, seq<Comment>>)
    requires Grouped(cs, order, byFile)
    ensures Grouped(cs + [c],
      if c.filePath in byFile then order else order + [c.filePath],
      byFile[c.filePath := (if c.filePath in byFile then byFile[c.filePath] else []) + [c]])
  {
    PathsSnoc(cs, c);
    KeysSnoc(order, byFile, c.filePath, (if c.filePath in byFile then byFile[c.filePath] else []) + [c]);
    GroupsSnoc(cs, c, byFile);
  }

  /** With the new comment pushed onto its file's group, every group is that of the longer list. */
  lemma GroupsSnoc(cs: seq<Comment>, c: Comment, byFile: map<string, seq<Comment>>)
    requires forall p :: p in byFile ==> byFile[p] == CommentsOf(cs, p)
    requires forall p :: p !in byFile ==> CommentsOf(cs, p) == []
    ensures var byFile' := byFile[c.filePath := (if c.filePath in byFile then byFile[c.filePath] else []) + [c]];
      && (forall p :: p in byFile' ==> byFile'[p] == CommentsOf(cs + [c], p))
      && (forall p :: p !in byFile' ==> CommentsOf(cs + [c], p) == [])
  {
    var byFile' := byFile[c.filePath := (if c.filePath in byFile then byFile[c.filePath] else []) + [c]];
    forall p | p in byFile' ensures byFile'[p] == CommentsOf(cs + [c], p) {
      CommentsOfSnoc(cs, c, p);
    }
    forall p | p !in byFile' ensures CommentsOf(cs + [c], p) == [] {
      CommentsOfSnoc(cs, c, p);
    }
  }

  /** The first loop of the formatter: the comments grouped in an insertion-ordered map. */
  method GroupByPath(comments: seq<Comment>) returns (order: seq<string>, byFile: map<string, seq<Comment>>)
    ensures order == Paths(comments)
    ensures forall p :: p in byFile <==> p in order
    ensures forall p :: p in byFile ==> byFile[p] == CommentsOf(comments, p)
  {
    byFile := map[];
    order := [];
    var i := 0;
    while i < |comments|
      invariant 0 <= i <= |comments|
      invariant Grouped(comments[..i], order, byFile)
    {
      var c := comments[i];
      GroupedSnoc(comments[..i], c, order, byFile);
      PrefixSnoc(comments, i);
      var existing := if c.filePath in byFile then byFile[c.filePath] else [];
      existing := existing + [c];
      if c.filePath !in byFile {
        order := order + [c.filePath];
      }
      byFile := byFile[c.filePath := existing];
      i := i + 1;
    }
    assert comments[..i] == comments;
  }

  /** The lines one comment pushes onto the document. */
  method PushComment(lines: seq<string>, c: Comment) returns (r: seq<string>)
    ensures r == lines + CommentBlock(c)
  {
    r := lines;
    if c.isDeletedFile {
      r := r + [DeletionLabel];
    } else if HasLine(c) {
      r := r + ["**Line " + IntToString(c.lineNumber.value) + " specifically:**"];
    } else {
      r := r + ["**Lines " + IntToString(c.startLine) + "-" + IntToString(c.endLine) + ":**"];
    }
    var fence: seq<string> := [];
    if c.diffSnippet != "" {
      fence := ["```diff", c.diffSnippet, "```"];
      r := r + fence;
    } else {
      assert r + fence == r;
    }
    r := r + [c.text, ""];
    AppendAssoc4(lines, [Label(c)], fence, [c.text, ""]);
  }

  /** The blocks of the first k + 1 comments: those of the first k, then the next one's. */
  lemma BlocksStep(group: seq<Comment>, k: nat)
    requires k < |group|
    ensures Blocks(group[..k + 1]) == Blocks(group[..k]) + CommentBlock(group[k])
  {
    assert group[..k + 1][..k] == group[..k];
  }

  /** The lines one file pushes: its heading, an empty line, then each comment's lines. */
  method PushSection(lines: seq<string>, p: string, group: seq<Comment>) returns (r: seq<string>)
    ensures r == lines + (["### " + p, ""] + Blocks(group))
  {
    var heading := ["### " + p, ""];
    r := lines + heading;
    ghost var start := r;
    var k := 0;
    while k < |group|
      invariant 0 <= k <= |group|
      invariant r == start + Blocks(group[..k])
    {
      r := PushComment(r, group[k]);
      BlocksStep(group, k);
      AppendAssoc(start, Blocks(group[..k]), CommentBlock(group[k]));
      k := k + 1;
    }
    assert group[..k] == group;
    AppendAssoc(lines, heading, Blocks(group));
  }

  /** The second loop: each file's section pushed after `prefix`, in the map's order. */
  method PushSections(prefix: seq<string>, comments: seq<Comment>, order: seq<string>, byFile: map<string, seq<Comment>>)
    returns (lines: seq<string>)
    requires forall p :: p in order ==> p in byFile && byFile[p] == CommentsOf(comments, p)
    ensures lines == prefix + Sections(comments, order)
  {
    lines := prefix;
    var j := 0;
    while j < |order|
      invariant 0 <= j <= |order|
      invariant lines == prefix + Sections(comments, order[..j])
    {
      var p := order[j];
      lines := PushSection(lines, p, byFile[p]);
      SectionsStep(comments, order, j);
      AppendAssoc(prefix, Sections(comments, order[..j]), FileSection(comments, p));
      j := j + 1;
    }
    assert order[..j] == order;
  }

  method FormatFeedback(comments: seq<Comment>) returns (doc: string)
    ensures doc == Feedback(comments)
  {
    if |comments| == 0 {
      return "";
    }
    var lines := HeaderLines;
    var order, byFile := GroupByPath(comments);
    lines := PushSections(lines, comments, order, byFile);
    ghost var body := lines;
    lines := lines + ["---"];
    lines := lines + [Closing];
    AppendTwo(body, "---", Closing);
    doc := Join(lines, "\n");
  }

  function FormatAborted(): string
  {
    "ABORTED"
  }

  /** The sentinel can never be mistaken for a feedback document. */
  lemma AbortedIsNeverFeedback(cs: seq<Comment>)
    ensures FormatAborted() != Feedback(cs)
  {
    if |cs| > 0 {
      FeedbackFrame(cs);
      assert |Title + "\n"| > |FormatAborted()|;
    }
  }

  /** The characters that tell the three kinds of label apart. */
  lemma LabelShape(c: Comment)
    ensures |Label(c)| > 7
    ensures Label(c)[2] == if c.isDeletedFile then 'R' else 'L'
    ensures !c.isDeletedFile ==> Label(c)[6] == if HasLine(c) then ' ' else 's'
  {
  }

  /**
   * The label tells the three cases apart, and a line label tells the line:
   * equal labels mean the same case and, for line labels, the same number.
   */
  lemma LabelIdentifiesLocation(c: Comment, d: Comment)
    requires Label(c) == Label(d)
    ensures c.isDeletedFile <==> d.isDeletedFile
    ensures !c.isDeletedFile ==> (HasLine(c) <==> HasLine(d))
    ensures !c.isDeletedFile && HasLine(c) ==> c.lineNumber == d.lineNumber
  {
    LabelShape(c);
    LabelShape(d);
    if !c.isDeletedFile && HasLine(c) {
      var l := Label(c);
      var m, n := IntToString(c.lineNumber.value), IntToString(d.lineNumber.value);
      var suffix := " specifically:**";
      assert m == l[7..|l| - |suffix|];
      assert n == l[7..|l| - |suffix|];
      IntToStringInjective(c.lineNumber.value, d.lineNumber.value);
    }
  }

  /**
   * The formatter's test comments: a hunk comment on lines 10-12, a comment
   * on line 15, and a comment on a deleted file, which carries no fence.
   */
  lemma LabelExamples(path: string, text: string)
    ensures Label(Comment(path, 0, None, text, "+x", 10, 12, false)) == "**Lines 10-12:**"
    ensures Label(Comment(path, 0, Some(15), text, "+x", 15, 15, false)) == "**Line 15 specifically:**"
    ensures CommentBlock(Comment(path, 0, None, text, "", 1, 10, true)) == [DeletionLabel, text, ""]
  {
    TwoDigits(10);
    TwoDigits(12);
    TwoDigits(15);
    RangeLiteral(IntToString(10), IntToString(12));
    LineLiteral(IntToString(15));
  }

  lemma RangeLiteral(a: string, b: string)
    requires a == "10" && b == "12"
    ensures "**Lines " + a + "-" + b + ":**" == "**Lines 10-12:**"
  {
  }

  lemma LineLiteral(a: string)
    requires a == "15"
    ensures "**Line " + a + " specifically:**" == "**Line 15 specifically:**"
  {
  }
}
