/**
 * The summary screen (src/cli/Summary.tsx): the comments grouped by file with
 * their positions in the list, their location labels and counts, and the
 * keys that submit, discard, or pick a comment to edit or delete.
 *
 * `SummaryStep` specifies one keypress as a function of the screen's state;
 * the class `SummaryScreen` performs it on its fields.
 */
module Summary {
  import opened Util
  import opened Types
  import opened Keys
  import opened Grouping

  /** The map holds, in insertion order `order`, exactly the indexed groups of `cs`. */
  ghost predicate IndexedGroups(cs: seq<Comment>, order: seq<string>, byFile: map<string, seq<Indexed>>)
  {
    && order == Paths(cs)
    && (forall p :: p in byFile <==> p in order)
    && (forall p :: p in byFile ==> byFile[p] == IndexedOf(cs, p))
    && (forall p :: p !in byFile ==> IndexedOf(cs, p) == [])
  }

  /** One iteration of the grouping loop keeps the map the indexed grouping of the longer prefix. */
  lemma IndexedGroupsSnoc(cs: seq<Comment>, c: Comment, order: seq<string>, byFile: map<string, seq<Indexed>>)
    requires IndexedGroups(cs, order, byFile)
    ensures IndexedGroups(cs + [c],
      if c.filePath in byFile then order else order + [c.filePath],
      byFile[c.filePath := (if c.filePath in byFile then byFile[c.filePath] else []) + [Indexed(c, |cs|)]])
  {
    PathsSnoc(cs, c);
    KeysSnoc(order, byFile, c.filePath, (if c.filePath in byFile then byFile[c.filePath] else []) + [Indexed(c, |cs|)]);
    IndexedGroupsStep(cs, c, byFile);
  }

  /** With the new entry pushed onto its file's group, every group is that of the longer list. */
  lemma IndexedGroupsStep(cs: seq<Comment>, c: Comment, byFile: map<string, seq<Indexed>>)
    requires forall p :: p in byFile ==> byFile[p] == IndexedOf(cs, p)
    requires forall p :: p !in byFile ==> IndexedOf(cs, p) == []
    ensures var byFile' := byFile[c.filePath := (if c.filePath in byFile then byFile[c.filePath] else []) + [Indexed(c, |cs|)]];
      && (forall p :: p in byFile' ==> byFile'[p] == IndexedOf(cs + [c], p))
      && (forall p :: p !in byFile' ==> IndexedOf(cs + [c], p) == [])
  {
    var byFile' := byFile[c.filePath := (if c.filePath in byFile then byFile[c.filePath] else []) + [Indexed(c, |cs|)]];
    forall p | p in byFile' ensures byFile'[p] == IndexedOf(cs + [c], p) {
      IndexedOfSnoc(cs, c, p);
    }
    forall p | p !in byFile' ensures IndexedOf(cs + [c], p) == [] {
      IndexedOfSnoc(cs, c, p);
    }
  }

  /** The grouping loop: an insertion-ordered map from path to the file's comments and their positions. */
  method GroupByFile(comments: seq<Comment>) returns (order: seq<string>, byFile: map<string, seq<Indexed>>)
    ensures order == Paths(comments)
    ensures forall p :: p in byFile <==> p in order
    ensures forall p :: p in byFile ==> byFile[p] == IndexedOf(comments, p)
  {
    byFile := map[];
    order := [];
    var globalIndex := 0;
    while globalIndex < |comments|
      invariant 0 <= globalIndex <= |comments|
      invariant IndexedGroups(comments[..globalIndex], order, byFile)
    {
      var comment := comments[globalIndex];
      IndexedGroupsSnoc(comments[..globalIndex], comment, order, byFile);
      PrefixSnoc(comments, globalIndex);
      var existing := if comment.filePath in byFile then byFile[comment.filePath] else [];
      existing := existing + [Indexed(comment, globalIndex)];
      if comment.filePath !in byFile {
        order := order + [comment.filePath];
      }
      byFile := byFile[comment.filePath := existing];
      globalIndex := globalIndex + 1;
    }
    assert comments[..globalIndex] == comments;
  }

  lemma IndexedOfSnoc(cs: seq<Comment>, c: Comment, p: string)
    ensures IndexedOf(cs + [c], p) == IndexedOf(cs, p) + (if c.filePath == p then [Indexed(c, |cs|)] else [])
  {
    assert (cs + [c])[..|cs|] == cs;
  }

  /** The bracketed location: deletion first, then a truthy line number, then the hunk counted from 1. */
  function LocationLabel(c: Comment): (loc: string)
    ensures loc == "deletion" || (|loc| > 5 && (loc[..5] == "line " || loc[..5] == "hunk "))
  {
    if c.isDeletedFile then "deletion"
    else if HasLine(c) then "line " + IntToString(c.lineNumber.value)
    else "hunk " + IntToString(c.hunkIndex + 1)
  }

  /**
   * The label tells the three cases apart (by its first letter), and within a
   * case it tells the line, or the hunk, of the comment.
   */
  lemma LocationLabelIdentifiesLocation(c: Comment, d: Comment)
    requires LocationLabel(c) == LocationLabel(d)
    ensures c.isDeletedFile <==> d.isDeletedFile
    ensures !c.isDeletedFile ==> (HasLine(c) <==> HasLine(d))
    ensures !c.isDeletedFile && HasLine(c) ==> c.lineNumber == d.lineNumber
    ensures !c.isDeletedFile && !HasLine(c) ==> c.hunkIndex == d.hunkIndex
  {
    var l := LocationLabel(c);
    assert l[0] == LocationLabel(d)[0];
    if !c.isDeletedFile && !d.isDeletedFile {
      if HasLine(c) && HasLine(d) {
        assert IntToString(c.lineNumber.value) == l[5..];
        assert IntToString(d.lineNumber.value) == l[5..];
        IntToStringInjective(c.lineNumber.value, d.lineNumber.value);
      } else if !HasLine(c) && !HasLine(d) {
        assert IntToString(c.hunkIndex + 1) == l[5..];
        assert IntToString(d.hunkIndex + 1) == l[5..];
        IntToStringInjective(c.hunkIndex + 1, d.hunkIndex + 1);
      }
    }
  }

  /** The counts line: `N comment(s) across M file(s)`, M being the map's size. */
  function CountsLine(comments: seq<Comment>): string
  {
    var commentCount, fileCount := |comments|, |Paths(comments)|;
    NatToString(commentCount) + " comment" + Plural(commentCount) + " across "
    + NatToString(fileCount) + " file" + Plural(fileCount)
  }

  lemma CountsLineSingle(c: Comment)
    ensures CountsLine([c]) == "1 comment across 1 file"
  {
    PathsOfOne(c);
    var one := NatToString(1);
    SmallNumerals();
    assert one + " comment" + Plural(1) + " across " + one + " file" + Plural(1) == "1 comment across 1 file";
  }

  lemma CountsLinePair(c: Comment, d: Comment)
    requires c.filePath == d.filePath
    ensures CountsLine([c, d]) == "2 comments across 1 file"
  {
    PathsOfPair(c, d);
    var one, two := NatToString(1), NatToString(2);
    SmallNumerals();
    assert two + " comment" + Plural(2) + " across " + one + " file" + Plural(1) == "2 comments across 1 file";
  }

  /** One comment reads in the singular, two comments on one file in the plural for comments only. */
  lemma CountsLineExamples(c: Comment, d: Comment)
    requires c.filePath == d.filePath
    ensures CountsLine([c]) == "1 comment across 1 file"
    ensures CountsLine([c, d]) == "2 comments across 1 file"
  {
    CountsLineSingle(c);
    CountsLinePair(c, d);
  }

  /** The file count is the number of distinct paths: at least one, and at most one per comment. */
  lemma FileCount(comments: seq<Comment>)
    ensures |Paths(comments)| == |set k | 0 <= k < |comments| :: comments[k].filePath|
    ensures |Paths(comments)| <= |comments|
    ensures |comments| > 0 ==> |Paths(comments)| >= 1
  {
    PathCount(comments);
    if |comments| > 0 {
      PathOf(comments, 0);
    }
  }

  datatype Mode = View | EditSelect | EditInput | DeleteSelect

  datatype SummaryCallback = NoCallback | OnSubmit | OnDiscard | OnEdit(index: int, text: string) | OnDelete(index: int)

  datatype Outcome = Outcome(mode: Mode, selectedIndex: int, editInput: string, callback: SummaryCallback)

  predicate Selecting(mode: Mode) { mode == EditSelect || mode == DeleteSelect }

  /** Outside view mode the selection is a position in the list. */
  predicate SelectionValid(mode: Mode, selectedIndex: int, n: nat)
  {
    mode != View ==> 0 <= selectedIndex < n
  }

  /**
   * In the view, Enter submits and `q` discards, without changing the mode or
   * the selection; every other key that does not start a selection does nothing.
   */
  lemma ViewEnterAndQuit(sel: int, edit: string, ev: KeyEvent, comments: seq<Comment>)
    ensures ev.enter ==> SummaryStep(View, sel, edit, ev, comments) == Outcome(View, sel, edit, OnSubmit)
    ensures !ev.enter && ev.input == "q" ==> SummaryStep(View, sel, edit, ev, comments) == Outcome(View, sel, edit, OnDiscard)
    ensures !ev.enter && ev.input != "q" && ((ev.input != "e" && ev.input != "d") || |comments| == 0) ==>
      SummaryStep(View, sel, edit, ev, comments) == Outcome(View, sel, edit, NoCallback)
  {
  }

  /** One keypress on the summary screen. */
  function SummaryStep(mode: Mode, sel: int, edit: string, ev: KeyEvent, comments: seq<Comment>): (o: Outcome)
    requires SelectionValid(mode, sel, |comments|)
    ensures SelectionValid(o.mode, o.selectedIndex, |comments|)
  {
    var same := Outcome(mode, sel, edit, NoCallback);
    match mode
    case View =>
      if ev.enter then Outcome(mode, sel, edit, OnSubmit)
      else if ev.input == "e" && |comments| > 0 then Outcome(EditSelect, 0, edit, NoCallback)
      else if ev.input == "d" && |comments| > 0 then Outcome(DeleteSelect, 0, edit, NoCallback)
      else if ev.input == "q" then Outcome(mode, sel, edit, OnDiscard)
      else same
    case EditSelect => SelectStep(mode, sel, edit, ev, comments)
    case DeleteSelect => SelectStep(mode, sel, edit, ev, comments)
    case EditInput =>
      if ev.escape then Outcome(View, sel, edit, NoCallback)
      else if ev.enter then Outcome(View, sel, edit, OnEdit(sel, edit))
      else if ev.backspace || ev.delete then Outcome(mode, sel, if |edit| == 0 then "" else edit[..|edit| - 1], NoCallback)
      else if ev.input != "" && !ev.ctrl && !ev.meta then Outcome(mode, sel, edit + ev.input, NoCallback)
      else same
  }

  function SelectStep(mode: Mode, sel: int, edit: string, ev: KeyEvent, comments: seq<Comment>): (o: Outcome)
    requires Selecting(mode) && 0 <= sel < |comments|
    ensures SelectionValid(o.mode, o.selectedIndex, |comments|)
  {
    if ev.escape then Outcome(View, sel, edit, NoCallback)
    else if ev.upArrow then Outcome(mode, Max(0, sel - 1), edit, NoCallback)
    else if ev.downArrow then Outcome(mode, Min(|comments| - 1, sel + 1), edit, NoCallback)
    else if ev.enter then
      if mode == EditSelect then Outcome(EditInput, sel, comments[sel].text, NoCallback)
      else Outcome(View, sel, edit, OnDelete(sel))
    else Outcome(mode, sel, edit, NoCallback)
  }

  class SummaryScreen {
    var mode: Mode
    var selectedIndex: int
    var editInput: string

    constructor ()
      ensures mode == View && selectedIndex == 0 && editInput == ""
    {
      mode := View;
      selectedIndex := 0;
      editInput := "";
    }

    method HandleKey(ev: KeyEvent, comments: seq<Comment>) returns (cb: SummaryCallback)
      requires SelectionValid(mode, selectedIndex, |comments|)
      modifies this
      ensures Outcome(mode, selectedIndex, editInput, cb) == SummaryStep(old(mode), old(selectedIndex), old(editInput), ev, comments)
      ensures SelectionValid(mode, selectedIndex, |comments|)
    {
      cb := NoCallback;
      if mode == View {
        if ev.enter {
          cb := OnSubmit;
        } else if ev.input == "e" && |comments| > 0 {
          mode := EditSelect;
          selectedIndex := 0;
        } else if ev.input == "d" && |comments| > 0 {
          mode := DeleteSelect;
          selectedIndex := 0;
        } else if ev.input == "q" {
          cb := OnDiscard;
        }
      } else if mode == EditSelect || mode == DeleteSelect {
        if ev.escape {
          mode := View;
        } else if ev.upArrow {
          selectedIndex := Max(0, selectedIndex - 1);
        } else if ev.downArrow {
          selectedIndex := Min(|comments| - 1, selectedIndex + 1);
        } else if ev.enter {
          if mode == EditSelect {
            editInput := comments[selectedIndex].text;
            mode := EditInput;
          } else {
            cb := OnDelete(selectedIndex);
            mode := View;
          }
        }
      } else {
        if ev.escape {
          mode := View;
        } else if ev.enter {
          cb := OnEdit(selectedIndex, editInput);
          mode := View;
        } else if ev.backspace || ev.delete {
          editInput := if |editInput| == 0 then "" else editInput[..|editInput| - 1];
        } else if ev.input != "" && !ev.ctrl && !ev.meta {
          editInput := editInput + ev.input;
        }
      }
    }
  }

  /** In the view, `e` and `d` start a selection at the first comment, and only when there is one. */
  lemma ViewStartsSelection(edit: string, sel: int, ev: KeyEvent, comments: seq<Comment>)
    requires !ev.enter && (ev.input == "e" || ev.input == "d")
    ensures var o := SummaryStep(View, sel, edit, ev, comments);
      && (|comments| > 0 ==> Selecting(o.mode) && o.selectedIndex == 0)
      && (|comments| == 0 ==> o.mode == View)
      && o.callback == NoCallback
  {
  }

  /** Up and Down move the selection by one, stopping at both ends of the list. */
  lemma SelectionClamped(mode: Mode, sel: int, edit: string, ev: KeyEvent, comments: seq<Comment>)
    requires Selecting(mode) && 0 <= sel < |comments| && !ev.escape && (ev.upArrow || ev.downArrow)
    ensures var o := SummaryStep(mode, sel, edit, ev, comments);
      && o.mode == mode && o.callback == NoCallback
      && 0 <= o.selectedIndex < |comments|
      && (ev.upArrow ==> o.selectedIndex == if sel > 0 then sel - 1 else 0)
      && (!ev.upArrow ==> o.selectedIndex == if sel + 1 < |comments| then sel + 1 else sel)
  {
  }

  /** Escape leaves any selection or edit for the view without a callback. */
  lemma EscapeBackToView(mode: Mode, sel: int, edit: string, ev: KeyEvent, comments: seq<Comment>)
    requires mode != View && 0 <= sel < |comments| && ev.escape
    ensures SummaryStep(mode, sel, edit, ev, comments) == Outcome(View, sel, edit, NoCallback)
  {
  }

  /**
   * Picking a comment to edit preloads its text; Enter then hands back the
   * edited text for that same position, once, and returns to the view.
   */
  lemma EditRoundTrip(sel: int, edit: string, ev: KeyEvent, comments: seq<Comment>)
    requires 0 <= sel < |comments| && ev.enter && !ev.escape && !ev.upArrow && !ev.downArrow
    ensures var o := SummaryStep(EditSelect, sel, edit, ev, comments);
      && o == Outcome(EditInput, sel, comments[sel].text, NoCallback)
      && SummaryStep(o.mode, o.selectedIndex, o.editInput, ev, comments)
           == Outcome(View, sel, comments[sel].text, OnEdit(sel, comments[sel].text))
  {
  }

  /** Picking a comment to delete asks for that one deletion and returns to the view. */
  lemma DeletePicksSelection(sel: int, edit: string, ev: KeyEvent, comments: seq<Comment>)
    requires 0 <= sel < |comments| && ev.enter && !ev.escape && !ev.upArrow && !ev.downArrow
    ensures SummaryStep(DeleteSelect, sel, edit, ev, comments) == Outcome(View, sel, edit, OnDelete(sel))
  {
  }

  /**
   * An edit or delete request always names a comment on the list and leaves
   * the screen in the view, where the selection no longer matters.
   */
  lemma CallbacksNameAListedComment(mode: Mode, sel: int, edit: string, ev: KeyEvent, comments: seq<Comment>)
    requires SelectionValid(mode, sel, |comments|)
    ensures var o := SummaryStep(mode, sel, edit, ev, comments);
      && (o.callback.OnEdit? ==> 0 <= o.callback.index < |comments| && o.callback.index == sel && o.mode == View)
      && (o.callback.OnDelete? ==> 0 <= o.callback.index < |comments| && o.callback.index == sel && o.mode == View)
      && (o.callback.OnSubmit? || o.callback.OnDiscard? ==> mode == View)
  {
  }
}
