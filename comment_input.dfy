/**
 * The comment line editor of the review screen
 * (src/cli/components/CommentInput.tsx): a text buffer and an optional target
 * line, a `:N` prefix that aims a comment at line N, and the keys that skip,
 * go back, finish or submit.
 *
 * `KeyStep` specifies one keypress as a function of the state; the class
 * `LineInput` performs it on its fields.
 */
module CommentInput {
  import opened Util
  import opened Keys

  /** parseLineTarget: the number right after a leading ':', if digits follow it. */
  function ParseLineTarget(s: string): (r: Option<nat>)
    ensures r.Some? <==> |s| >= 2 && s[0] == ':' && IsDigit(s[1])
  {
    if |s| >= 2 && s[0] == ':' && IsDigit(s[1]) then Some(ParseDigits(TakeWhile(s[1..], IsDigit))) else None
  }

  datatype LineComment = LineComment(line: nat, text: string)

  predicate NotLineTerminator(c: char) { !IsLineTerminator(c) }

  /**
   * The groups of `^:(\d+)\s*(.*)`: the digit run, then, after the whitespace
   * that follows it, everything up to the first line terminator.
   */
  function ParseLineComment(s: string): (r: Option<LineComment>)
    ensures r.Some? <==> ParseLineTarget(s).Some?
    ensures r.Some? ==> r.value.line == ParseLineTarget(s).value
  {
    if |s| >= 2 && s[0] == ':' && IsDigit(s[1]) then
      var digits := TakeWhile(s[1..], IsDigit);
      var after := s[1 + |digits|..];
      var ws := TakeWhile(after, IsWhitespace);
      Some(LineComment(ParseDigits(digits), TakeWhile(after[|ws|..], NotLineTerminator)))
    else None
  }

  /** What a key asks of the review screen. */
  datatype Callback = NoCallback | OnEscape | OnBack | OnSkip | OnSubmit(text: string, line: Option<nat>)

  /** Whether a key calls onLineTargetChange, and with what. */
  datatype TargetChange = Keep | Target(line: Option<nat>)

  datatype Reaction = Reaction(callback: Callback, target: TargetChange)

  /** The buffer and line mode after a key, and what the key asked for. */
  datatype Outcome = Outcome(input: string, lineMode: Option<nat>, reaction: Reaction)

  const Quiet := Reaction(NoCallback, Keep)

  /** JavaScript `s.slice(0, -1)`. */
  function DropLast(s: string): (r: string)
    ensures r <= s && |r| == Max(0, |s| - 1)
  {
    if |s| == 0 then "" else s[..|s| - 1]
  }

  /** updateInput: the new buffer, announcing the line mode if set, else the line the buffer names. */
  function Edited(newInput: string, lineMode: Option<nat>): Outcome
  {
    Outcome(newInput, lineMode,
      Reaction(NoCallback, Target(if lineMode.Some? then lineMode else ParseLineTarget(newInput))))
  }

  function EnterStep(input: string, lineMode: Option<nat>): Outcome
  {
    if input == "" then Outcome(input, lineMode, Reaction(OnSkip, Target(None)))
    else if input[0] == ':' then
      match ParseLineComment(input)
      case None => Outcome(input, lineMode, Quiet)
      case Some(lc) =>
        if lc.text != "" then Outcome("", lineMode, Reaction(OnSubmit(lc.text, Some(lc.line)), Target(None)))
        else Outcome("", Some(lc.line), Reaction(NoCallback, Target(Some(lc.line))))
    else if lineMode.Some? then Outcome("", None, Reaction(OnSubmit(input, lineMode), Target(None)))
    else Outcome("", lineMode, Reaction(OnSubmit(input, None), Target(None)))
  }

  /** One keypress. */
  function KeyStep(input: string, lineMode: Option<nat>, ev: KeyEvent): Outcome
  {
    if ev.escape then Outcome(input, lineMode, Reaction(OnEscape, Target(None)))
    else if ev.upArrow && input == "" then Outcome(input, lineMode, Reaction(OnBack, Target(None)))
    else if ev.downArrow && input == "" then Outcome(input, lineMode, Reaction(OnSkip, Target(None)))
    else if ev.enter then EnterStep(input, lineMode)
    else if ev.backspace || ev.delete then Edited(DropLast(input), lineMode)
    else if ev.input != "" && !ev.ctrl && !ev.meta then Edited(input + ev.input, lineMode)
    else Outcome(input, lineMode, Quiet)
  }

  class LineInput {
    var input: string
    var lineMode: Option<nat>

    /** The buffer starts as the existing comment's text, with no line mode. */
    constructor (existingComment: string)
      ensures input == existingComment && lineMode == None
    {
      input := existingComment;
      lineMode := None;
    }

    method UpdateInput(newInput: string) returns (target: TargetChange)
      modifies this
      ensures Outcome(input, lineMode, Reaction(NoCallback, target)) == Edited(newInput, old(lineMode))
    {
      input := newInput;
      target := Target(if lineMode.Some? then lineMode else ParseLineTarget(newInput));
    }

    method HandleKey(ev: KeyEvent) returns (r: Reaction)
      modifies this
      ensures Outcome(input, lineMode, r) == KeyStep(old(input), old(lineMode), ev)
    {
      if ev.escape {
        return Reaction(OnEscape, Target(None));
      }
      if ev.upArrow && input == "" {
        return Reaction(OnBack, Target(None));
      }
      if ev.downArrow && input == "" {
        return Reaction(OnSkip, Target(None));
      }
      if ev.enter {
        if input == "" {
          r := Reaction(OnSkip, Target(None));
        } else if input[0] == ':' {
          var parsed := ParseLineComment(input);
          r := Quiet;
          if parsed.Some? {
            var lineNum, comment := parsed.value.line, parsed.value.text;
            if comment != "" {
              r := Reaction(OnSubmit(comment, Some(lineNum)), Target(None));
              input := "";
            } else {
              lineMode := Some(lineNum);
              input := "";
              r := Reaction(NoCallback, Target(Some(lineNum)));
            }
          }
        } else if lineMode.Some? {
          r := Reaction(OnSubmit(input, lineMode), Target(None));
          lineMode := None;
          input := "";
        } else {
          r := Reaction(OnSubmit(input, None), Target(None));
          input := "";
        }
        return;
      }
      if ev.backspace || ev.delete {
        var target := UpdateInput(DropLast(input));
        return Reaction(NoCallback, target);
      }
      if ev.input != "" && !ev.ctrl && !ev.meta {
        var target := UpdateInput(input + ev.input);
        return Reaction(NoCallback, target);
      }
      r := Quiet;
    }
  }

  // ---------------------------------------------------------------------------
  // The line-target grammar

  /** `:N` followed by anything that is not a digit names line N. */
  lemma LineTargetOf(n: nat, rest: string)
    requires |rest| == 0 || !IsDigit(rest[0])
    ensures ParseLineTarget(":" + NatToString(n) + rest) == Some(n)
  {
    DigitRunThenAfter(NatToString(n), rest);
    ParseNatToString(n);
  }

  /** The regular expression's groups once the digit run is known. */
  lemma ParseLineCommentPieces(digits: string, after: string)
    requires |digits| >= 1 && AllDigits(digits)
    requires |after| == 0 || !IsDigit(after[0])
    ensures var ws := TakeWhile(after, IsWhitespace);
      ParseLineComment(":" + digits + after)
        == Some(LineComment(ParseDigits(digits), TakeWhile(after[|ws|..], NotLineTerminator)))
  {
    DigitRunThenAfter(digits, after);
  }

  /** The greedy digit run of `:digits after` is `digits`, and `after` is what is left. */
  lemma DigitRunThenAfter(digits: string, after: string)
    requires |digits| >= 1 && AllDigits(digits)
    requires |after| == 0 || !IsDigit(after[0])
    ensures var s := ":" + digits + after;
      && |s| >= 2 && s[0] == ':' && IsDigit(s[1])
      && TakeWhile(s[1..], IsDigit) == digits
      && s[1 + |digits|..] == after
  {
    var s := ":" + digits + after;
    assert s[1..] == digits + after;
    TakeWhileUnique(s[1..], IsDigit, digits, after);
    assert s[1 + |digits|..] == after;
  }

  /**
   * `:N`, whitespace, then a text without line terminators that does not
   * start with whitespace (nor with a digit, when there is no whitespace)
   * parses back into N and that text.
   */
  lemma LineCommentOf(n: nat, ws: string, text: string)
    requires Blank(ws)
    requires |text| == 0 || !IsWhitespace(text[0])
    requires |ws| == 0 && |text| > 0 ==> !IsDigit(text[0])
    requires forall k :: 0 <= k < |text| ==> !IsLineTerminator(text[k])
    ensures ParseLineComment(":" + NatToString(n) + ws + text) == Some(LineComment(n, text))
  {
    var prefix := ":" + NatToString(n);
    AppendAssoc(prefix, ws, text);
    LineCommentAfter(n, ws + text, ws, text);
  }

  lemma LineCommentAfter(n: nat, after: string, ws: string, text: string)
    requires after == ws + text && Blank(ws)
    requires |text| == 0 || !IsWhitespace(text[0])
    requires |ws| == 0 && |text| > 0 ==> !IsDigit(text[0])
    requires forall k :: 0 <= k < |text| ==> !IsLineTerminator(text[k])
    ensures ParseLineComment(":" + NatToString(n) + after) == Some(LineComment(n, text))
  {
    NoDigitAfter(after, ws, text);
    ParseLineCommentPieces(NatToString(n), after);
    ParseNatToString(n);
    GroupsAfterDigits(after, ws, text);
  }

  /** What follows the digits cannot continue the digit run ... */
  lemma NoDigitAfter(after: string, ws: string, text: string)
    requires after == ws + text && Blank(ws)
    requires |ws| == 0 && |text| > 0 ==> !IsDigit(text[0])
    ensures |after| == 0 || !IsDigit(after[0])
  {
    if |ws| > 0 {
      assert after[0] == ws[0] && IsWhitespace(ws[0]);
    } else if |text| > 0 {
      assert after[0] == text[0];
    }
  }

  /** ... and it splits into the whitespace and the text. */
  lemma GroupsAfterDigits(after: string, ws: string, text: string)
    requires after == ws + text && Blank(ws)
    requires |text| == 0 || !IsWhitespace(text[0])
    requires forall k :: 0 <= k < |text| ==> !IsLineTerminator(text[k])
    ensures TakeWhile(after, IsWhitespace) == ws
    ensures TakeWhile(after[|ws|..], NotLineTerminator) == text
  {
    TakeWhileUnique(after, IsWhitespace, ws, text);
    assert after[|ws|..] == text;
    TakeWhileUnique(text, NotLineTerminator, text, "");
  }

  // ---------------------------------------------------------------------------
  // The keys

  predicate PlainEnter(ev: KeyEvent)
  {
    ev.enter && !ev.escape && !ev.upArrow && !ev.downArrow
  }

  /** Enter on an empty buffer skips the hunk and submits nothing. */
  lemma EnterOnEmptySkips(lineMode: Option<nat>, ev: KeyEvent)
    requires PlainEnter(ev)
    ensures KeyStep("", lineMode, ev) == Outcome("", lineMode, Reaction(OnSkip, Target(None)))
  {
  }

  /**
   * Enter on `:N`, optional whitespace and a text submits the text for line N
   * and clears the buffer; the line mode stays. Without whitespace the text
   * must not start with a digit, which would still belong to N.
   */
  lemma EnterSubmitsLineComment(n: nat, ws: string, text: string, lineMode: Option<nat>, ev: KeyEvent)
    requires PlainEnter(ev) && Blank(ws)
    requires text != "" && !IsWhitespace(text[0])
    requires |ws| == 0 ==> !IsDigit(text[0])
    requires forall k :: 0 <= k < |text| ==> !IsLineTerminator(text[k])
    ensures KeyStep(":" + NatToString(n) + ws + text, lineMode, ev)
         == Outcome("", lineMode, Reaction(OnSubmit(text, Some(n)), Target(None)))
  {
    LineCommentOf(n, ws, text);
  }

  /** `:5x`: no whitespace is needed before a text that does not start with a digit ... */
  lemma LineCommentWithoutSpace(ev: KeyEvent)
    requires PlainEnter(ev)
    ensures KeyStep(":5x", None, ev) == Outcome("", None, Reaction(OnSubmit("x", Some(5)), Target(None)))
  {
    var input := ":" + NatToString(5) + "" + "x";
    FiveColon(input, "", "x", ":5x");
    EnterSubmitsLineComment(5, "", "x", None, ev);
  }

  /** ... and `:5<tab>x` submits the same as `:5 x`. */
  lemma LineCommentAfterTab(ev: KeyEvent)
    requires PlainEnter(ev)
    ensures KeyStep(":5\tx", None, ev) == Outcome("", None, Reaction(OnSubmit("x", Some(5)), Target(None)))
  {
    var input := ":" + NatToString(5) + "\t" + "x";
    FiveColon(input, "\t", "x", ":5\tx");
    assert Blank("\t");
    EnterSubmitsLineComment(5, "\t", "x", None, ev);
  }

  lemma FiveColon(input: string, ws: string, text: string, literal: string)
    requires input == ":" + NatToString(5) + ws + text && literal == ":5" + ws + text
    ensures input == literal
  {
    assert NatToString(5) == "5";
  }

  /** Enter on `:N` and whitespace sets line mode N, clears the buffer, keeps N highlighted, submits nothing. */
  lemma EnterSetsLineMode(n: nat, ws: string, lineMode: Option<nat>, ev: KeyEvent)
    requires PlainEnter(ev) && Blank(ws)
    ensures KeyStep(":" + NatToString(n) + ws, lineMode, ev)
         == Outcome("", Some(n), Reaction(NoCallback, Target(Some(n))))
  {
    LineCommentOf(n, ws, "");
    assert ":" + NatToString(n) + ws + "" == ":" + NatToString(n) + ws;
  }

  /** Enter on ':' not followed by a digit changes nothing and calls nothing. */
  lemma EnterOnBareColonDoesNothing(input: string, lineMode: Option<nat>, ev: KeyEvent)
    requires PlainEnter(ev) && |input| >= 1 && input[0] == ':' && (|input| == 1 || !IsDigit(input[1]))
    ensures KeyStep(input, lineMode, ev) == Outcome(input, lineMode, Quiet)
  {
  }

  /** With a line mode set, Enter on other text submits it for that line and leaves line mode. */
  lemma EnterInLineMode(input: string, n: nat, ev: KeyEvent)
    requires PlainEnter(ev) && input != "" && input[0] != ':'
    ensures KeyStep(input, Some(n), ev) == Outcome("", None, Reaction(OnSubmit(input, Some(n)), Target(None)))
  {
  }

  /**
   * A ':' buffer is parsed even in line mode: `:M`, optional whitespace and a
   * text go to line M, and line mode stays N.
   */
  lemma ColonTakesPrecedence(m: nat, ws: string, text: string, n: nat, ev: KeyEvent)
    requires PlainEnter(ev) && Blank(ws)
    requires text != "" && !IsWhitespace(text[0])
    requires |ws| == 0 ==> !IsDigit(text[0])
    requires forall k :: 0 <= k < |text| ==> !IsLineTerminator(text[k])
    ensures KeyStep(":" + NatToString(m) + ws + text, Some(n), ev).lineMode == Some(n)
    ensures KeyStep(":" + NatToString(m) + ws + text, Some(n), ev).reaction.callback == OnSubmit(text, Some(m))
  {
    EnterSubmitsLineComment(m, ws, text, Some(n), ev);
  }

  /** Without a line mode, Enter on other text submits a hunk-level comment. */
  lemma EnterSubmitsHunkComment(input: string, ev: KeyEvent)
    requires PlainEnter(ev) && input != "" && input[0] != ':'
    ensures KeyStep(input, None, ev) == Outcome("", None, Reaction(OnSubmit(input, None), Target(None)))
  {
  }

  /** Up and Down go back or skip only on an empty buffer. */
  lemma ArrowsNavigateOnlyWhenEmpty(input: string, lineMode: Option<nat>, ev: KeyEvent)
    requires !ev.escape && (ev.upArrow || ev.downArrow)
    ensures var cb := KeyStep(input, lineMode, ev).reaction.callback;
      (cb == OnBack || cb == OnSkip) <==> input == ""
  {
  }

  /** Escape always finishes and changes nothing in the buffer. */
  lemma EscapeAlwaysFinishes(input: string, lineMode: Option<nat>, ev: KeyEvent)
    requires ev.escape
    ensures KeyStep(input, lineMode, ev) == Outcome(input, lineMode, Reaction(OnEscape, Target(None)))
  {
  }

  predicate Editing(ev: KeyEvent)
  {
    !ev.escape && !ev.upArrow && !ev.downArrow && !ev.enter
  }

  /** Backspace drops the last character; an empty buffer stays empty. */
  lemma BackspaceDropsOne(input: string, lineMode: Option<nat>, ev: KeyEvent)
    requires Editing(ev) && (ev.backspace || ev.delete)
    ensures var o := KeyStep(input, lineMode, ev);
      && (|input| > 0 ==> o.input + [input[|input| - 1]] == input)
      && (|input| == 0 ==> o.input == "")
      && o.lineMode == lineMode && o.reaction.callback == NoCallback
  {
  }

  /**
   * A typed text without Ctrl or Meta is appended and the line mode is kept;
   * the highlighted line is the line mode's number when one is set, and
   * otherwise the line the new buffer names.
   */
  lemma TypingAppends(input: string, lineMode: Option<nat>, ev: KeyEvent)
    requires Editing(ev) && !ev.backspace && !ev.delete && ev.input != "" && !ev.ctrl && !ev.meta
    ensures KeyStep(input, lineMode, ev) == Edited(input + ev.input, lineMode)
    ensures lineMode.Some? ==> KeyStep(input, lineMode, ev) == Outcome(input + ev.input, lineMode,
      Reaction(NoCallback, Target(lineMode)))
    ensures lineMode.None? ==> KeyStep(input, lineMode, ev) == Outcome(input + ev.input, None,
      Reaction(NoCallback, Target(ParseLineTarget(input + ev.input))))
  {
  }

  /** A key with Ctrl held (other than the named keys) leaves the editor alone. */
  lemma CtrlKeysIgnored(input: string, lineMode: Option<nat>, ev: KeyEvent)
    requires Editing(ev) && !ev.backspace && !ev.delete && ev.ctrl
    ensures KeyStep(input, lineMode, ev) == Outcome(input, lineMode, Quiet)
  {
  }
}
