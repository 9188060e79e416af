/**
 * The overview screen (src/cli/Overview.tsx): the change totals, the line
 * shown for each file, and what its keys do.
 */
module Overview {
  import opened Util
  import opened Types
  import opened Keys

  /** `files.reduce((sum, f) => sum + f.hunks.length, 0)`. */
  function TotalHunks(files: seq<FileDiff>): nat
  {
    if |files| == 0 then 0 else TotalHunks(files[..|files| - 1]) + |files[|files| - 1].hunks|
  }

  lemma {:induction false} TotalHunksAppend(xs: seq<FileDiff>, ys: seq<FileDiff>)
    ensures TotalHunks(xs + ys) == TotalHunks(xs) + TotalHunks(ys)
  {
    if |ys| == 0 {
      assert xs + ys == xs;
    } else {
      var n := |ys| - 1;
      assert (xs + ys)[..|xs| + n] == xs + ys[..n];
      TotalHunksAppend(xs, ys[..n]);
    }
  }

  /** The total is at least the hunk count of every single file. */
  lemma TotalHunksBound(files: seq<FileDiff>, f: nat)
    requires f < |files|
    ensures |files[f].hunks| <= TotalHunks(files)
  {
    assert files == files[..f] + [files[f]] + files[f + 1..];
    TotalHunksAppend(files[..f] + [files[f]], files[f + 1..]);
    TotalHunksAppend(files[..f], [files[f]]);
  }

  /** The counts line: `N file(s) changed, M hunk(s) total`. */
  function CountsLine(files: seq<FileDiff>): string
  {
    NatToString(|files|) + " file" + Plural(|files|) + " changed, "
    + NatToString(TotalHunks(files)) + " hunk" + Plural(TotalHunks(files)) + " total"
  }

  /** The grey suffix after each path: deletion, then new, then binary, then the hunk count. */
  function FileSuffix(f: FileDiff): (suffix: string)
    ensures |suffix| >= 6 && suffix[..2] == " (" && suffix[|suffix| - 1] == ')' 
  {
    var hunkText := if |f.hunks| == 1 then "hunk" else "hunks";
    if f.isDeleted then " (deleted)"
    else if f.isNew then " (new)"
    else if f.isBinary then " (binary)"
    else " (" + NatToString(|f.hunks|) + " " + hunkText + ")"
  }

  predicate CountedSuffix(f: FileDiff)
  {
    !f.isDeleted && !f.isNew && !f.isBinary
  }

  /** The digits of a count suffix are the hunk count. */
  lemma CountSuffixDigits(f: FileDiff)
    requires CountedSuffix(f)
    ensures |FileSuffix(f)| > 2 && TakeWhile(FileSuffix(f)[2..], IsDigit) == NatToString(|f.hunks|)
  {
    var n := NatToString(|f.hunks|);
    var w := if |f.hunks| == 1 then " hunk)" else " hunks)";
    assert FileSuffix(f)[2..] == n + w;
    TakeWhileUnique(FileSuffix(f)[2..], IsDigit, n, w);
  }

  /**
   * The suffix tells the cases apart (its third character is `d`, `n`, `b` or
   * a digit), and a count suffix tells the hunk count.
   */
  lemma FileSuffixIdentifies(f: FileDiff, g: FileDiff)
    requires FileSuffix(f) == FileSuffix(g)
    ensures f.isDeleted <==> g.isDeleted
    ensures !f.isDeleted ==> (f.isNew <==> g.isNew)
    ensures !f.isDeleted && !f.isNew ==> (f.isBinary <==> g.isBinary)
    ensures CountedSuffix(f) ==> |f.hunks| == |g.hunks|
  {
    var s := FileSuffix(f);
    assert CountedSuffix(f) ==> IsDigit(s[2]);
    assert CountedSuffix(g) ==> IsDigit(s[2]);
    if CountedSuffix(f) && CountedSuffix(g) {
      CountSuffixDigits(f);
      CountSuffixDigits(g);
      NatToStringInjective(|f.hunks|, |g.hunks|);
    }
  }

  /** The upper end of the `1-N` shortcut hint. */
  function ShortcutBound(fileCount: nat): (n: nat)
    ensures n <= 9 && n <= fileCount
    ensures n == 9 || n == fileCount
  {
    Min(fileCount, 9)
  }

  datatype OverviewAction = Start | Quit | JumpTo(index: nat) | Ignore

  /**
   * The key handler: Enter starts, `q` quits, and a key that compares between
   * "1" and "9" as a string jumps to the file its leading digits name, if
   * there is one.
   */
  function OverviewKey(ev: KeyEvent, fileCount: nat): (a: OverviewAction)
    ensures a.JumpTo? ==> a.index < fileCount
  {
    if ev.enter then Start
    else if ev.input == "q" then Quit
    else if LexLe("1", ev.input) && LexLe(ev.input, "9") then
      DigitKeyShape(ev.input);
      var digits := TakeWhile(ev.input, IsDigit);
      ParseDigitsPositive(digits);
      var index := ParseDigits(digits) - 1;
      if index < fileCount then JumpTo(index) else Ignore
    else Ignore
  }

  /**
   * The string comparisons admit exactly the texts starting with '1'..'8' and
   * the text "9" itself; a pasted "12" passes too.
   */
  lemma DigitKeyShape(s: string)
    ensures LexLe("1", s) && LexLe(s, "9") <==> |s| >= 1 && (('1' <= s[0] <= '8') || s == "9")
  {
    if |s| >= 1 && s[0] == '9' && |s| > 1 {
      assert !LexLe(s[1..], "");
    }
  }

  /** Each single digit key 1..9 jumps to the file it names, and only if that file exists. */
  lemma DigitJump(d: nat, fileCount: nat)
    requires 1 <= d <= 9
    ensures OverviewKey(Typed([DigitChar(d)]), fileCount) == if d - 1 < fileCount then JumpTo(d - 1) else Ignore
  {
    var s := [DigitChar(d)];
    DigitKeyShape(s);
    assert TakeWhile(s, IsDigit) == s;
  }

  /** Keys outside the three bindings do nothing. */
  lemma OtherKeysIgnored(ev: KeyEvent, fileCount: nat)
    requires !ev.enter && ev.input != "q"
    requires |ev.input| == 0 || !('1' <= ev.input[0] <= '9')
    ensures OverviewKey(ev, fileCount) == Ignore
  {
    DigitKeyShape(ev.input);
  }

  /** The three-file fixture of the overview tests: 2, 1 and 1 hunks. */
  function Fixture(): seq<FileDiff>
  {
    var h1 := Hunk(1, 10, [], "");
    var h2 := Hunk(20, 25, [], "");
    var h3 := Hunk(1, 5, [], "");
    [ FileDiff("src/index.ts", [h1, h2], false, false, false),
      FileDiff("src/utils.ts", [h3], false, true, false),
      FileDiff("src/old.ts", [h3], false, false, true) ]
  }

  lemma FixtureHunks()
    ensures |Fixture()| == 3 && TotalHunks(Fixture()) == 4
  {
    var fs := Fixture();
    assert fs[..1][..0] == [];
    assert TotalHunks(fs[..1]) == 2;
    assert fs[..2][..1] == fs[..1];
    assert TotalHunks(fs[..2]) == 3;
    assert fs[..3][..2] == fs[..2];
    assert fs[..3] == fs;
  }

  lemma CountsLiteral(three: string, four: string)
    requires three == "3" && four == "4"
    ensures three + " file" + "s" + " changed, " + four + " hunk" + "s" + " total" == "3 files changed, 4 hunks total"
  {
  }

  lemma CountsLineThreeFour(files: seq<FileDiff>)
    requires |files| == 3 && TotalHunks(files) == 4
    ensures CountsLine(files) == "3 files changed, 4 hunks total"
  {
    SmallNumerals();
    assert Plural(3) == "s" && Plural(4) == "s";
    CountsLiteral(NatToString(3), NatToString(4));
  }

  lemma SuffixTwoHunks(f: FileDiff)
    requires !f.isDeleted && !f.isNew && !f.isBinary && |f.hunks| == 2
    ensures FileSuffix(f) == " (2 hunks)"
  {
    var two := NatToString(2);
    SmallNumerals();
    assert " (" + two + " hunks)" == " (2 hunks)";
  }

  lemma FixtureTotals()
    ensures TotalHunks(Fixture()) == 4
    ensures FileSuffix(Fixture()[0]) == " (2 hunks)"
    ensures FileSuffix(Fixture()[1]) == " (new)"
    ensures FileSuffix(Fixture()[2]) == " (deleted)"
    ensures CountsLine(Fixture()) == "3 files changed, 4 hunks total"
  {
    FixtureHunks();
    SuffixTwoHunks(Fixture()[0]);
    CountsLineThreeFour(Fixture());
  }
}
