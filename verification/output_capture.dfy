/** The snapshot-and-diff engine of the REPL send path: given the previous
    full pane capture and the new one, pick out what the last command added
    (cli_commander.py:145-172). */
module OutputCapture {
  import opened Text

  /** The sentinel reported instead of an empty capture or an empty diff. */
  const NoOutput: string := "(No output)"

  /** A pane capture as the REPL path stores and compares it: stripped, and
      the sentinel when nothing but whitespace was captured. */
  function Snapshot(raw: string): (out: string)
    ensures out != ""
    ensures !IsSpace(out[0]) && !IsSpace(out[|out| - 1])
    ensures AllSpace(raw) ==> out == NoOutput
    ensures !AllSpace(raw) ==> out == Strip(raw)
  {
    var o := Strip(raw);
    if o == "" then NoOutput else o
  }

  /** Length of the longest common prefix of two line sequences. */
  function CommonPrefixLen<T(==)>(a: seq<T>, b: seq<T>): (k: nat)
    ensures k <= |a| && k <= |b|
    ensures forall j :: 0 <= j < k ==> a[j] == b[j]
    ensures k < |a| && k < |b| ==> a[k] != b[k]
  {
    if a == [] || b == [] || a[0] != b[0] then 0
    else 1 + CommonPrefixLen(a[1..], b[1..])
  }

  /** Any length at which two sequences agree up to and differ right after
      (or one of them ends) is the common prefix length. */
  lemma {:induction false} CommonPrefixLenUnique<T>(a: seq<T>, b: seq<T>, k: nat)
    requires k <= |a| && k <= |b| && a[..k] == b[..k]
    requires k < |a| && k < |b| ==> a[k] != b[k]
    ensures k == CommonPrefixLen(a, b)
  {
  }

  /** The scan for `diff_start` as the program writes it: walk both line
      lists from the top and stop at the first pair of lines that differ.
      It is proved equal to CommonPrefixLen, which Response uses. */
  method DiffStart<T(==)>(prevLines: seq<T>, currLines: seq<T>) returns (diffStart: nat)
    ensures diffStart <= |prevLines| && diffStart <= |currLines|
    ensures prevLines[..diffStart] == currLines[..diffStart]
    ensures diffStart < |prevLines| && diffStart < |currLines| ==>
      prevLines[diffStart] != currLines[diffStart]
    ensures diffStart == CommonPrefixLen(prevLines, currLines)
  {
    diffStart := 0;
    var n := if |prevLines| < |currLines| then |prevLines| else |currLines|;
    var i := 0;
    while i < n
      invariant i <= n
      invariant diffStart == i
      invariant prevLines[..i] == currLines[..i]
    {
      if prevLines[i] != currLines[i] {
        break;
      }
      assert prevLines[..i + 1] == prevLines[..i] + [prevLines[i]];
      assert currLines[..i + 1] == currLines[..i] + [currLines[i]];
      diffStart := i + 1;
      i := i + 1;
    }
    CommonPrefixLenUnique(prevLines, currLines, diffStart);
  }

  /** The new part of `currLines` after the lines it shares with
      `prevLines`, joined and trimmed: never with whitespace at either end,
      and empty when every current line was already there. */
  function DiffText(prevLines: seq<string>, currLines: seq<string>): (r: string)
    ensures r == [] || (!IsSpace(r[0]) && !IsSpace(r[|r| - 1]))
    ensures |currLines| <= |prevLines| && prevLines[..|currLines|] == currLines ==> r == ""
  {
    Strip(Join(currLines[CommonPrefixLen(prevLines, currLines)..]))
  }

  /** The text the REPL path reports for a send, given the stored baseline
      `prev` ("" when there is none) and the new snapshot `output`. With no
      baseline, or an unchanged pane, the whole snapshot is reported;
      otherwise the lines after the common prefix, trimmed, or the sentinel
      when they trim to nothing. */
  function Response(prev: string, output: string): (r: string)
    ensures output != "" ==> r != ""
    ensures prev == "" || prev == output ==> r == output
  {
    if prev != "" && output != prev then
      var d := DiffText(SplitLines(prev), SplitLines(output));
      if d == "" then NoOutput else d
    else output
  }

  /** Extending a line list: the diff is exactly the added lines. */
  lemma {:induction false} DiffTextOfExtension(p: seq<string>, t: seq<string>)
    ensures DiffText(p, p + t) == Strip(Join(t))
  {
    assert (p + t)[..|p|] == p;
    CommonPrefixLenUnique(p, p + t, |p|);
    assert (p + t)[|p|..] == t;
  }

  /** Splitting into lines and joining again changes nothing that
      stripping keeps. */
  lemma {:induction false} StripJoinSplitLines(s: string)
    ensures Strip(Join(SplitLines(s))) == Strip(s)
  {
    JoinSplitLines(s);
    if s != [] && s[|s| - 1] == '\n' {
      assert s == s[..|s| - 1] + ['\n'];
      StripDropsTrailingSpace(s[..|s| - 1], '\n');
    }
  }

  /** When the new pane is the old one with more lines appended, exactly the
      appended text is reported (trimmed), or the sentinel when it is blank. */
  lemma {:induction false} ResponseToAppendedOutput(prev: string, tail: string)
    requires prev != "" && prev[|prev| - 1] != '\n'
    ensures Response(prev, prev + "\n" + tail) ==
      if Strip(tail) == "" then NoOutput else Strip(tail)
  {
    var output := prev + "\n" + tail;
    assert output != prev by { assert |output| > |prev|; }
    SplitLinesOfAppended(prev, tail);
    DiffTextOfExtension(SplitLines(prev), SplitLines(tail));
    StripJoinSplitLines(tail);
  }

  /** When the first lines already differ (for instance because the oldest
      line scrolled out of the pane), the whole snapshot is reported. */
  lemma {:induction false} ResponseOnFirstLineDivergence(prev: string, output: string)
    requires prev != "" && output != prev
    requires output != "" && !IsSpace(output[0]) && !IsSpace(output[|output| - 1])
    requires SplitLines(prev)[0] != SplitLines(output)[0]
    ensures Response(prev, output) == output
  {
    var p, c := SplitLines(prev), SplitLines(output);
    assert DiffText(p, c) == Strip(Join(c)) by {
      DiffTextFromStart(p, c);
    }
    assert Join(c) == output by {
      JoinSplitLines(output);
    }
    StripTrimmed(output);
  }

  /** When the very first lines differ, the diff is all of the new lines. */
  lemma {:induction false} DiffTextFromStart(p: seq<string>, c: seq<string>)
    requires p != [] && c != [] && p[0] != c[0]
    ensures DiffText(p, c) == Strip(Join(c))
  {
    CommonPrefixLenUnique(p, c, 0);
    assert c[0..] == c;
  }

  /** The report is either the sentinel or one contiguous piece of the new
      snapshot: nothing is invented and nothing is reordered. */
  lemma {:induction false} ResponseIsSliceOfSnapshot(prev: string, output: string) returns (i: nat)
    ensures Response(prev, output) == NoOutput ||
      (i + |Response(prev, output)| <= |output| &&
       output[i..i + |Response(prev, output)|] == Response(prev, output))
  {
    if prev != "" && output != prev {
      i := DiffTextIsSlice(SplitLines(prev), output);
    } else {
      i := 0;
      assert output[0..|output|] == output;
    }
  }

  /** The diff of the lines of `output` against any lines is one slice of
      `output`. */
  lemma {:induction false} DiffTextIsSlice(p: seq<string>, output: string) returns (i: nat)
    ensures var d := DiffText(p, SplitLines(output));
      i + |d| <= |output| && output[i..i + |d|] == d
  {
    var c := SplitLines(output);
    var k := CommonPrefixLen(p, c);
    var whole, d := Join(c), Join(c[k..]);
    assert |whole| <= |output| && output[..|whole|] == whole by {
      JoinSplitLines(output);
      DropFinalNewlineIsPrefix(output);
    }
    assert |d| <= |whole| && d == whole[|whole| - |d|..] by {
      JoinSuffix(c, k);
    }
    i := StrippedTailSlice(output, whole, d);
  }

  /** Stripping a tail of a prefix of `s` leaves one slice of `s`. */
  lemma {:induction false} StrippedTailSlice(s: string, whole: string, d: string) returns (i: nat)
    requires |whole| <= |s| && whole == s[..|whole|]
    requires |d| <= |whole| && d == whole[|whole| - |d|..]
    ensures i + |Strip(d)| <= |s|
    ensures s[i..i + |Strip(d)|] == Strip(d)
  {
    var j := StripSlice(d);
    var r := Strip(d);
    i := |whole| - |d| + j;
    forall n | 0 <= n < |r|
      ensures s[i..i + |r|][n] == r[n]
    {
      assert r[n] == d[j + n] == whole[i + n] == s[i + n];
    }
  }

  /** Worked cases: no baseline and an unchanged pane report the whole
      pane (not the sentinel); an appended line is reported alone. */
  lemma {:induction false} ResponseExamples()
    ensures Response("", "a\nb") == "a\nb"
    ensures Response("a\nb", "a\nb") == "a\nb"
    ensures Response("a\nb", "a\nb\nc") == "c"
  {
    assert "a\nb" + "\n" + "c" == "a\nb\nc";
    ResponseToAppendedOutput("a\nb", "c");
    StripTrimmed("c");
  }

  /** Worked case: when the first line changed, the whole pane is reported. */
  lemma {:induction false} ResponseExampleFirstLineChanged()
    ensures Response("a\nb", "x\ny") == "x\ny"
  {
    assert FirstNewline("a\nb") == 1;
    assert FirstNewline("x\ny") == 1;
    SplitLinesCons("a\nb");
    SplitLinesCons("x\ny");
    ResponseOnFirstLineDivergence("a\nb", "x\ny");
  }
}
