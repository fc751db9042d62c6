/** The few Python string operations the session manager relies on:
    `str.strip()`, `str.startswith()`, `str.splitlines()` and `"\n".join(...)`.

    Simplifications: the whitespace set is the ASCII part of Python's
    `str.isspace()`, and lines are split on '\n' only. */
module Text {

  /** Space, \t, \n, \v, \f, \r and the separators U+001C..U+001F. */
  predicate IsSpace(c: char) {
    c == ' ' || ('\t' <= c <= '\r') || ('\U{1C}' <= c <= '\U{1F}')
  }

  predicate AllSpace(s: string) {
    forall i :: 0 <= i < |s| ==> IsSpace(s[i])
  }

  /** Index of the first non-whitespace character at or after `i`, or
      `|s|` when there is none. */
  function SkipSpaceFrom(s: string, i: nat): (lo: nat)
    requires i <= |s|
    ensures i <= lo <= |s|
    ensures forall j :: i <= j < lo ==> IsSpace(s[j])
    ensures lo < |s| ==> !IsSpace(s[lo])
    decreases |s| - i
  {
    if i < |s| && IsSpace(s[i]) then SkipSpaceFrom(s, i + 1) else i
  }

  /** Index just after the last non-whitespace character in `s[lo..hi]`,
      or `lo` when there is none. */
  function SkipSpaceBack(s: string, lo: nat, hi: nat): (end: nat)
    requires lo <= hi <= |s|
    ensures lo <= end <= hi
    ensures forall j :: end <= j < hi ==> IsSpace(s[j])
    ensures end > lo ==> !IsSpace(s[end - 1])
    decreases hi
  {
    if hi > lo && IsSpace(s[hi - 1]) then SkipSpaceBack(s, lo, hi - 1) else hi
  }

  /** Where the part of `s` that Strip keeps begins. */
  function StripStart(s: string): (lo: nat)
    ensures lo <= |s|
    ensures forall j :: 0 <= j < lo ==> IsSpace(s[j])
    ensures lo < |s| ==> !IsSpace(s[lo])
  {
    SkipSpaceFrom(s, 0)
  }

  /** Where the part of `s` that Strip keeps ends. */
  function StripEnd(s: string): (hi: nat)
    ensures StripStart(s) <= hi <= |s|
    ensures forall j :: hi <= j < |s| ==> IsSpace(s[j])
    ensures hi > StripStart(s) ==> !IsSpace(s[hi - 1])
  {
    SkipSpaceBack(s, StripStart(s), |s|)
  }

  /** Python's `s.strip()`: the slice from the first to the last
      non-whitespace character. */
  function Strip(s: string): (r: string)
    ensures |r| <= |s|
    ensures r == [] || (!IsSpace(r[0]) && !IsSpace(r[|r| - 1]))
    ensures r == [] <==> AllSpace(s)
  {
    s[StripStart(s)..StripEnd(s)]
  }

  /** Python's `s.startswith(p)`. */
  predicate StartsWith(s: string, p: string) {
    |p| <= |s| && s[..|p|] == p
  }

  predicate NoNewline(line: string) {
    forall c :: 0 <= c < |line| ==> line[c] != '\n'
  }

  /** Index of the first '\n' in `s`, or `|s|` when there is none. */
  function FirstNewline(s: string): (i: nat)
    ensures i <= |s|
    ensures i < |s| ==> s[i] == '\n'
    ensures forall j :: 0 <= j < i ==> s[j] != '\n'
  {
    if s == [] || s[0] == '\n' then 0 else 1 + FirstNewline(s[1..])
  }

  /** `"\n".join(lines)`. */
  function Join(lines: seq<string>): string
  {
    if |lines| == 0 then ""
    else if |lines| == 1 then lines[0]
    else lines[0] + "\n" + Join(lines[1..])
  }

  /** `s.splitlines()` for '\n' line ends: one line per '\n'-separated
      piece, except that a final '\n' does not open an empty last line. */
  function SplitLines(s: string): (lines: seq<string>)
    ensures lines == [] <==> s == []
    decreases |s|
  {
    if s == [] then []
    else
      var i := FirstNewline(s);
      if i == |s| then [s] else [s[..i]] + SplitLines(s[i + 1..])
  }

  /** No line produced by SplitLines holds a '\n'. */
  lemma {:induction false} SplitLinesNoNewline(s: string)
    ensures forall j :: 0 <= j < |SplitLines(s)| ==> NoNewline(SplitLines(s)[j])
    decreases |s|
  {
    if s != [] {
      var i := FirstNewline(s);
      if i < |s| {
        SplitLinesNoNewline(s[i + 1..]);
      }
    }
  }

  /** The joined text opens with the first line, has a newline right after
      it when more lines follow, and closes with the last line. */
  lemma {:induction false} JoinShape(lines: seq<string>)
    ensures lines != [] ==> |lines[0]| <= |Join(lines)| && Join(lines)[..|lines[0]|] == lines[0]
    ensures |lines| > 1 ==> |lines[0]| < |Join(lines)| && Join(lines)[|lines[0]|] == '\n'
    ensures lines != [] ==> var last := lines[|lines| - 1];
      |last| <= |Join(lines)| && Join(lines)[|Join(lines)| - |last|..] == last
  {
    if |lines| > 1 {
      var rest := lines[1..];
      JoinShape(rest);
      var head, tail := lines[0] + "\n", Join(rest);
      assert Join(lines) == head + tail;
      assert rest[|rest| - 1] == lines[|lines| - 1];
      assert (head + tail)[|head + tail| - |lines[|lines| - 1]|..] == tail[|tail| - |lines[|lines| - 1]|..];
    }
  }

  lemma {:induction false} JoinCons(line: string, rest: seq<string>)
    ensures Join([line] + rest) == if rest == [] then line else line + "\n" + Join(rest)
  {
    assert ([line] + rest)[1..] == rest;
  }

  /** Strip keeps one contiguous slice of its input and drops only
      whitespace around it. */
  lemma {:induction false} StripSlice(s: string) returns (i: nat)
    ensures i + |Strip(s)| <= |s|
    ensures s[i..i + |Strip(s)|] == Strip(s)
    ensures forall j :: 0 <= j < i ==> IsSpace(s[j])
    ensures forall j :: i + |Strip(s)| <= j < |s| ==> IsSpace(s[j])
  {
    i := StripStart(s);
  }

  /** Strip's result is determined: text with no whitespace at either end,
      framed by whitespace only, is what Strip returns. */
  lemma {:induction false} StripUnique(a: string, m: string, b: string)
    requires AllSpace(a) && AllSpace(b)
    requires m != [] && !IsSpace(m[0]) && !IsSpace(m[|m| - 1])
    ensures Strip(a + m + b) == m
  {
    var s := a + m + b;
    var lo, hi := StripStart(s), StripEnd(s);
    assert s[|a|] == m[0];
    assert s[|a| + |m| - 1] == m[|m| - 1];
    assert lo == |a|;
    assert hi == |a| + |m|;
    assert s[lo..hi] == m;
  }

  /** Dropping the trailing whitespace of a text that is not all
      whitespace: what is left ends in a non-space and strips alike. */
  lemma {:induction false} StripTrailing(s: string) returns (e: nat)
    requires !AllSpace(s)
    ensures 0 < e <= |s| && !IsSpace(s[e - 1])
    ensures AllSpace(s[e..])
    ensures Strip(s[..e]) == Strip(s)
  {
    var i;
    i, e := StripFrame(s);
    var a, m := s[..i], s[i..e];
    assert s[..e] == a + m + [] by {
      Slices3(s, i, e);
    }
    StripUnique(a, m, []);
  }

  /** Where the stripped text sits in a text that is not all whitespace:
      between two all-whitespace margins, ending in a non-space. */
  lemma {:induction false} StripFrame(s: string) returns (i: nat, e: nat)
    requires !AllSpace(s)
    ensures i < e <= |s| && !IsSpace(s[e - 1])
    ensures AllSpace(s[..i]) && AllSpace(s[e..])
    ensures s[i..e] == Strip(s)
  {
    i := StripSlice(s);
    var r := Strip(s);
    e := i + |r|;
    assert r != [] && r[|r| - 1] == s[e - 1];
  }

  /** Text that opens with a non-space and continues with a part ending in
      a non-space, then only whitespace, strips to the text without that
      whitespace. */
  lemma {:induction false} StripAppended(x: string, kept: string, b: string)
    requires x != [] && !IsSpace(x[0])
    requires kept != [] && !IsSpace(kept[|kept| - 1])
    requires AllSpace(b)
    ensures Strip(x + (kept + b)) == x + kept
  {
    var m := x + kept;
    assert x + (kept + b) == [] + m + b;
    assert m[0] == x[0] && m[|m| - 1] == kept[|kept| - 1];
    StripUnique([], m, b);
  }

  /** Cutting a sequence at two points and putting the pieces back. */
  lemma {:induction false} Slices3<T>(s: seq<T>, i: nat, e: nat)
    requires i <= e <= |s|
    ensures s == s[..i] + s[i..e] + s[e..]
    ensures s[..e] == s[..i] + s[i..e]
  {
    assert s[..e] == s[..i] + s[i..e];
    assert s == s[..e] + s[e..];
  }

  /** A string with no whitespace at either end is left unchanged by Strip. */
  lemma {:induction false} StripTrimmed(s: string)
    requires s == [] || (!IsSpace(s[0]) && !IsSpace(s[|s| - 1]))
    ensures Strip(s) == s
  {
    if s != [] {
      assert StripStart(s) == 0;
      assert StripEnd(s) == |s|;
    }
  }

  /** Trailing whitespace never reaches Strip's result. */
  lemma {:induction false} StripDropsTrailingSpace(s: string, c: char)
    requires IsSpace(c)
    ensures Strip(s + [c]) == Strip(s)
  {
    var sc := s + [c];
    if AllSpace(s) {
      assert AllSpace(sc) by {
        forall k | 0 <= k < |sc| ensures IsSpace(sc[k]) {
          if k < |s| { assert sc[k] == s[k]; }
        }
      }
    } else {
      var lo, hi := StripStart(s), StripEnd(s);
      var lo', hi' := StripStart(sc), StripEnd(sc);
      assert forall j :: 0 <= j < |s| ==> sc[j] == s[j];
      assert lo' == lo;
      assert lo < hi by {
        var k :| 0 <= k < |s| && !IsSpace(s[k]);
      }
      assert hi' == hi;
      assert sc[lo..hi] == s[lo..hi];
    }
  }

  /** Joining the lines gives the string back, less a final '\n'. */
  lemma {:induction false} JoinSplitLines(s: string)
    ensures Join(SplitLines(s)) == DropFinalNewline(s)
    decreases |s|
  {
    var i := FirstNewline(s);
    if i < |s| {
      JoinSplitLines(s[i + 1..]);
      JoinSplitLinesLater(s);
    } else {
      JoinSplitLinesSingle(s);
    }
  }

  /** JoinSplitLines for a text without '\n'. */
  lemma {:induction false} JoinSplitLinesSingle(s: string)
    requires FirstNewline(s) == |s|
    ensures Join(SplitLines(s)) == DropFinalNewline(s)
  {
    if s != [] {
      SplitLinesSingle(s);
      assert s[|s| - 1] != '\n';
    }
  }

  /** `s` without its last character when that is '\n'. */
  function DropFinalNewline(s: string): string {
    if s != [] && s[|s| - 1] == '\n' then s[..|s| - 1] else s
  }

  lemma {:induction false} DropFinalNewlineIsPrefix(s: string)
    ensures |DropFinalNewline(s)| <= |s| && s[..|DropFinalNewline(s)|] == DropFinalNewline(s)
  {
  }

  /** Dropping a final '\n' from "line\nrest" only touches `rest`. */
  lemma {:induction false} DropFinalNewlineCons(line: string, rest: string)
    ensures DropFinalNewline(line + "\n" + rest) ==
      if rest == [] then line else line + "\n" + DropFinalNewline(rest)
  {
    var s := line + "\n" + rest;
    if rest == [] {
      assert s[..|s| - 1] == line;
    } else if rest[|rest| - 1] == '\n' {
      assert s[..|s| - 1] == line + "\n" + rest[..|rest| - 1];
    }
  }

  /** JoinSplitLines past the first line, given it for the rest. */
  lemma {:induction false} JoinSplitLinesLater(s: string)
    requires FirstNewline(s) < |s|
    requires Join(SplitLines(s[FirstNewline(s) + 1..])) == DropFinalNewline(s[FirstNewline(s) + 1..])
    ensures Join(SplitLines(s)) == DropFinalNewline(s)
  {
    var i := FirstNewline(s);
    var line, rest := s[..i], s[i + 1..];
    SplitAround(s, i);
    SplitLinesCons(s);
    JoinCons(line, SplitLines(rest));
    DropFinalNewlineCons(line, rest);
  }

  /** The first '\n' of `p + t` is the first of `p`, or lies in `t`. */
  lemma {:induction false} FirstNewlineConcat(p: string, t: string)
    ensures FirstNewline(p) < |p| ==> FirstNewline(p + t) == FirstNewline(p)
    ensures FirstNewline(p) == |p| ==> FirstNewline(p + t) == |p| + FirstNewline(t)
  {
    var i := FirstNewline(p);
    var j := FirstNewline(p + t);
    if i < |p| {
      assert (p + t)[i] == p[i];
      assert (p + t)[..i] == p[..i];
    } else {
      var k := FirstNewline(t);
      assert (p + t)[..|p| + k] == p + t[..k];
      if |p| + k < |p + t| { assert (p + t)[|p| + k] == t[k]; }
    }
  }

  lemma {:induction false} ConcatSlices(a: string, b: string, k: nat)
    requires k <= |a|
    ensures (a + b)[k..] == a[k..] + b
    ensures (a + b)[..k] == a[..k]
  {
  }

  /** Three list equations sharing a head chain into one. */
  lemma {:induction false} ConsChain<T>(whole: seq<T>, front: seq<T>, rest: seq<T>, mid: seq<T>, back: seq<T>, x: T)
    requires whole == [x] + rest && front == [x] + mid && rest == mid + back
    ensures whole == front + back
  {
  }

  /** SplitLines of a non-empty text without '\n' is that text alone. */
  lemma {:induction false} SplitLinesSingle(s: string)
    requires s != [] && FirstNewline(s) == |s|
    ensures SplitLines(s) == [s]
  {
  }

  /** SplitLines of a text with a '\n': the first line, then the lines
      after that '\n'. */
  lemma {:induction false} SplitLinesCons(s: string)
    requires FirstNewline(s) < |s|
    ensures SplitLines(s) == [s[..FirstNewline(s)]] + SplitLines(s[FirstNewline(s) + 1..])
  {
  }

  /** Splitting the joined lines gives the lines back, provided no line holds
      '\n' and the last line is not empty. */
  lemma {:induction false} SplitLinesJoin(lines: seq<string>)
    requires forall j :: 0 <= j < |lines| ==> NoNewline(lines[j])
    requires lines == [] || lines[|lines| - 1] != ""
    ensures SplitLines(Join(lines)) == lines
    decreases |lines|
  {
    if |lines| == 1 {
      var l := lines[0];
      assert NoNewline(l);
      SplitLinesSingle(l);
    } else if |lines| > 1 {
      SplitLinesJoin(lines[1..]);
      assert lines == [lines[0]] + lines[1..];
      SplitLinesJoinCons(lines[0], lines[1..]);
    }
  }

  /** SplitLinesJoin for one more line in front, given it for the rest. */
  lemma {:induction false} SplitLinesJoinCons(l: string, rest: seq<string>)
    requires NoNewline(l) && rest != [] && SplitLines(Join(rest)) == rest
    ensures SplitLines(Join([l] + rest)) == [l] + rest
  {
    var u := "\n" + Join(rest);
    var s := l + u;
    assert Join([l] + rest) == s by {
      JoinCons(l, rest);
      assert l + "\n" + Join(rest) == l + u;
    }
    assert FirstNewline(s) == |l| by {
      assert l[..|l|] == l;
      FirstNewlineConcat(l, u);
    }
    assert s[..|l|] == l && s[|l| + 1..] == Join(rest) by {
      ConcatSlices(l, u, |l|);
      assert l[..|l|] == l;
    }
    SplitLinesCons(s);
    assert SplitLines(s) == [l] + SplitLines(Join(rest));
  }

  /** Cutting a string before index k keeps its first '\n' if that lies
      before k. */
  lemma {:induction false} FirstNewlinePrefix(s: string, k: nat)
    requires k <= |s|
    ensures FirstNewline(s) < k ==> FirstNewline(s[..k]) == FirstNewline(s)
    ensures FirstNewline(s) >= k ==> FirstNewline(s[..k]) == k
  {
    var i := FirstNewline(s);
    if i < k {
      assert s[..k][..i] == s[..i];
    } else {
      assert s[..k] == s[..i][..k];
    }
  }

  /** SplitLinesAt when the cut is at the first '\n'. */
  lemma {:induction false} SplitLinesAtFirst(s: string, k: nat)
    requires 0 < k < |s| && FirstNewline(s) == k
    ensures SplitLines(s) == SplitLines(s[..k]) + SplitLines(s[k + 1..])
  {
    SplitLinesCons(s);
    FirstNewlinePrefix(s, k);
    SplitLinesSingle(s[..k]);
  }

  /** Cutting a text after its first '\n' keeps that first line. */
  lemma {:induction false} SplitLinesPrefixCons(s: string, k: nat)
    requires FirstNewline(s) < k <= |s|
    ensures SplitLines(s[..k]) == [s[..FirstNewline(s)]] + SplitLines(s[FirstNewline(s) + 1..k])
  {
    var i := FirstNewline(s);
    var a := s[..k];
    assert FirstNewline(a) == i by {
      FirstNewlinePrefix(s, k);
    }
    SplitLinesCons(a);
    PrefixSlices(s, i, k);
    ConsCong(SplitLines(a), a[..i], s[..i], SplitLines(a[i + 1..]), SplitLines(s[i + 1..k]));
  }

  lemma {:induction false} ConsCong<T>(whole: seq<T>, x: T, y: T, rest: seq<T>, rest': seq<T>)
    requires whole == [x] + rest && x == y && rest == rest'
    ensures whole == [y] + rest'
  {
  }

  lemma {:induction false} PrefixSlices(s: string, i: nat, k: nat)
    requires i < k <= |s|
    ensures s[..k][..i] == s[..i] && s[..k][i + 1..] == s[i + 1..k]
  {
  }

  /** A text is the part before a '\n', the '\n', and the part after. */
  lemma {:induction false} SplitAround(s: string, i: nat)
    requires i < |s| && s[i] == '\n'
    ensures s == s[..i] + "\n" + s[i + 1..]
  {
  }

  /** SplitLinesAt when an earlier '\n' comes first, given the cut for
      the text after that earlier '\n'. */
  lemma {:induction false} SplitLinesAtLater(s: string, k: nat)
    requires 0 < k < |s| && FirstNewline(s) < k
    requires SplitLines(s[FirstNewline(s) + 1..]) ==
      SplitLines(s[FirstNewline(s) + 1..k]) + SplitLines(s[k + 1..])
    ensures SplitLines(s) == SplitLines(s[..k]) + SplitLines(s[k + 1..])
  {
    var i := FirstNewline(s);
    SplitLinesCons(s);
    SplitLinesPrefixCons(s, k);
    ConsChain(SplitLines(s), SplitLines(s[..k]), SplitLines(s[i + 1..]),
              SplitLines(s[i + 1..k]), SplitLines(s[k + 1..]), s[..i]);
  }

  /** Splitting at a '\n' that does not follow another '\n': the lines of
      the whole are the lines before it followed by the lines after it. */
  lemma {:induction false} SplitLinesAt(s: string, k: nat)
    requires 0 < k < |s| && s[k] == '\n' && s[k - 1] != '\n'
    ensures SplitLines(s) == SplitLines(s[..k]) + SplitLines(s[k + 1..])
    decreases |s|
  {
    var i := FirstNewline(s);
    if i < k {
      var r := s[i + 1..];
      var m := k - i - 1;
      assert r[..m] == s[i + 1..k] && r[m + 1..] == s[k + 1..];
      assert r[m] == s[k] && r[m - 1] == s[k - 1];
      SplitLinesAt(r, m);
      SplitLinesAtLater(s, k);
    } else {
      SplitLinesAtFirst(s, k);
    }
  }

  /** The text of the lines from index k on is a tail of the whole text. */
  lemma {:induction false} JoinSuffix(lines: seq<string>, k: nat)
    requires k <= |lines|
    ensures |Join(lines[k..])| <= |Join(lines)|
    ensures Join(lines)[|Join(lines)| - |Join(lines[k..])|..] == Join(lines[k..])
    decreases k
  {
    if k > 0 {
      var rest := lines[1..];
      assert rest[k - 1..] == lines[k..];
      JoinSuffix(rest, k - 1);
      if |lines| == 1 {
        assert lines[k..] == [];
      } else {
        assert Join(lines) == lines[0] + "\n" + Join(rest);
      }
    }
  }

  /** Appending a newline and more text to a text that does not end in a
      newline appends the new text's lines to its lines. */
  lemma {:induction false} SplitLinesOfAppended(prev: string, tail: string)
    requires prev != "" && prev[|prev| - 1] != '\n'
    ensures SplitLines(prev + "\n" + tail) == SplitLines(prev) + SplitLines(tail)
  {
    var output := prev + "\n" + tail;
    var k := |prev|;
    assert output[..k] == prev && output[k] == '\n' && output[k - 1] != '\n';
    assert output[k + 1..] == tail;
    SplitLinesAt(output, k);
  }

}
