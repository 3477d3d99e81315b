/**
 * Python's `str.splitlines()` on ASCII text. A line ends at `\n`, `\r`, the pair
 * `\r\n`, `\v`, `\f`, or one of the separators `\x1c`, `\x1d`, `\x1e`. The
 * separators are not part of any line, and a separator at the very end of the
 * text does not start another (empty) line.
 */
module Lines {

  predicate IsLineBreak(c: char)
  {
    c == '\n' || c == '\r' || c as int == 11 || c as int == 12 || 28 <= c as int <= 30
  }

  /** The index of the first line break in `s` at or after `p`, or `|s|` when there is none. */
  function NextBreak(s: string, p: nat): (j: nat)
    requires p <= |s|
    ensures p <= j <= |s|
    ensures forall i :: p <= i < j ==> !IsLineBreak(s[i])
    ensures j < |s| ==> IsLineBreak(s[j])
    decreases |s| - p
  {
    if p == |s| || IsLineBreak(s[p]) then p else NextBreak(s, p + 1)
  }

  /** The length of the separator that starts at index `j` of `s`. */
  function BreakLength(s: string, j: nat): (n: nat)
    requires j < |s| && IsLineBreak(s[j])
    ensures 1 <= n <= 2 && j + n <= |s|
    ensures n == 2 <==> s[j] == '\r' && j + 1 < |s| && s[j + 1] == '\n'
  {
    if s[j] == '\r' && j + 1 < |s| && s[j + 1] == '\n' then 2 else 1
  }

  /**
   * The lines of `s[p..]`: the text up to the next separator is a line, and
   * splitting goes on after the separator; text without a separator is one
   * line. There are no lines exactly when nothing is left.
   */
  function SplitFrom(s: string, p: nat): (lines: seq<string>)
    requires p <= |s|
    ensures |lines| == 0 <==> p == |s|
    decreases |s| - p
  {
    if p == |s| then []
    else
      var j := NextBreak(s, p);
      if j == |s| then [s[p..]]
      else [s[p..j]] + SplitFrom(s, j + BreakLength(s, j))
  }

  /** `s.splitlines()`. There are no lines exactly when `s` is empty. */
  function SplitLines(s: string): (lines: seq<string>)
    ensures |lines| == 0 <==> s == []
  {
    SplitFrom(s, 0)
  }

  /** The next break is the first index from `p` on that holds one. */
  lemma NextBreakIs(s: string, p: nat, j: nat)
    requires p <= j <= |s|
    requires forall i :: p <= i < j ==> !IsLineBreak(s[i])
    requires j == |s| || IsLineBreak(s[j])
    ensures NextBreak(s, p) == j
  {
  }

  /** A separator `splitlines` ends a line at: `\r\n`, or one line-break character. */
  predicate IsSeparator(sep: string)
  {
    sep == "\r\n" || (|sep| == 1 && IsLineBreak(sep[0]))
  }

  /** `s` holds no line break. */
  predicate NoBreaks(s: string)
  {
    forall i :: 0 <= i < |s| ==> !IsLineBreak(s[i])
  }

  /** Searching for a break in `x + y` past `x` is searching in `y`. */
  lemma {:induction false} NextBreakShift(x: string, y: string, p: nat)
    requires p <= |y|
    ensures NextBreak(x + y, |x| + p) == |x| + NextBreak(y, p)
    decreases |y| - p
  {
    var s := x + y;
    if p < |y| {
      assert s[|x| + p] == y[p];
      if !IsLineBreak(y[p]) {
        NextBreakShift(x, y, p + 1);
      }
    }
  }

  /** A separator in `y` has the same length in `x + y`. */
  lemma BreakLengthShift(x: string, y: string, j: nat)
    requires j < |y| && IsLineBreak(y[j])
    ensures IsLineBreak((x + y)[|x| + j])
    ensures BreakLength(x + y, |x| + j) == BreakLength(y, j)
  {
    var s := x + y;
    assert s[|x| + j] == y[j];
    assert j + 1 < |y| ==> s[|x| + j + 1] == y[j + 1];
  }

  /** The first line of `(x + y)[|x| + p..]` is the first line of `y[p..]`. */
  lemma ShiftedFirstLine(x: string, y: string, p: nat, j: nat, k: nat)
    requires p < |y| && j == NextBreak(y, p) && j < |y| && k == j + BreakLength(y, j)
    ensures SplitFrom(x + y, |x| + p) == [y[p..j]] + SplitFrom(x + y, |x| + k)
  {
    var s := x + y;
    var q, e, n := |x| + p, |x| + j, |x| + k;
    assert NextBreak(s, q) == e by { NextBreakShift(x, y, p); }
    assert e < |s| && IsLineBreak(s[e]) && n == e + BreakLength(s, e) by { BreakLengthShift(x, y, j); }
    assert s[q..e] == y[p..j] by { SliceShift(x, y, p, j); }
    FirstLineAt(s, q, e, n, y[p..j]);
  }

  lemma FirstLineAt(s: string, q: nat, e: nat, n: nat, line: string)
    requires q < |s| && e == NextBreak(s, q) && e < |s| && n == e + BreakLength(s, e)
    requires line == s[q..e]
    ensures SplitFrom(s, q) == [line] + SplitFrom(s, n)
  {
  }

  /** One step of the shift: the first line agrees, and so do the rest when they agree from `k` on. */
  lemma SplitShiftStep(x: string, y: string, p: nat, j: nat, k: nat)
    requires p < |y| && j == NextBreak(y, p) && j < |y| && k == j + BreakLength(y, j)
    requires SplitFrom(x + y, |x| + k) == SplitFrom(y, k)
    ensures SplitFrom(x + y, |x| + p) == SplitFrom(y, p)
  {
    ShiftedFirstLine(x, y, p, j, k);
    SplitFromStep(y, p);
  }

  lemma SliceShift(x: string, y: string, p: nat, j: nat)
    requires p <= j <= |y|
    ensures (x + y)[|x| + p..|x| + j] == y[p..j]
  {
  }

  /** Splitting `x + y` past `x` is splitting `y`. */
  lemma {:induction false} SplitFromShift(x: string, y: string, p: nat)
    requires p <= |y|
    ensures SplitFrom(x + y, |x| + p) == SplitFrom(y, p)
    decreases |y| - p
  {
    if p < |y| {
      var j := NextBreak(y, p);
      if j < |y| {
        var k := j + BreakLength(y, j);
        SplitFromShift(x, y, k);
        SplitShiftStep(x, y, p, j, k);
      } else {
        NextBreakShift(x, y, p);
        assert (x + y)[|x| + p..] == y[p..];
      }
    }
  }

  /**
   * A line without breaks followed by a separator is the first line, and the
   * lines of the rest follow. After a lone `\r` the rest must not start with
   * `\n`, for the two would be one `\r\n` separator.
   */
  lemma SplitLinesCons(a: string, sep: string, rest: string)
    requires NoBreaks(a) && IsSeparator(sep)
    requires sep == "\r" ==> rest == [] || rest[0] != '\n'
    ensures SplitLines(a + sep + rest) == [a] + SplitLines(rest)
  {
    var s := a + sep + rest;
    var n := |a| + |sep|;
    assert NextBreak(s, 0) == |a| by {
      forall i | 0 <= i < |a|
        ensures !IsLineBreak(s[i])
      {
        assert s[i] == a[i];
      }
      assert s[|a|] == sep[0];
      NextBreakIs(s, 0, |a|);
    }
    assert |a| < |s| && IsLineBreak(s[|a|]) && BreakLength(s, |a|) == |sep| by {
      assert s[|a|] == sep[0];
      if sep == "\r\n" {
        assert s[|a| + 1] == '\n';
      } else if |a| + 1 < |s| {
        assert s[|a| + 1] == rest[0];
      }
    }
    assert s[0..|a|] == a;
    FirstLineAt(s, 0, |a|, n, a);
    assert SplitFrom(s, n) == SplitFrom(rest, 0) by {
      assert s == (a + sep) + rest;
      SplitFromShift(a + sep, rest, 0);
    }
  }

  /** One line without breaks is itself its only line. */
  lemma SplitOneLine(a: string)
    requires a != [] && NoBreaks(a)
    ensures SplitLines(a) == [a]
  {
    NextBreakIs(a, 0, |a|);
    assert a[0..] == a;
  }

  /**
   * Two lines without breaks joined by any separator split back into those
   * two lines; a separator at the very end starts no further line.
   */
  lemma SplitTwoLines(a: string, sep: string, b: string)
    requires NoBreaks(a) && NoBreaks(b) && IsSeparator(sep)
    ensures SplitLines(a + sep + b) == if b == [] then [a] else [a, b]
  {
    SplitLinesCons(a, sep, b);
    if b != [] {
      SplitOneLine(b);
    }
  }

  /** A property every character of `s[p..]` has, every character of every line has. */
  lemma {:induction false} SplitFromInherits(s: string, p: nat, P: char -> bool)
    requires p <= |s|
    requires forall i :: p <= i < |s| ==> P(s[i])
    ensures forall i, k :: 0 <= i < |SplitFrom(s, p)| && 0 <= k < |SplitFrom(s, p)[i]| ==> P(SplitFrom(s, p)[i][k])
    decreases |s| - p
  {
    if p < |s| {
      var j := NextBreak(s, p);
      if j < |s| {
        SplitFromInherits(s, j + BreakLength(s, j), P);
      }
    }
  }

  /** A property every character of the text has, every character of every line has. */
  lemma SplitLinesInherits(s: string, P: char -> bool)
    requires forall i :: 0 <= i < |s| ==> P(s[i])
    ensures forall i, k :: 0 <= i < |SplitLines(s)| && 0 <= k < |SplitLines(s)[i]| ==> P(SplitLines(s)[i][k])
  {
    SplitFromInherits(s, 0, P);
  }

  /** No line holds a separator. */
  lemma {:induction false} SplitFromNoBreaks(s: string, p: nat)
    requires p <= |s|
    ensures forall i, k :: 0 <= i < |SplitFrom(s, p)| && 0 <= k < |SplitFrom(s, p)[i]| ==> !IsLineBreak(SplitFrom(s, p)[i][k])
    decreases |s| - p
  {
    if p < |s| {
      var j := NextBreak(s, p);
      if j < |s| {
        SplitFromNoBreaks(s, j + BreakLength(s, j));
      }
    }
  }

  /** No line of `s.splitlines()` holds a separator. */
  lemma SplitLinesNoBreaks(s: string)
    ensures forall i, k :: 0 <= i < |SplitLines(s)| && 0 <= k < |SplitLines(s)[i]| ==> !IsLineBreak(SplitLines(s)[i][k])
  {
    SplitFromNoBreaks(s, 0);
  }

  /** The lines joined with `\n` between them: `"\n".join(lines)`. */
  function JoinLines(lines: seq<string>): string
  {
    if |lines| == 0 then ""
    else if |lines| == 1 then lines[0]
    else lines[0] + "\n" + JoinLines(lines[1..])
  }

  /** Joining a line in front of further lines puts one `\n` between them. */
  lemma JoinLinesCons(line: string, rest: seq<string>)
    requires rest != []
    ensures JoinLines([line] + rest) == line + "\n" + JoinLines(rest)
  {
    assert ([line] + rest)[1..] == rest;
  }

  /** `s[p..]` around the character at index `j`. */
  lemma SliceAround(s: string, p: nat, j: nat)
    requires p <= j < |s|
    ensures s[p..] == s[p..j] + [s[j]] + s[j + 1..]
  {
  }

  /** The round trip on `s[p..]`. */
  lemma {:induction false} SplitJoinFrom(s: string, p: nat)
    requires p <= |s|
    requires forall i :: p <= i < |s| && IsLineBreak(s[i]) ==> s[i] == '\n'
    requires s == [] || s[|s| - 1] != '\n'
    ensures JoinLines(SplitFrom(s, p)) == s[p..]
    decreases |s| - p
  {
    if p < |s| {
      var j := NextBreak(s, p);
      if j < |s| {
        assert s[j] == '\n';
        assert BreakLength(s, j) == 1;
        var rest := SplitFrom(s, j + 1);
        SplitJoinFrom(s, j + 1);
        JoinLinesCons(s[p..j], rest);
        SliceAround(s, p, j);
      }
    }
  }

  /**
   * Splitting text whose only separator is `\n` and that does not end with one,
   * then joining the lines with `\n`, gives the text back.
   */
  lemma SplitJoinRoundTrip(s: string)
    requires forall i :: 0 <= i < |s| && IsLineBreak(s[i]) ==> s[i] == '\n'
    requires s == [] || s[|s| - 1] != '\n'
    ensures JoinLines(SplitLines(s)) == s
  {
    SplitJoinFrom(s, 0);
    assert s[0..] == s;
  }

  /** The characters of `s[p..]` that are not separators, in order. */
  function WithoutBreaksFrom(s: string, p: nat): string
    requires p <= |s|
    decreases |s| - p
  {
    if p == |s| then [] else (if IsLineBreak(s[p]) then [] else [s[p]]) + WithoutBreaksFrom(s, p + 1)
  }

  /** The characters of `s` that are not separators, in order. */
  function WithoutBreaks(s: string): string
  {
    WithoutBreaksFrom(s, 0)
  }

  /** The lines, one after the other, with nothing between them. */
  function JoinAll(lines: seq<string>): string
  {
    if lines == [] then [] else lines[0] + JoinAll(lines[1..])
  }

  /** A stretch without separators is kept as it is. */
  lemma {:induction false} WithoutBreaksRun(s: string, p: nat, j: nat)
    requires p <= j <= |s|
    requires forall i :: p <= i < j ==> !IsLineBreak(s[i])
    ensures WithoutBreaksFrom(s, p) == s[p..j] + WithoutBreaksFrom(s, j)
    decreases j - p
  {
    if p < j {
      WithoutBreaksRun(s, p + 1, j);
      calc {
        WithoutBreaksFrom(s, p);
        [s[p]] + WithoutBreaksFrom(s, p + 1);
        [s[p]] + (s[p + 1..j] + WithoutBreaksFrom(s, j));
        ([s[p]] + s[p + 1..j]) + WithoutBreaksFrom(s, j);
        { assert s[p..j] == [s[p]] + s[p + 1..j]; }
        s[p..j] + WithoutBreaksFrom(s, j);
      }
    }
  }

  /** A separator contributes no text. */
  lemma WithoutBreaksSkip(s: string, j: nat)
    requires j < |s| && IsLineBreak(s[j])
    ensures WithoutBreaksFrom(s, j) == WithoutBreaksFrom(s, j + BreakLength(s, j))
  {
    if BreakLength(s, j) == 2 {
      assert IsLineBreak(s[j + 1]);
    }
  }

  /** The first line of `s[p..]` when a separator follows it. */
  lemma SplitFromStep(s: string, p: nat)
    requires p < |s| && NextBreak(s, p) < |s|
    ensures var j := NextBreak(s, p);
      SplitFrom(s, p) == [s[p..j]] + SplitFrom(s, j + BreakLength(s, j))
  {
  }

  lemma JoinAllCons(line: string, rest: seq<string>)
    ensures JoinAll([line] + rest) == line + JoinAll(rest)
  {
    assert ([line] + rest)[1..] == rest;
  }

  /** The text of the first line followed by the text of the rest is the text of `s[p..]`. */
  lemma KeepsTextStep(s: string, p: nat, j: nat, k: nat)
    requires p < |s| && j == NextBreak(s, p) && j < |s| && k == j + BreakLength(s, j)
    requires JoinAll(SplitFrom(s, k)) == WithoutBreaksFrom(s, k)
    ensures JoinAll(SplitFrom(s, p)) == WithoutBreaksFrom(s, p)
  {
    var rest := SplitFrom(s, k);
    SplitFromStep(s, p);
    JoinAllCons(s[p..j], rest);
    WithoutBreaksSkip(s, j);
    WithoutBreaksRun(s, p, j);
  }

  /** Splitting `s[p..]` loses or invents no character apart from the separators. */
  lemma {:induction false} SplitFromKeepsText(s: string, p: nat)
    requires p <= |s|
    ensures JoinAll(SplitFrom(s, p)) == WithoutBreaksFrom(s, p)
    decreases |s| - p
  {
    if p < |s| {
      var j := NextBreak(s, p);
      if j == |s| {
        WithoutBreaksRun(s, p, j);
        assert [s[p..]][1..] == [];
      } else {
        var k := j + BreakLength(s, j);
        SplitFromKeepsText(s, k);
        KeepsTextStep(s, p, j, k);
      }
    }
  }

  /** No character is lost or invented by splitting, apart from the separators. */
  lemma SplitLinesKeepsText(s: string)
    ensures JoinAll(SplitLines(s)) == WithoutBreaks(s)
  {
    SplitFromKeepsText(s, 0);
  }
}
