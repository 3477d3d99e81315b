/**
 * The `str` operations the parser applies to a line: `strip` (with and without
 * an argument), substring search, and the `re.sub(r"\s{2,}", " ", ...)`
 * whitespace collapse.
 */
module Strings {
  import opened Ascii

  /** Neither end of `s` is a character that `drop` selects. */
  predicate NoEdge(s: string, drop: char -> bool)
  {
    s == [] || (!drop(s[0]) && !drop(s[|s| - 1]))
  }

  /** `s` without its longest prefix of `drop` characters (`lstrip`). */
  function TrimStart(s: string, drop: char -> bool): (r: string)
    ensures |r| <= |s| && r == s[|s| - |r|..]
    ensures forall i :: 0 <= i < |s| - |r| ==> drop(s[i])
    ensures r == [] || !drop(r[0])
    decreases |s|
  {
    if s != [] && drop(s[0]) then TrimStart(s[1..], drop) else s
  }

  /** The first index at or after `i` whose character `drop` does not select, or `|s|`. */
  function SkipFrom(s: string, drop: char -> bool, i: nat): (a: nat)
    requires i <= |s|
    ensures i <= a <= |s|
    ensures forall j :: i <= j < a ==> drop(s[j])
    ensures a < |s| ==> !drop(s[a])
    decreases |s| - i
  {
    if i < |s| && drop(s[i]) then SkipFrom(s, drop, i + 1) else i
  }

  /** The end of `s[a..e]` once its trailing run of `drop` characters is cut off. */
  function SkipBack(s: string, drop: char -> bool, a: nat, e: nat): (b: nat)
    requires a <= e <= |s|
    ensures a <= b <= e
    ensures forall j :: b <= j < e ==> drop(s[j])
    ensures b > a ==> !drop(s[b - 1])
    decreases e - a
  {
    if a < e && drop(s[e - 1]) then SkipBack(s, drop, a, e - 1) else e
  }

  /** Where `s.strip(...)` starts: the length of the leading run of dropped characters. */
  function StripStart(s: string, drop: char -> bool): (a: nat)
    ensures a <= |s|
  {
    SkipFrom(s, drop, 0)
  }

  /**
   * Python's `s.strip(chars)`, where `drop` tells which characters are in `chars`
   * (for `s.strip()`, the whitespace). The result is the slice of `s` that starts
   * after the leading run of dropped characters and ends before the trailing one,
   * and it neither starts nor ends with a dropped character.
   */
  function Strip(s: string, drop: char -> bool): (r: string)
    ensures var a := StripStart(s, drop);
      a + |r| <= |s| && r == s[a..a + |r|] &&
      (forall i :: 0 <= i < a ==> drop(s[i])) &&
      (forall i :: a + |r| <= i < |s| ==> drop(s[i]))
    ensures NoEdge(r, drop)
  {
    var a := StripStart(s, drop);
    s[a..SkipBack(s, drop, a, |s|)]
  }

  /** A string with no dropped character at either end is its own strip. */
  lemma StripUnchanged(s: string, drop: char -> bool)
    requires NoEdge(s, drop)
    ensures Strip(s, drop) == s
  {
    assert StripStart(s, drop) == 0;
    assert SkipBack(s, drop, 0, |s|) == |s|;
    assert s[0..|s|] == s;
  }

  /** Stripping twice is stripping once. */
  lemma StripIdempotent(s: string, drop: char -> bool)
    ensures Strip(Strip(s, drop), drop) == Strip(s, drop)
  {
    StripUnchanged(Strip(s, drop), drop);
  }

  /** A run of dropped characters after a string with clean ends is stripped off. */
  lemma StripTrailing(s: string, tail: string, drop: char -> bool)
    requires s != [] && NoEdge(s, drop)
    requires forall i :: 0 <= i < |tail| ==> drop(tail[i])
    ensures Strip(s + tail, drop) == s
  {
    var t := s + tail;
    assert t[0] == s[0] && t[|s| - 1] == s[|s| - 1];
    assert StripStart(t, drop) == 0;
    forall i | |s| <= i < |t|
      ensures drop(t[i])
    {
      assert t[i] == tail[i - |s|];
    }
    SkipBackOver(t, drop, 0, |s|, |t|);
    assert SkipBack(t, drop, 0, |s|) == |s|;
    assert t[0..|s|] == s;
  }

  /** Scanning back over a run of dropped characters ends where scanning back from its start ends. */
  lemma {:induction false} SkipBackOver(s: string, drop: char -> bool, a: nat, m: nat, e: nat)
    requires a <= m <= e <= |s|
    requires forall i :: m <= i < e ==> drop(s[i])
    ensures SkipBack(s, drop, a, e) == SkipBack(s, drop, a, m)
    decreases e - m
  {
    if m < e {
      SkipBackOver(s, drop, a, m, e - 1);
    }
  }

  /** Every character of `s` is whitespace. */
  predicate AllSpace(s: string)
  {
    forall i :: 0 <= i < |s| ==> IsSpace(s[i])
  }

  /** `s.strip()` is empty exactly when `s` is blank (Python's `if not s`). */
  lemma StripEmptyIffBlank(s: string)
    ensures Strip(s, IsSpace) == [] <==> AllSpace(s)
  {
  }

  /** `s` holds no two adjacent whitespace characters. */
  predicate NoDoubleSpace(s: string)
  {
    forall i :: 0 <= i < |s| - 1 ==> !(IsSpace(s[i]) && IsSpace(s[i + 1]))
  }

  /** A slice of a string without double whitespace has none either. */
  lemma NoDoubleSpaceSlice(s: string, a: nat, b: nat)
    requires a <= b <= |s|
    requires NoDoubleSpace(s)
    ensures NoDoubleSpace(s[a..b])
  {
    forall i | 0 <= i < b - a - 1
      ensures !(IsSpace(s[a..b][i]) && IsSpace(s[a..b][i + 1]))
    {
      assert s[a..b][i] == s[a + i] && s[a..b][i + 1] == s[a + i + 1];
    }
  }

  /** Stripping keeps a string free of double whitespace. */
  lemma StripNoDoubleSpace(s: string, drop: char -> bool)
    requires NoDoubleSpace(s)
    ensures NoDoubleSpace(Strip(s, drop))
  {
    var a := StripStart(s, drop);
    NoDoubleSpaceSlice(s, a, a + |Strip(s, drop)|);
  }

  /** The whitespace-free characters of `s`, in order. */
  function NonSpace(s: string): (r: string)
  {
    if s == [] then [] else (if IsSpace(s[0]) then [] else [s[0]]) + NonSpace(s[1..])
  }

  lemma {:induction false} NonSpaceTrimStart(s: string)
    ensures NonSpace(TrimStart(s, IsSpace)) == NonSpace(s)
    decreases |s|
  {
    if s != [] && IsSpace(s[0]) {
      NonSpaceTrimStart(s[1..]);
    }
  }

  /**
   * `re.sub(r"\s{2,}", " ", s)`: scanning left to right, every maximal run of two
   * or more whitespace characters becomes one space; a lone whitespace
   * character stays as it is. The result has no two adjacent whitespace
   * characters, starts with whitespace only if `s` does, and keeps every other
   * character of `s`, in order.
   */
  function CollapseSpaces(s: string): (r: string)
    ensures |r| <= |s|
    ensures NoDoubleSpace(r)
    ensures r != [] && IsSpace(r[0]) ==> IsSpace(s[0])
    ensures NonSpace(r) == NonSpace(s)
    decreases |s|
  {
    if |s| >= 2 && IsSpace(s[0]) && IsSpace(s[1]) then
      var rest := TrimStart(s, IsSpace);
      NonSpaceTrimStart(s);
      var r := " " + CollapseSpaces(rest);
      NoDoubleSpaceCons(' ', CollapseSpaces(rest));
      r
    else if s == [] then
      []
    else
      var r := [s[0]] + CollapseSpaces(s[1..]);
      NoDoubleSpaceCons(s[0], CollapseSpaces(s[1..]));
      r
  }

  /** A character put in front of text without whitespace pairs makes none unless both are whitespace. */
  lemma NoDoubleSpaceCons(c: char, r: string)
    requires NoDoubleSpace(r)
    requires IsSpace(c) && r != [] ==> !IsSpace(r[0])
    ensures NoDoubleSpace([c] + r)
    ensures ([c] + r)[1..] == r && ([c] + r)[0] == c
  {
    var t := [c] + r;
    forall i | 1 <= i < |t| - 1
      ensures !(IsSpace(t[i]) && IsSpace(t[i + 1]))
    {
      assert t[i] == r[i - 1] && t[i + 1] == r[i];
    }
    assert t[1..] == r;
  }

  /** Collapsing leaves a string without double whitespace unchanged. */
  lemma {:induction false} CollapseSpacesNoop(s: string)
    requires NoDoubleSpace(s)
    ensures CollapseSpaces(s) == s
    decreases |s|
  {
    if s != [] {
      assert NoDoubleSpace(s[1..]) by { NoDoubleSpaceSlice(s, 1, |s|); }
      CollapseSpacesNoop(s[1..]);
    }
  }

  /** Leading whitespace before text that starts with none is trimmed off exactly. */
  lemma {:induction false} TrimStartSpaces(w: string, b: string)
    requires AllSpace(w)
    requires b == [] || !IsSpace(b[0])
    ensures TrimStart(w + b, IsSpace) == b
    decreases |w|
  {
    if w == [] {
      assert w + b == b;
    } else {
      assert (w + b)[0] == w[0] && (w + b)[1..] == w[1..] + b;
      TrimStartSpaces(w[1..], b);
    }
  }

  /** A run of two or more whitespace characters at the start becomes one space. */
  lemma CollapseRunStart(w: string, b: string)
    requires AllSpace(w) && |w| >= 2
    requires b == [] || !IsSpace(b[0])
    ensures CollapseSpaces(w + b) == " " + CollapseSpaces(b)
  {
    var s := w + b;
    assert s[0] == w[0] && s[1] == w[1];
    TrimStartSpaces(w, b);
  }

  /** A character that does not start a whitespace pair is copied. */
  lemma CollapseCopyFirst(c: char, t: string)
    requires !(IsSpace(c) && t != [] && IsSpace(t[0]))
    ensures CollapseSpaces([c] + t) == [c] + CollapseSpaces(t)
  {
    var s := [c] + t;
    assert s[0] == c && s[1..] == t;
    assert |s| >= 2 ==> s[1] == t[0];
  }

  /**
   * A run of two or more whitespace characters is written as one space: text
   * without whitespace pairs that does not end in whitespace is copied, the
   * run that follows becomes `" "`, and collapsing goes on after the run.
   */
  lemma {:induction false} CollapseRun(a: string, w: string, b: string)
    requires NoDoubleSpace(a) && (a == [] || !IsSpace(a[|a| - 1]))
    requires AllSpace(w) && |w| >= 2
    requires b == [] || !IsSpace(b[0])
    ensures CollapseSpaces(a + w + b) == a + " " + CollapseSpaces(b)
    decreases |a|
  {
    if a == [] {
      assert a + w + b == w + b;
      CollapseRunStart(w, b);
    } else {
      NoDoubleSpaceSlice(a, 1, |a|);
      CollapseRun(a[1..], w, b);
      CollapseRunStep(a, w, b);
    }
  }

  /** The step of `CollapseRun`: the first character of `a` is copied in front of the rest. */
  lemma CollapseRunStep(a: string, w: string, b: string)
    requires a != [] && w != []
    requires if |a| == 1 then !IsSpace(a[0]) else !(IsSpace(a[0]) && IsSpace(a[1]))
    requires CollapseSpaces(a[1..] + w + b) == a[1..] + " " + CollapseSpaces(b)
    ensures CollapseSpaces(a + w + b) == a + " " + CollapseSpaces(b)
  {
    var t := a[1..] + w + b;
    var r := CollapseSpaces(b);
    assert a + w + b == [a[0]] + t;
    assert t[0] == if |a| >= 2 then a[1] else w[0];
    calc {
      CollapseSpaces(a + w + b);
      CollapseSpaces([a[0]] + t);
      { CollapseCopyFirst(a[0], t); }
      [a[0]] + CollapseSpaces(t);
      [a[0]] + (a[1..] + " " + r);
      { ConsRest(a, r); }
      a + " " + r;
    }
  }

  lemma ConsRest(a: string, r: string)
    requires a != []
    ensures [a[0]] + (a[1..] + " " + r) == a + " " + r
  {
    assert a == [a[0]] + a[1..];
  }

  /** Collapsing empties only the empty text. */
  lemma CollapseEmpty(s: string)
    ensures CollapseSpaces(s) == [] <==> s == []
  {
  }

  /** The collapse ends with whitespace only if `s` does. */
  lemma {:induction false} CollapseSpacesLast(s: string)
    ensures var r := CollapseSpaces(s); r != [] && IsSpace(r[|r| - 1]) ==> IsSpace(s[|s| - 1])
    decreases |s|
  {
    if |s| >= 2 && IsSpace(s[0]) && IsSpace(s[1]) {
      var rest := TrimStart(s, IsSpace);
      var c := CollapseSpaces(rest);
      assert CollapseSpaces(s) == " " + c;
      CollapseEmpty(rest);
      CollapseSpacesLast(rest);
      if rest != [] {
        assert (" " + c)[|c|] == c[|c| - 1];
        assert rest[|rest| - 1] == s[|s| - 1];
      }
    } else if s != [] {
      var c := CollapseSpaces(s[1..]);
      assert CollapseSpaces(s) == [s[0]] + c;
      CollapseEmpty(s[1..]);
      CollapseSpacesLast(s[1..]);
      if c != [] {
        assert ([s[0]] + c)[|c|] == c[|c| - 1];
        assert s[1..][|s| - 2] == s[|s| - 1];
      }
    }
  }

  /** Text made only of dropped characters strips to nothing. */
  lemma StripAllDropped(s: string, drop: char -> bool)
    requires forall i :: 0 <= i < |s| ==> drop(s[i])
    ensures Strip(s, drop) == []
  {
  }

  /** Collapsing is idempotent. */
  lemma CollapseSpacesIdempotent(s: string)
    ensures CollapseSpaces(CollapseSpaces(s)) == CollapseSpaces(s)
  {
    CollapseSpacesNoop(CollapseSpaces(s));
  }

  /** `pat` occurs in `s` at index `i`. */
  predicate OccursAt(pat: string, s: string, i: int)
  {
    0 <= i && i + |pat| <= |s| && s[i..i + |pat|] == pat
  }

  /** `pat in s`, Python's substring test. */
  ghost predicate IsSubstring(pat: string, s: string)
  {
    exists i :: OccursAt(pat, s, i)
  }

  /** The search of a literal pattern in `s` from index `p` on. */
  function ContainsFrom(pat: string, s: string, p: nat): (r: bool)
    ensures r <==> exists i :: p <= i && OccursAt(pat, s, i)
    decreases |s| - p
  {
    if p + |pat| > |s| then false
    else if s[p..p + |pat|] == pat then assert OccursAt(pat, s, p); true
    else ContainsFrom(pat, s, p + 1)
  }

  function Contains(pat: string, s: string): (r: bool)
    ensures r <==> IsSubstring(pat, s)
  {
    ContainsFrom(pat, s, 0)
  }
}
