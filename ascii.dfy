/**
 * Character classes of Python's `re` and `str` methods, restricted to ASCII.
 * Characters outside ASCII are neither digits, letters, word characters nor
 * whitespace here, and lower-casing leaves them alone.
 */
module Ascii {

  /** `\d` */
  predicate IsDigit(c: char) { '0' <= c <= '9' }

  predicate IsUpper(c: char) { 'A' <= c <= 'Z' }

  predicate IsLetter(c: char) { 'a' <= c <= 'z' || IsUpper(c) }

  /** `\w`: the characters whose presence on one side only makes a `\b` boundary. */
  predicate IsWordChar(c: char) { IsLetter(c) || IsDigit(c) || c == '_' }

  /**
   * `str.isspace()` and `\s` on ASCII: space, the controls `\t` `\n` `\v` `\f` `\r`
   * (9 to 13) and the separators `\x1c` to `\x1f` (28 to 31).
   */
  predicate IsSpace(c: char) { c == ' ' || 9 <= c as int <= 13 || 28 <= c as int <= 31 }

  /** `str.lower()` on one character. */
  function ToLower(c: char): (d: char)
    ensures IsLetter(d) <==> IsLetter(c)
    ensures !IsUpper(d)
    ensures !IsUpper(c) ==> d == c
    ensures IsUpper(c) ==> d as int == c as int + 32
  {
    if IsUpper(c) then (c as int + 32) as char else c
  }

  /**
   * `x` and `y` are the same character up to case: equal, or the upper-case
   * and the lower-case form of one letter, which lie 32 apart in ASCII.
   */
  predicate SameIgnoringCase(x: char, y: char)
  {
    x == y || (IsUpper(x) && y as int == x as int + 32) || (IsUpper(y) && x as int == y as int + 32)
  }

  /** Two characters lower-case alike exactly when they are the same up to case. */
  lemma ToLowerEq(x: char, y: char)
    ensures ToLower(x) == ToLower(y) <==> SameIgnoringCase(x, y)
  {
  }

  /** `str.lower()` */
  function Lower(s: string): (r: string)
    ensures |r| == |s|
  {
    seq(|s|, i requires 0 <= i < |s| => ToLower(s[i]))
  }

  /**
   * `a.lower() == b.lower()`, the test the merge key makes, holds exactly when
   * the two strings have the same length and agree character by character up
   * to case.
   */
  lemma LowerEq(a: string, b: string)
    ensures Lower(a) == Lower(b) <==> |a| == |b| && forall i :: 0 <= i < |a| ==> SameIgnoringCase(a[i], b[i])
  {
    if |a| == |b| && forall i :: 0 <= i < |a| ==> SameIgnoringCase(a[i], b[i]) {
      forall i | 0 <= i < |a|
        ensures Lower(a)[i] == Lower(b)[i]
      {
        ToLowerEq(a[i], b[i]);
      }
    }
    if Lower(a) == Lower(b) {
      forall i | 0 <= i < |a|
        ensures SameIgnoringCase(a[i], b[i])
      {
        assert Lower(a)[i] == Lower(b)[i];
        ToLowerEq(a[i], b[i]);
      }
    }
  }
}
