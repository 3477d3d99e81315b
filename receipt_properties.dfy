/**
 * What `parse_receipt_text` promises, stated on the raw text: which lines
 * are accepted, that the records are clean, unique per lower-cased name,
 * counted per accepted line, spelled as their first line and ordered by it.
 */
module ReceiptProperties {
  import opened Wrappers
  import opened Ascii
  import opened Strings
  import opened Lines
  import opened Keywords
  import opened Price
  import opened Merge
  import opened ReceiptParser

  // ----- stripping a line keeps what the filters look at -----

  /** A character that is not whitespace lies inside `line.strip()`. */
  lemma InsideStrip(line: string, m: int)
    requires 0 <= m < |line| && !IsSpace(line[m])
    ensures var a := StripStart(line, IsSpace);
      a <= m < a + |Strip(line, IsSpace)| && Strip(line, IsSpace)[m - a] == line[m]
  {
  }

  /** Around `line.strip()`, being a word character reads the same in the line and in the stripped text. */
  lemma WordAtStrip(line: string, k: int)
    requires -1 <= k <= |Strip(line, IsSpace)|
    ensures IsWordAt(Strip(line, IsSpace), k) == IsWordAt(line, k + StripStart(line, IsSpace))
  {
    var s, a := Strip(line, IsSpace), StripStart(line, IsSpace);
    if 0 <= k < |s| {
      assert s[k] == line[a + k];
    }
  }

  /** A keyword found in the lower-cased stripped line is found in the lower-cased line. */
  lemma NoiseToLine(line: string, k: string, i: int)
    requires OccursAt(k, Lower(Strip(line, IsSpace)), i)
    ensures OccursAt(k, Lower(line), i + StripStart(line, IsSpace))
  {
    var s, a := Strip(line, IsSpace), StripStart(line, IsSpace);
    forall t | 0 <= t < |k|
      ensures Lower(line)[i + a + t] == k[t]
    {
      assert Lower(s)[i..i + |k|][t] == Lower(s)[i + t];
      assert s[i + t] == line[i + a + t];
    }
    assert Lower(line)[i + a..i + a + |k|] == k;
  }

  /** A keyword is a non-empty word of lower-case letters. */
  lemma KeywordShape(k: string)
    requires k in IgnorePatterns
    ensures |k| > 0 && forall t :: 0 <= t < |k| ==> 'a' <= k[t] <= 'z'
  {
    KeywordsAreLowerWords();
  }

  /** A character of a keyword found in the lower-cased line lies inside the stripped line. */
  lemma KeywordCharInside(line: string, k: string, i: int, t: int)
    requires k in IgnorePatterns && OccursAt(k, Lower(line), i) && 0 <= t < |k|
    ensures var a := StripStart(line, IsSpace);
      a <= i + t < a + |Strip(line, IsSpace)| && Lower(Strip(line, IsSpace))[i - a + t] == k[t]
  {
    KeywordShape(k);
    assert Lower(line)[i..i + |k|][t] == Lower(line)[i + t];
    InsideStrip(line, i + t);
  }

  /** A keyword found in the lower-cased line lies inside the stripped line, since it has no whitespace. */
  lemma NoiseToStrip(line: string, k: string, i: int)
    requires k in IgnorePatterns && OccursAt(k, Lower(line), i)
    ensures OccursAt(k, Lower(Strip(line, IsSpace)), i - StripStart(line, IsSpace))
  {
    var s, a := Strip(line, IsSpace), StripStart(line, IsSpace);
    KeywordShape(k);
    KeywordCharInside(line, k, i, 0);
    KeywordCharInside(line, k, i, |k| - 1);
    forall t | 0 <= t < |k|
      ensures Lower(s)[i - a..i - a + |k|][t] == k[t]
    {
      KeywordCharInside(line, k, i, t);
    }
    assert Lower(s)[i - a..i - a + |k|] == k;
  }

  /** A keyword occurs in the lower-cased line exactly when it occurs in the lower-cased stripped line. */
  lemma NoiseStrip(line: string)
    ensures IsNoise(Strip(line, IsSpace)) <==> IsNoise(line)
  {
    if IsNoise(Strip(line, IsSpace)) {
      var k, i :| k in IgnorePatterns && OccursAt(k, Lower(Strip(line, IsSpace)), i);
      NoiseToLine(line, k, i);
    }
    if IsNoise(line) {
      var k, i :| k in IgnorePatterns && OccursAt(k, Lower(line), i);
      NoiseToStrip(line, k, i);
    }
  }

  /** The line holds a price token. */
  ghost predicate HasPriceToken(s: string)
  {
    exists i, e :: IsPriceToken(s, i, e)
  }

  /**
   * A price token stays a token when it is moved by `d` into a text that has
   * the same characters there and the same word/non-word neighbours.
   */
  lemma TokenShift(s: string, t: string, d: int, i: int, e: int)
    requires IsPriceToken(s, i, e)
    requires 0 <= i + d && e + d <= |t|
    requires forall k :: i <= k < e ==> t[k + d] == s[k]
    requires IsWordAt(t, i - 1 + d) == IsWordAt(s, i - 1) && IsWordAt(t, e + d) == IsWordAt(s, e)
    ensures IsPriceToken(t, i + d, e + d)
  {
    assert t[i + d] == s[i] && t[e - 1 + d] == s[e - 1];
    assert t[e - 3 + d] == s[e - 3] && t[e - 2 + d] == s[e - 2];
    forall k | i + d <= k < e + d - 3
      ensures IsDigit(t[k])
    {
      assert t[k] == s[k - d];
    }
  }

  /** A price token of the stripped line is one of the line, moved by the stripped prefix. */
  lemma PriceToLine(line: string, i: int, e: int)
    requires IsPriceToken(Strip(line, IsSpace), i, e)
    ensures IsPriceToken(line, i + StripStart(line, IsSpace), e + StripStart(line, IsSpace))
  {
    var s, a := Strip(line, IsSpace), StripStart(line, IsSpace);
    forall k | i <= k < e
      ensures line[k + a] == s[k]
    {
      assert s[k] == line[a..a + |s|][k];
    }
    WordAtStrip(line, i - 1);
    WordAtStrip(line, e);
    TokenShift(s, line, a, i, e);
  }

  /** A price token of the line lies inside the stripped line. */
  lemma PriceToStrip(line: string, i: int, e: int)
    requires IsPriceToken(line, i, e)
    ensures IsPriceToken(Strip(line, IsSpace), i - StripStart(line, IsSpace), e - StripStart(line, IsSpace))
  {
    var s, a := Strip(line, IsSpace), StripStart(line, IsSpace);
    var d: int := -(a as int);
    InsideStrip(line, i);
    InsideStrip(line, e - 1);
    forall k | i <= k < e
      ensures s[k + d] == line[k]
    {
      InsideStrip(line, k);
    }
    WordAtStrip(line, i - 1 + d);
    WordAtStrip(line, e + d);
    TokenShift(line, s, d, i, e);
  }

  /** `price_re.search` succeeds on the stripped line exactly when it succeeds on the line. */
  lemma PriceStrip(line: string)
    ensures HasPriceToken(Strip(line, IsSpace)) <==> HasPriceToken(line)
  {
    var a := StripStart(line, IsSpace);
    if HasPriceToken(Strip(line, IsSpace)) {
      var i, e :| IsPriceToken(Strip(line, IsSpace), i, e);
      PriceToLine(line, i, e);
    }
    if HasPriceToken(line) {
      var i, e :| IsPriceToken(line, i, e);
      PriceToStrip(line, i, e);
    }
  }

  /**
   * A line is accepted exactly when it is not blank, names no metadata
   * keyword (in any case), holds a price token, and leaves a clean name of
   * two characters or more; the name is the cleaned stripped line.
   */
  lemma ParseLineAccepts(line: string)
    ensures ParseLine(line).Some? <==>
      !AllSpace(line) && !IsNoise(line) && HasPriceToken(line) && |CleanName(Strip(line, IsSpace))| >= 2
    ensures ParseLine(line).Some? ==> ParseLine(line).value == CleanName(Strip(line, IsSpace))
  {
    StripEmptyIffBlank(line);
    NoiseStrip(line);
    PriceStrip(line);
  }

  /** A line naming a metadata keyword, in any case, contributes nothing, whatever else it holds. */
  lemma NoiseLineIgnored(line: string, k: string, i: int)
    requires k in IgnorePatterns && OccursAt(k, Lower(line), i)
    ensures ParseLine(line) == None
  {
    NoiseToStrip(line, k, i);
  }

  /** `s` holds none of the letters `a`, `c`, `r`, `t`, in either case. */
  predicate LacksKeyLetters(s: string)
  {
    forall i :: 0 <= i < |s| ==> ToLower(s[i]) != 'a' && ToLower(s[i]) != 'c' && ToLower(s[i]) != 'r' && ToLower(s[i]) != 't'
  }

  /** Every keyword holds one of the letters `a`, `c`, `r`, `t`. */
  lemma KeywordKeyLetter(k: string)
    requires k in IgnorePatterns
    ensures exists t :: 0 <= t < |k| && (k[t] == 'a' || k[t] == 'c' || k[t] == 'r' || k[t] == 't')
  {
    if k == "refund" {
      assert k[0] == 'r';
    } else if k in ["change", "credit", "cashier", "receipt"] {
      assert k[0] == 'c' || k[1] == 'c' || k[2] == 'c';
    } else if k in ["balance", "visa", "mastercard", "auth", "approval"] {
      assert k[0] == 'a' || k[1] == 'a' || k[3] == 'a';
    } else {
      assert k[0] == 't' || k[1] == 't' || k[3] == 't' || k[4] == 't';
    }
  }

  /** No keyword is spelled at index `i` of a lower-cased line without the letters every keyword holds. */
  lemma KeywordNotAt(line: string, k: string, i: nat)
    requires LacksKeyLetters(line) && k in IgnorePatterns && i + |k| <= |line|
    ensures Lower(line)[i..i + |k|] != k
  {
    KeywordKeyLetter(k);
    var t :| 0 <= t < |k| && (k[t] == 'a' || k[t] == 'c' || k[t] == 'r' || k[t] == 't');
    LetterNotAt(line, k, i, t);
  }

  /** A word whose letter `k[t]` is one the line lacks does not occur at index `i`. */
  lemma LetterNotAt(line: string, k: string, i: nat, t: nat)
    requires LacksKeyLetters(line) && i + |k| <= |line|
    requires t < |k| && (k[t] == 'a' || k[t] == 'c' || k[t] == 'r' || k[t] == 't')
    ensures Lower(line)[i..i + |k|] != k
  {
    assert Lower(line)[i..i + |k|][t] == ToLower(line[i + t]) != k[t];
  }

  /** A line without any of the letters every keyword holds is not noise. */
  lemma NotNoise(line: string)
    requires LacksKeyLetters(line)
    ensures !IsNoise(line)
  {
    forall k, i | k in IgnorePatterns && 0 <= i && i + |k| <= |line|
      ensures !OccursAt(k, Lower(line), i)
    {
      KeywordNotAt(line, k, i);
    }
  }

  /** `s` is written with characters of `alphabet` only. */
  predicate UsesOnly(s: string, alphabet: string)
  {
    forall j :: 0 <= j < |s| ==> s[j] in alphabet
  }

  /** A word holding a character outside the alphabet of `s` occurs nowhere in `s`. */
  lemma AbsentNotAt(s: string, alphabet: string, k: string, i: int, t: nat)
    requires UsesOnly(s, alphabet) && t < |k| && k[t] !in alphabet
    ensures !OccursAt(k, s, i)
  {
    if 0 <= i && i + |k| <= |s| {
      assert s[i..i + |k|][t] == s[i + t];
    }
  }

  /**
   * A word whose character `k[t]` appears in `s` only at index `p` could only
   * occur at `p - t`, and it does not occur there when `k[u]` differs from
   * `s[p - t + u]`.
   */
  lemma PinnedNotAt(s: string, k: string, i: int, t: nat, p: nat, u: nat)
    requires t < |k| && u < |k| && t <= p && p - t + u < |s|
    requires forall j :: 0 <= j < |s| && s[j] == k[t] ==> j == p
    requires s[p - t + u] != k[u]
    ensures !OccursAt(k, s, i)
  {
    if 0 <= i && i + |k| <= |s| {
      var w := s[i..i + |k|];
      assert w[t] == s[i + t] && w[u] == s[i + u];
    }
  }

  /** A line without a price token contributes nothing. */
  lemma PricelessLineIgnored(line: string)
    requires !HasPriceToken(line)
    ensures ParseLine(line) == None
  {
    PriceStrip(line);
  }

  /** In `name + gap + price`, the price is a token, and `price_re.sub` leaves `name + gap`. */
  lemma ItemLinePriceRemoved(line: string, name: string, gap: string, price: string)
    requires line == name + gap + price
    requires forall i :: 0 <= i < |name| ==> !IsDigit(name[i])
    requires gap != [] && forall i :: 0 <= i < |gap| ==> IsEdgeJunk(gap[i])
    requires IsPriceToken(price, 0, |price|)
    ensures IsPriceToken(line, |name| + |gap|, |line|)
    ensures RemovePrices(line) == name + gap
  {
    var n := |name| + |gap|;
    PriceAtEnd(line, name + gap, price);
    NoDigitsBefore(line, name, gap, price);
    RemoveCopiesNonDigits(line, 0, n);
    assert PriceEnd(line, n) == Some(|line|);
    assert RemovePricesFrom(line, n) == [];
    assert line[0..n] == name + gap;
  }

  /** A price token after a character that is not a word character is a token of the whole line. */
  lemma PriceAtEnd(line: string, head: string, price: string)
    requires line == head + price && head != [] && !IsWordChar(head[|head| - 1])
    requires IsPriceToken(price, 0, |price|)
    ensures IsPriceToken(line, |head|, |line|)
  {
    var n := |head|;
    forall i | 0 <= i < |price|
      ensures line[n + i] == price[i]
    {
    }
    assert line[n - 1] == head[n - 1];
  }

  /** Nothing before the price is a digit. */
  lemma NoDigitsBefore(line: string, name: string, gap: string, price: string)
    requires line == name + gap + price
    requires forall i :: 0 <= i < |name| ==> !IsDigit(name[i])
    requires forall i :: 0 <= i < |gap| ==> IsEdgeJunk(gap[i])
    ensures forall i :: 0 <= i < |name| + |gap| ==> !IsDigit(line[i])
  {
    forall i | 0 <= i < |name| + |gap|
      ensures !IsDigit(line[i])
    {
      if i < |name| {
        assert line[i] == name[i];
      } else {
        assert line[i] == gap[i - |name|];
      }
    }
  }

  /** An item line is already stripped, and it is not blank. */
  lemma ItemLineFilters(line: string, name: string, gap: string, price: string)
    requires line == name + gap + price
    requires IsCleanName(name)
    requires IsPriceToken(price, 0, |price|)
    ensures Strip(line, IsSpace) == line
    ensures !AllSpace(line)
  {
    assert line[0] == name[0] && line[|line| - 1] == price[|price| - 1];
    StripUnchanged(line, IsSpace);
  }

  /**
   * A line made of a clean name without digits, a run of spaces, `-` or tabs,
   * and a price token gives exactly that name, unless it names a keyword.
   */
  lemma ItemLine(line: string, name: string, gap: string, price: string)
    requires line == name + gap + price
    requires IsCleanName(name) && name[0] != '-' && name[|name| - 1] != '-'
    requires forall i :: 0 <= i < |name| ==> !IsDigit(name[i])
    requires gap != [] && forall i :: 0 <= i < |gap| ==> IsEdgeJunk(gap[i])
    requires IsPriceToken(price, 0, |price|)
    requires !IsNoise(line)
    ensures ParseLine(line) == Some(name)
  {
    ItemLineFilters(line, name, gap, price);
    ItemLinePriceRemoved(line, name, gap, price);
    StripTrailing(name, gap, IsEdgeJunk);
    CollapseSpacesNoop(name);
    StripUnchanged(name, IsSpace);
    ParseLineAccepts(line);
  }

  /**
   * A stripped line with a price and no keyword whose prices `sub` turns into
   * `name + tail`, where `tail` is made of space, `-` and tab and `name` has
   * none of those or other whitespace at its ends, gives `name` with its
   * whitespace runs collapsed (when that is two characters or more).
   */
  lemma ItemLineCleaned(line: string, name: string, tail: string)
    requires line != [] && NoEdge(line, IsSpace)
    requires HasPriceToken(line) && !IsNoise(line)
    requires RemovePrices(line) == name + tail
    requires forall i :: 0 <= i < |tail| ==> IsEdgeJunk(tail[i])
    requires name != [] && NoEdge(name, IsEdgeJunk) && NoEdge(name, IsSpace)
    requires |CollapseSpaces(name)| >= 2
    ensures ParseLine(line) == Some(CollapseSpaces(name))
  {
    StripUnchanged(line, IsSpace);
    StripEmptyIffBlank(line);
    StripTrailing(name, tail, IsEdgeJunk);
    CollapseSpacesLast(name);
    StripUnchanged(CollapseSpaces(name), IsSpace);
    ParseLineAccepts(line);
  }

  /** The same, for a name without whitespace pairs, which collapsing leaves as it is. */
  lemma ItemLineKept(line: string, name: string, tail: string)
    requires line != [] && NoEdge(line, IsSpace)
    requires HasPriceToken(line) && !IsNoise(line)
    requires RemovePrices(line) == name + tail
    requires forall i :: 0 <= i < |tail| ==> IsEdgeJunk(tail[i])
    requires NoEdge(name, IsEdgeJunk) && NoEdge(name, IsSpace)
    requires NoDoubleSpace(name) && |name| >= 2
    ensures ParseLine(line) == Some(name)
  {
    CollapseSpacesNoop(name);
    ItemLineCleaned(line, name, tail);
  }

  /**
   * The same, for a name made of two parts without whitespace pairs joined
   * by a run of two or more whitespace characters: the run becomes one space.
   */
  lemma ItemLineRun(line: string, a: string, w: string, b: string, tail: string)
    requires line != [] && NoEdge(line, IsSpace)
    requires HasPriceToken(line) && !IsNoise(line)
    requires RemovePrices(line) == a + w + b + tail
    requires forall i :: 0 <= i < |tail| ==> IsEdgeJunk(tail[i])
    requires a != [] && b != [] && NoDoubleSpace(a) && NoDoubleSpace(b)
    requires NoEdge(a, IsEdgeJunk) && NoEdge(a, IsSpace) && NoEdge(b, IsEdgeJunk) && NoEdge(b, IsSpace)
    requires AllSpace(w) && |w| >= 2
    ensures ParseLine(line) == Some(a + " " + b)
  {
    var name := a + w + b;
    assert name[0] == a[0] && name[|name| - 1] == b[|b| - 1];
    CollapseRun(a, w, b);
    CollapseSpacesNoop(b);
    ItemLineCleaned(line, name, tail);
  }

  /** `line[off..off + |part|]` is `part`. */
  predicate PartAt(line: string, off: int, part: string)
  {
    0 <= off && off + |part| <= |line| && line[off..off + |part|] == part
  }

  /** Where the five parts of a line lie in it. */
  lemma FiveParts(line: string, a: string, b: string, c: string, d: string, e: string)
    requires line == a + b + c + d + e
    ensures PartAt(line, 0, a) && PartAt(line, |a|, b) && PartAt(line, |a| + |b|, c)
    ensures PartAt(line, |a| + |b| + |c|, d) && PartAt(line, |a| + |b| + |c| + |d|, e)
  {
    var n := |a| + |b| + |c| + |d|;
    assert line[..|a|] == a;
    assert line[|a|..|a| + |b|] == b;
    assert line[|a| + |b|..|a| + |b| + |c|] == c;
    assert line[n - |d|..n] == d;
    assert line[n..] == e;
  }

  /** A part of the line without digits is copied by `sub`. */
  lemma CopyPart(line: string, off: nat, part: string, end: nat)
    requires PartAt(line, off, part) && end == off + |part|
    requires forall i :: 0 <= i < |part| ==> !IsDigit(part[i])
    ensures RemovePricesFrom(line, off) == part + RemovePricesFrom(line, end)
  {
    forall i | off <= i < off + |part|
      ensures !IsDigit(line[i])
    {
      assert line[off..off + |part|][i - off] == line[i];
    }
    RemoveCopiesNonDigits(line, off, off + |part|);
  }

  /** A price token placed between non-word characters is a token of the line. */
  lemma TokenPart(line: string, off: nat, price: string)
    requires PartAt(line, off, price) && IsPriceToken(price, 0, |price|)
    requires !IsWordAt(line, off - 1) && !IsWordAt(line, off + |price|)
    ensures IsPriceToken(line, off, off + |price|)
  {
    forall k | 0 <= k < |price|
      ensures line[k + off] == price[k]
    {
      assert line[off..off + |price|][k] == line[k + off];
    }
    TokenShift(price, line, off, 0, |price|);
  }

  /** Every character of `s` is something other than a word character. */
  predicate NoWordChars(s: string)
  {
    forall i :: 0 <= i < |s| ==> !IsWordChar(s[i])
  }

  /**
   * `price_re.sub` removes every token, not only the first: a name followed by
   * a unit price and an extended price, each after a gap of non-word
   * characters, keeps the name and both gaps.
   */
  lemma ItemLineTwoPricesRemoved(line: string, name: string, gap: string, p1: string, gap2: string, p2: string)
    requires line == name + gap + p1 + gap2 + p2
    requires forall i :: 0 <= i < |name| ==> !IsDigit(name[i])
    requires gap != [] && NoWordChars(gap) && gap2 != [] && NoWordChars(gap2)
    requires IsPriceToken(p1, 0, |p1|) && IsPriceToken(p2, 0, |p2|)
    ensures IsPriceToken(line, |name| + |gap|, |name| + |gap| + |p1|)
    ensures IsPriceToken(line, |name| + |gap| + |p1| + |gap2|, |line|)
    ensures RemovePrices(line) == name + gap + gap2
  {
    var n1 := |name| + |gap|;
    var e1 := n1 + |p1|;
    var n2 := e1 + |gap2|;
    FiveParts(line, name, gap, p1, gap2, p2);
    assert !IsWordAt(line, n1 - 1) && !IsWordAt(line, e1) && !IsWordAt(line, n2 - 1) by {
      assert line[n1 - 1] == gap[|gap| - 1] && line[e1] == gap2[0] && line[n2 - 1] == gap2[|gap2| - 1];
    }
    assert |line| == n2 + |p2|;
    TokenPart(line, n1, p1);
    TokenPart(line, n2, p2);
    PartsRemoved(line, name, gap, gap2, e1, n2);
  }

  /** `sub` over the five parts: copy, copy, drop, copy, drop. */
  lemma PartsRemoved(line: string, name: string, gap: string, gap2: string, e1: nat, n2: nat)
    requires forall i :: 0 <= i < |name| ==> !IsDigit(name[i])
    requires NoWordChars(gap) && NoWordChars(gap2)
    requires PartAt(line, 0, name) && PartAt(line, |name|, gap) && PartAt(line, e1, gap2)
    requires n2 == e1 + |gap2|
    requires IsPriceToken(line, |name| + |gap|, e1)
    requires IsPriceToken(line, n2, |line|)
    ensures RemovePrices(line) == name + gap + gap2
  {
    var n1 := |name| + |gap|;
    assert RemovePricesFrom(line, 0) == name + RemovePricesFrom(line, |name|) by {
      CopyPart(line, 0, name, |name|);
    }
    assert RemovePricesFrom(line, |name|) == gap + RemovePricesFrom(line, n1) by {
      CopyPart(line, |name|, gap, n1);
    }
    assert RemovePricesFrom(line, n1) == RemovePricesFrom(line, e1) by {
      RemoveDropsToken(line, n1, e1);
    }
    assert RemovePricesFrom(line, e1) == gap2 + RemovePricesFrom(line, n2) by {
      CopyPart(line, e1, gap2, n2);
    }
    assert RemovePricesFrom(line, n2) == [] by {
      RemoveDropsToken(line, n2, |line|);
    }
    assert name + (gap + (gap2 + [])) == name + gap + gap2;
  }

  /** Where the three parts of a line lie in it. */
  lemma ThreeParts(line: string, a: string, b: string, c: string)
    requires line == a + b + c
    ensures PartAt(line, 0, a) && PartAt(line, |a|, b) && PartAt(line, |a| + |b|, c)
  {
    assert line[..|a|] == a;
    assert line[|a|..|a| + |b|] == b;
    assert line[|a| + |b|..] == c;
  }

  /**
   * `price_re.sub` keeps a number that is not a price: a count of digits,
   * followed by digit-free text that does not start with a dot, survives in
   * front of the price that is removed.
   */
  lemma CountLineRemoved(line: string, count: string, mid: string, price: string)
    requires line == count + mid + price
    requires count != [] && forall i :: 0 <= i < |count| ==> IsDigit(count[i])
    requires mid != [] && mid[0] != '.' && forall i :: 0 <= i < |mid| ==> !IsDigit(mid[i])
    requires !IsWordChar(mid[|mid| - 1])
    requires IsPriceToken(price, 0, |price|)
    ensures IsPriceToken(line, |count| + |mid|, |line|)
    ensures RemovePrices(line) == count + mid
  {
    var m := |count| + |mid|;
    ThreeParts(line, count, mid, price);
    CountPartsCopied(line, count, mid, m);
    assert !IsWordAt(line, m - 1) && |line| == m + |price| by {
      assert line[m - 1] == line[|count|..m][|mid| - 1];
    }
    TokenPart(line, m, price);
    assert RemovePricesFrom(line, m) == [] by {
      RemoveDropsToken(line, m, |line|);
    }
    assert count + (mid + []) == count + mid;
  }

  /** The count and the text after it are copied by `sub`, up to index `m`. */
  lemma CountPartsCopied(line: string, count: string, mid: string, m: nat)
    requires PartAt(line, 0, count) && PartAt(line, |count|, mid) && m == |count| + |mid|
    requires count != [] && forall i :: 0 <= i < |count| ==> IsDigit(count[i])
    requires mid != [] && mid[0] != '.' && forall i :: 0 <= i < |mid| ==> !IsDigit(mid[i])
    ensures RemovePricesFrom(line, 0) == count + (mid + RemovePricesFrom(line, m))
  {
    var n := |count|;
    assert DigitRunEnd(line, 0) == n && line[n] != '.' by {
      forall k | 0 <= k < n
        ensures IsDigit(line[k])
      {
        assert line[0..n][k] == line[k];
      }
      assert line[n] == line[n..m][0] == mid[0];
      DigitRunEndIs(line, 0, n);
    }
    assert line[0..n] == count;
    assert RemovePricesFrom(line, 0) == count + RemovePricesFrom(line, n) by {
      NoTokenWithoutDot(line, 0);
      RemoveCopiesDigitRun(line, 0);
    }
    assert RemovePricesFrom(line, n) == mid + RemovePricesFrom(line, m) by {
      CopyPart(line, n, mid, m);
    }
  }

  // ----- accepted lines and the items they become -----

  /** Line `line` is accepted and its name lower-cases to `k`. */
  predicate AcceptedWithKey(line: string, k: string)
  {
    ParseLine(line).Some? && Lower(ParseLine(line).value) == k
  }

  /** Line `line` is accepted. */
  predicate Accepted(line: string)
  {
    ParseLine(line).Some?
  }

  /** The indices of the elements of `xs` that satisfy `p`. */
  ghost function IndicesWhere<T>(xs: seq<T>, p: T -> bool): set<int>
  {
    set i | 0 <= i < |xs| && p(xs[i])
  }

  lemma IndicesWhereSnoc<T>(xs: seq<T>, p: T -> bool)
    requires xs != []
    ensures var n := |xs| - 1;
      IndicesWhere(xs, p) == IndicesWhere(xs[..n], p) + (if p(xs[n]) then {n} else {})
  {
    var n := |xs| - 1;
    assert forall i :: 0 <= i < n ==> xs[..n][i] == xs[i];
  }

  /** The indices of the accepted lines. */
  ghost function AcceptedLines(lines: seq<string>): set<int>
  {
    IndicesWhere(lines, Accepted)
  }

  /** The indices of the accepted lines whose name lower-cases to `k`. */
  ghost function LinesWithKey(lines: seq<string>, k: string): set<int>
  {
    IndicesWhere(lines, line => AcceptedWithKey(line, k))
  }

  /** Each accepted line contributes one item: the items number the accepted lines. */
  lemma {:induction false} AcceptedTotal(lines: seq<string>)
    ensures TotalQuantity(AcceptedItems(lines)) == |AcceptedLines(lines)|
  {
    if lines != [] {
      var n := |lines| - 1;
      AcceptedTotal(lines[..n]);
      IndicesWhereSnoc(lines, Accepted);
      assert n !in AcceptedLines(lines[..n]);
      var items := AcceptedItems(lines[..n]);
      match ParseLine(lines[n]) {
        case Some(name) =>
          assert (items + [Item(name, 1)])[..|items|] == items;
          assert TotalQuantity(items + [Item(name, 1)]) == TotalQuantity(items) + 1;
        case None =>
      }
    }
  }

  /** The summed quantity of key `k` over the items is the number of accepted lines with that key. */
  lemma {:induction false} AcceptedQuantity(lines: seq<string>, k: string)
    ensures QuantityOf(AcceptedItems(lines), k) == |LinesWithKey(lines, k)|
  {
    if lines != [] {
      var n := |lines| - 1;
      AcceptedQuantity(lines[..n], k);
      IndicesWhereSnoc(lines, line => AcceptedWithKey(line, k));
      assert n !in LinesWithKey(lines[..n], k);
      var items := AcceptedItems(lines[..n]);
      match ParseLine(lines[n]) {
        case Some(name) =>
          QuantityOfSnoc(items, Item(name, 1), k);
        case None =>
      }
    }
  }

  /** Some item has key `k` exactly when some accepted line has it. */
  lemma AcceptedHasKey(lines: seq<string>, k: string)
    ensures HasKey(AcceptedItems(lines), k) <==> LinesWithKey(lines, k) != {}
  {
    var items := AcceptedItems(lines);
    AcceptedQuantity(lines, k);
    AcceptedItemsClean(lines);
    QuantityPositive(items, k);
    if !HasKey(items, k) {
      QuantityOfAbsent(items, k);
    }
  }

  // ----- the first accepted line of each key -----

  /** The index of the first element of `xs` that satisfies `p`, or `|xs|` if there is none. */
  function FirstWhere<T>(xs: seq<T>, p: T -> bool): (r: nat)
    ensures r <= |xs|
    ensures r < |xs| ==> p(xs[r])
    ensures forall j :: 0 <= j < r ==> !p(xs[j])
  {
    if xs == [] then 0
    else if p(xs[0]) then 0
    else 1 + FirstWhere(xs[1..], p)
  }

  lemma FirstWhereSnoc<T>(xs: seq<T>, x: T, p: T -> bool)
    ensures FirstWhere(xs + [x], p) ==
      if FirstWhere(xs, p) < |xs| then FirstWhere(xs, p)
      else if p(x) then |xs| else |xs| + 1
  {
    var f := FirstWhere(xs, p);
    assert forall j :: 0 <= j < |xs| ==> (xs + [x])[j] == xs[j];
    if f < |xs| {
      assert (xs + [x])[f] == xs[f];
    } else if p(x) {
      assert (xs + [x])[|xs|] == x;
    }
  }

  /** The index of the first accepted line whose name lower-cases to `k`, or `|lines|`. */
  function FirstLine(lines: seq<string>, k: string): (r: nat)
    ensures r <= |lines|
    ensures r < |lines| ==> AcceptedWithKey(lines[r], k)
    ensures forall j :: 0 <= j < r ==> !AcceptedWithKey(lines[j], k)
  {
    FirstWhere(lines, line => AcceptedWithKey(line, k))
  }

  /**
   * The first item with key `k` comes from the first accepted line with that
   * key: one exists exactly when the other does, and the item's name is the
   * line's name.
   */
  lemma {:induction false} FirstLineOfKey(lines: seq<string>, k: string)
    ensures FirstIndex(AcceptedItems(lines), k) < |AcceptedItems(lines)| <==> FirstLine(lines, k) < |lines|
    ensures FirstLine(lines, k) < |lines| ==>
      ParseLine(lines[FirstLine(lines, k)]).value == AcceptedItems(lines)[FirstIndex(AcceptedItems(lines), k)].name
  {
    if lines != [] {
      var n := |lines| - 1;
      var pre, l := lines[..n], lines[n];
      LastSplit(lines);
      FirstLineOfKey(pre, k);
      FirstWhereSnoc(pre, l, line => AcceptedWithKey(line, k));
      var f := FirstLine(pre, k);
      if f < n {
        assert lines[f] == pre[f];
      }
      var ip := AcceptedItems(pre);
      match ParseLine(l) {
        case Some(name) =>
          var x := Item(name, 1);
          FirstIndexSnoc(ip, x, k);
          if FirstIndex(ip, k) < |ip| {
            assert (ip + [x])[FirstIndex(ip, k)] == ip[FirstIndex(ip, k)];
          }
        case None =>
      }
    }
  }

  lemma LastSplit<T>(s: seq<T>)
    requires s != []
    ensures s == s[..|s| - 1] + [s[|s| - 1]]
  {
  }

  /** Keys whose first items come in some order have their first accepted lines in the same order. */
  lemma {:induction false} FirstLineOrder(lines: seq<string>, k1: string, k2: string)
    requires FirstIndex(AcceptedItems(lines), k1) < FirstIndex(AcceptedItems(lines), k2) < |AcceptedItems(lines)|
    ensures FirstLine(lines, k1) < FirstLine(lines, k2)
  {
    assert lines != [];
    var n := |lines| - 1;
    var pre, l := lines[..n], lines[n];
    LastSplit(lines);
    FirstWhereSnoc(pre, l, line => AcceptedWithKey(line, k1));
    FirstWhereSnoc(pre, l, line => AcceptedWithKey(line, k2));
    var ip := AcceptedItems(pre);
    match ParseLine(l) {
      case Some(name) =>
        var x := Item(name, 1);
        FirstIndexSnoc(ip, x, k1);
        FirstIndexSnoc(ip, x, k2);
        if FirstIndex(ip, k2) < |ip| {
          FirstLineOrder(pre, k1, k2);
        } else {
          FirstLineOfKey(pre, k1);
          FirstLineOfKey(pre, k2);
        }
      case None =>
        FirstLineOrder(pre, k1, k2);
    }
  }

  // ----- what `parse_receipt_text` returns -----

  /** Every record has a quantity of at least 1 and a clean name of two characters or more. */
  lemma ParseRecordsClean(raw: string)
    ensures forall j :: 0 <= j < |Parse(raw)| ==> Parse(raw)[j].quantity >= 1 && IsCleanName(Parse(raw)[j].name)
  {
    var items := AcceptedItems(SplitLines(raw));
    AcceptedItemsClean(SplitLines(raw));
    MergedPositive(items);
    forall j | 0 <= j < |Parse(raw)|
      ensures IsCleanName(Parse(raw)[j].name)
    {
      MergedFirstSpelling(items, j);
    }
  }

  /** No two records have the same lower-cased name. */
  lemma ParseUniqueKeys(raw: string)
    ensures forall a, b :: 0 <= a < b < |Parse(raw)| ==> Key(Parse(raw)[a]) != Key(Parse(raw)[b])
  {
    MergedUniqueKeys(AcceptedItems(SplitLines(raw)));
  }

  /** The quantities add up to the number of accepted lines. */
  lemma ParseTotal(raw: string)
    ensures TotalQuantity(Parse(raw)) == |AcceptedLines(SplitLines(raw))|
  {
    MergedTotal(AcceptedItems(SplitLines(raw)));
    AcceptedTotal(SplitLines(raw));
  }

  /** The quantity of a record is the number of accepted lines whose name lower-cases to its key. */
  lemma ParseQuantity(raw: string, j: nat)
    requires j < |Parse(raw)|
    ensures Parse(raw)[j].quantity == |LinesWithKey(SplitLines(raw), Key(Parse(raw)[j]))|
  {
    var items := AcceptedItems(SplitLines(raw));
    MergedKeys(items);
    AcceptedQuantity(SplitLines(raw), Key(Parse(raw)[j]));
  }

  /** A lower-cased name has a record exactly when some accepted line has that name. */
  lemma ParseKeys(raw: string, k: string)
    ensures (exists j :: 0 <= j < |Parse(raw)| && Key(Parse(raw)[j]) == k) <==> LinesWithKey(SplitLines(raw), k) != {}
  {
    var items := AcceptedItems(SplitLines(raw));
    AcceptedHasKey(SplitLines(raw), k);
    MergedKeys(items);
    var ks := KeysOf(items);
    if k in ks {
      var j :| 0 <= j < |ks| && ks[j] == k;
      assert Key(Parse(raw)[j]) == k;
    }
  }

  /** A record is spelled as the first accepted line with its lower-cased name. */
  lemma ParseFirstSpelling(raw: string, j: nat)
    requires j < |Parse(raw)|
    ensures FirstLine(SplitLines(raw), Key(Parse(raw)[j])) < |SplitLines(raw)|
    ensures Parse(raw)[j].name == ParseLine(SplitLines(raw)[FirstLine(SplitLines(raw), Key(Parse(raw)[j]))]).value
  {
    MergedFirstSpelling(AcceptedItems(SplitLines(raw)), j);
    FirstLineOfKey(SplitLines(raw), Key(Parse(raw)[j]));
  }

  /** Records come in the order of the first accepted lines of their keys. */
  lemma ParseOrder(raw: string, a: nat, b: nat)
    requires a < b < |Parse(raw)|
    ensures FirstLine(SplitLines(raw), Key(Parse(raw)[a])) < FirstLine(SplitLines(raw), Key(Parse(raw)[b]))
  {
    var items := AcceptedItems(SplitLines(raw));
    MergedOrder(items);
    MergedFirstSpelling(items, b);
    FirstLineOrder(SplitLines(raw), Key(Parse(raw)[a]), Key(Parse(raw)[b]));
  }

  /** The result is empty exactly when no line is accepted. */
  lemma ParseEmpty(raw: string)
    ensures Parse(raw) == [] <==> AcceptedLines(SplitLines(raw)) == {}
  {
    var items := AcceptedItems(SplitLines(raw));
    AcceptedItemsClean(SplitLines(raw));
    TotalCountsItems(items);
    AcceptedTotal(SplitLines(raw));
    if items != [] {
      assert Key(items[0]) in KeysOf(items);
    }
  }

  /** Blank or whitespace-only text, the empty text included, gives no records. */
  lemma BlankInput(raw: string)
    requires AllSpace(raw)
    ensures Parse(raw) == []
  {
    var lines := SplitLines(raw);
    SplitLinesInherits(raw, IsSpace);
    forall i | 0 <= i < |lines|
      ensures !Accepted(lines[i])
    {
      StripEmptyIffBlank(lines[i]);
    }
    ParseEmpty(raw);
  }
}
