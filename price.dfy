/**
 * The price token `\b\d+\.\d{2}\b` of the parser: one or more digits, a dot and
 * exactly two digits, with a word boundary on each side. Searching (`search`)
 * and removing every match left to right (`sub` with an empty replacement).
 */
module Price {
  import opened Ascii
  import opened Wrappers

  /** Index `k` holds a word character; outside the string there is none. */
  predicate IsWordAt(s: string, k: int)
  {
    0 <= k < |s| && IsWordChar(s[k])
  }

  /** `\b` at position `k` (between `s[k-1]` and `s[k]`). */
  predicate IsBoundary(s: string, k: int)
  {
    IsWordAt(s, k - 1) != IsWordAt(s, k)
  }

  /** `s[i..e]` is a match of `\b\d+\.\d{2}\b` in `s`. */
  predicate IsPriceToken(s: string, i: int, e: int)
  {
    0 <= i && i + 4 <= e <= |s| &&
    IsBoundary(s, i) && IsBoundary(s, e) &&
    (forall k :: i <= k < e - 3 ==> IsDigit(s[k])) &&
    s[e - 3] == '.' && IsDigit(s[e - 2]) && IsDigit(s[e - 1])
  }

  /** The end of the run of digits that starts at index `i`. */
  function DigitRunEnd(s: string, i: nat): (j: nat)
    requires i <= |s|
    ensures i <= j <= |s|
    ensures forall k :: i <= k < j ==> IsDigit(s[k])
    ensures j == |s| || !IsDigit(s[j])
    decreases |s| - i
  {
    if i < |s| && IsDigit(s[i]) then DigitRunEnd(s, i + 1) else i
  }

  /**
   * The regular expression tried at index `i`: `\d+` takes the whole run of
   * digits (backtracking into it cannot help, since a digit is never a dot),
   * then a dot, two digits and a boundary must follow. The result is the end
   * of the match, and it is `Some(e)` exactly when `s[i..e]` is a price token.
   */
  function PriceEnd(s: string, i: nat): (r: Option<nat>)
    requires i <= |s|
    ensures forall e :: r == Some(e) <==> IsPriceToken(s, i, e)
  {
    if i < |s| && IsBoundary(s, i) && IsDigit(s[i]) then
      var j := DigitRunEnd(s, i);
      if j + 3 <= |s| && s[j] == '.' && IsDigit(s[j + 1]) && IsDigit(s[j + 2]) && IsBoundary(s, j + 3)
      then Some(j + 3)
      else None
    else None
  }

  /** Some match starts at index `p` or later. */
  ghost predicate HasPriceFrom(s: string, p: int)
  {
    exists i, e :: p <= i && IsPriceToken(s, i, e)
  }

  /** `price_re.search(s)` from index `p` on. */
  function SearchPrice(s: string, p: nat): (r: bool)
    requires p <= |s|
    ensures r <==> HasPriceFrom(s, p)
    decreases |s| - p
  {
    if PriceEnd(s, p).Some? then true
    else if p == |s| then false
    else SearchPrice(s, p + 1)
  }

  /** `price_re.search(s)` succeeds. */
  function HasPrice(s: string): (r: bool)
    ensures r <==> exists i, e :: IsPriceToken(s, i, e)
  {
    SearchPrice(s, 0)
  }

  /**
   * `price_re.sub("", s[p..])`, scanning the original string `s` from index
   * `p`: a match found at the scan position is dropped and the scan resumes at
   * its end, otherwise the character is kept. Boundaries are judged in `s`,
   * not in the text left after earlier removals.
   */
  function RemovePricesFrom(s: string, p: nat): (r: string)
    requires p <= |s|
    decreases |s| - p
  {
    if p == |s| then []
    else match PriceEnd(s, p)
      case Some(e) => RemovePricesFrom(s, e)
      case None => [s[p]] + RemovePricesFrom(s, p + 1)
  }

  /** `price_re.sub("", s)`, which never lengthens the text. */
  function RemovePrices(s: string): (r: string)
    ensures |r| <= |s|
  {
    RemoveShortensFrom(s, 0);
    RemovePricesFrom(s, 0)
  }

  /** Where no match starts at `p` or later, nothing is removed. */
  lemma {:induction false} RemoveNoMatchFrom(s: string, p: nat)
    requires p <= |s| && !HasPriceFrom(s, p)
    ensures RemovePricesFrom(s, p) == s[p..]
    decreases |s| - p
  {
    if p < |s| {
      assert PriceEnd(s, p).None?;
      RemoveNoMatchFrom(s, p + 1);
      assert s[p..] == [s[p]] + s[p + 1..];
    }
  }

  /** Text without a price token comes out of `sub` unchanged. */
  lemma RemoveNoMatch(s: string)
    requires !exists i, e :: IsPriceToken(s, i, e)
    ensures RemovePrices(s) == s
  {
    RemoveNoMatchFrom(s, 0);
  }

  /** A character a price token cannot hold. */
  predicate IsOtherChar(c: char)
  {
    !IsDigit(c) && c != '.'
  }

  /** The characters of `t` that no price token can hold, in order. */
  function OtherChars(t: string): string
  {
    if t == [] then [] else (if IsOtherChar(t[0]) then [t[0]] else []) + OtherChars(t[1..])
  }

  /** `OtherChars(s[p..])`, read off `s` by index. */
  function OtherCharsFrom(s: string, p: nat): string
    requires p <= |s|
    decreases |s| - p
  {
    if p == |s| then [] else (if IsOtherChar(s[p]) then [s[p]] else []) + OtherCharsFrom(s, p + 1)
  }

  lemma {:induction false} OtherCharsFromSlice(s: string, p: nat)
    requires p <= |s|
    ensures OtherCharsFrom(s, p) == OtherChars(s[p..])
    decreases |s| - p
  {
    if p < |s| {
      OtherCharsFromSlice(s, p + 1);
      assert s[p..][0] == s[p] && s[p..][1..] == s[p + 1..];
    }
  }

  /** A stretch of digits and dots holds no other character. */
  lemma {:induction false} OtherCharsSkip(s: string, j: nat, e: nat)
    requires j <= e <= |s|
    requires forall k :: j <= k < e ==> !IsOtherChar(s[k])
    ensures OtherCharsFrom(s, j) == OtherCharsFrom(s, e)
    decreases e - j
  {
    if j < e {
      OtherCharsSkip(s, j + 1, e);
    }
  }

  lemma {:induction false} RemoveKeepsOthersFrom(s: string, p: nat)
    requires p <= |s|
    ensures OtherChars(RemovePricesFrom(s, p)) == OtherCharsFrom(s, p)
    decreases |s| - p
  {
    if p < |s| {
      match PriceEnd(s, p) {
        case Some(e) =>
          assert IsPriceToken(s, p, e);
          RemoveKeepsOthersFrom(s, e);
          OtherCharsSkip(s, p, e);
        case None =>
          var rest := RemovePricesFrom(s, p + 1);
          RemoveKeepsOthersFrom(s, p + 1);
          assert ([s[p]] + rest)[0] == s[p] && ([s[p]] + rest)[1..] == rest;
      }
    }
  }

  /**
   * `sub` takes out only digits and dots: every other character of the text
   * is kept, in order.
   */
  lemma RemoveKeepsOthers(s: string)
    ensures OtherChars(RemovePrices(s)) == OtherChars(s)
  {
    RemoveKeepsOthersFrom(s, 0);
    OtherCharsFromSlice(s, 0);
    assert s[0..] == s;
  }

  lemma {:induction false} RemoveShortensFrom(s: string, p: nat)
    requires p <= |s|
    ensures |RemovePricesFrom(s, p)| <= |s| - p
    decreases |s| - p
  {
    if p < |s| {
      match PriceEnd(s, p) {
        case Some(e) =>
          assert IsPriceToken(s, p, e);
          RemoveShortensFrom(s, e);
        case None =>
          RemoveShortensFrom(s, p + 1);
      }
    }
  }

  /** A stretch without digits is copied as it is. */
  lemma {:induction false} RemoveCopiesNonDigits(s: string, p: nat, q: nat)
    requires p <= q <= |s|
    requires forall i :: p <= i < q ==> !IsDigit(s[i])
    ensures RemovePricesFrom(s, p) == s[p..q] + RemovePricesFrom(s, q)
    decreases q - p
  {
    if p < q {
      assert RemovePricesFrom(s, p) == [s[p]] + RemovePricesFrom(s, p + 1) by {
        assert PriceEnd(s, p) == None;
      }
      RemoveCopiesNonDigits(s, p + 1, q);
      CopiedHead(s, p, q, RemovePricesFrom(s, q));
    }
  }

  /** A token starting at the scan position is dropped whole, and the scan resumes at its end. */
  lemma RemoveDropsToken(s: string, p: nat, e: nat)
    requires IsPriceToken(s, p, e)
    ensures RemovePricesFrom(s, p) == RemovePricesFrom(s, e)
  {
    assert PriceEnd(s, p) == Some(e);
  }

  /** Digits right after a digit start no token: they are copied. */
  lemma {:induction false} RemoveCopiesInnerDigits(s: string, k: nat, q: nat)
    requires 0 < k <= q <= |s|
    requires forall i :: k - 1 <= i < q ==> IsDigit(s[i])
    ensures RemovePricesFrom(s, k) == s[k..q] + RemovePricesFrom(s, q)
    decreases q - k
  {
    if k < q {
      assert RemovePricesFrom(s, k) == [s[k]] + RemovePricesFrom(s, k + 1) by {
        assert IsWordAt(s, k - 1) && IsWordAt(s, k);
        assert PriceEnd(s, k) == None;
      }
      RemoveCopiesInnerDigits(s, k + 1, q);
      CopiedHead(s, k, q, RemovePricesFrom(s, q));
    }
  }

  /**
   * Where no token starts, the run of digits there is copied whole: `sub`
   * keeps a number that is not followed by a dot and exactly two digits.
   */
  lemma RemoveCopiesDigitRun(s: string, p: nat)
    requires p < |s|
    requires forall e :: !IsPriceToken(s, p, e)
    ensures RemovePricesFrom(s, p) == s[p..DigitRunEnd(s, p)] + RemovePricesFrom(s, DigitRunEnd(s, p))
  {
    var q := DigitRunEnd(s, p);
    if IsDigit(s[p]) {
      assert RemovePricesFrom(s, p) == [s[p]] + RemovePricesFrom(s, p + 1) by {
        assert PriceEnd(s, p) == None;
      }
      RemoveCopiesInnerDigits(s, p + 1, q);
      CopiedHead(s, p, q, RemovePricesFrom(s, q));
    } else {
      assert s[p..q] == [];
    }
  }

  /** A character followed by the rest of a slice is the whole slice. */
  lemma CopiedHead(s: string, k: nat, q: nat, r: string)
    requires k < q <= |s|
    ensures [s[k]] + (s[k + 1..q] + r) == s[k..q] + r
  {
    assert s[k..q] == [s[k]] + s[k + 1..q];
  }

  /** The digit run from `p` ends at the first index from `p` on that is no digit. */
  lemma DigitRunEndIs(s: string, p: nat, q: nat)
    requires p <= q <= |s|
    requires forall k :: p <= k < q ==> IsDigit(s[k])
    requires q == |s| || !IsDigit(s[q])
    ensures DigitRunEnd(s, p) == q
  {
  }

  /** A digit run that no dot follows starts no token. */
  lemma NoTokenWithoutDot(s: string, p: nat)
    requires p <= |s|
    requires DigitRunEnd(s, p) == |s| || s[DigitRunEnd(s, p)] != '.'
    ensures forall e :: !IsPriceToken(s, p, e)
  {
    forall e
      ensures !IsPriceToken(s, p, e)
    {
      if p + 4 <= e <= |s| && forall k :: p <= k < e - 3 ==> IsDigit(s[k]) {
        assert s[e - 3] != '.';
      }
    }
  }
}
