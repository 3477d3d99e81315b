/**
 * The noise filter `ignore_re`: the alternation of seventeen receipt-metadata
 * keywords, searched case-insensitively anywhere in a line.
 */
module Keywords {
  import opened Ascii
  import opened Strings

  /** `IGNORE_PATTERNS`, in the order the alternation lists them. */
  const IgnorePatterns: seq<string> := [
    "subtotal", "tax", "total", "balance", "tender", "change",
    "visa", "mastercard", "debit", "credit", "auth", "approval",
    "cashier", "store", "receipt", "thank", "refund"
  ]

  /** Every keyword is a non-empty word of lower-case letters. */
  lemma KeywordsAreLowerWords()
    ensures |IgnorePatterns| == 17
    ensures forall k :: k in IgnorePatterns ==> |k| > 0 && forall t :: 0 <= t < |k| ==> 'a' <= k[t] <= 'z'
  {
  }

  /** Some keyword occurs in `s` when case is ignored. */
  ghost predicate IsNoise(s: string)
  {
    exists k :: k in IgnorePatterns && IsSubstring(k, Lower(s))
  }

  /** Some pattern of `pats` occurs in `t`. */
  function AnyOccurs(pats: seq<string>, t: string): (r: bool)
    ensures r <==> exists k :: k in pats && IsSubstring(k, t)
  {
    if pats == [] then false
    else Contains(pats[0], t) || AnyOccurs(pats[1..], t)
  }

  /**
   * `ignore_re.search(s)` succeeds. The keywords are lower case, so matching
   * with `re.IGNORECASE` is matching against the lower-cased line.
   */
  function MatchesIgnore(s: string): (r: bool)
    ensures r <==> IsNoise(s)
  {
    AnyOccurs(IgnorePatterns, Lower(s))
  }
}
