# Receipt text parser — a verified Dafny model

This project models `parse_receipt_text` from `app/receipt_parser.py`, which turns pasted
receipt text into a list of candidate items `{"name", "quantity"}`. It also models the two
regular expressions the parser is built on:

- `ignore_re` is the case-insensitive alternation of the seventeen `IGNORE_PATTERNS`
  keywords.
- `price_re` is the price token `\b\d+\.\d{2}\b`.

The parser goes through the text line by line (`str.splitlines`) and first strips the line.
It then skips a line when any of these holds:

- the line is blank;
- it holds a keyword;
- it has no price token.

For the lines that remain, it cleans the name in four steps:

1. It removes every price token (`price_re.sub`).
2. It strips space, `-` and tab from both ends.
3. It collapses each whitespace run of length two or more into one space.
4. It strips the result again.

A name shorter than two characters is dropped. Every surviving line appends an item of
quantity 1. A second loop then merges the items by lower-cased name into a dictionary.
`setdefault` creates a record with the first-seen spelling and quantity 0, and each item adds
its quantity. The result is the dictionary's values in insertion order.

The model is arranged by component, one module each:

- `Ascii`: character classes `\d`, `\w`, `\s` and lower-casing.
- `Strings`: `strip`, whitespace collapsing and substring search.
- `Lines`: `splitlines`.
- `Price`: the price matcher, its search and its `sub`.
- `Keywords`: the keyword filter.
- `Merge`: the item record, the merge as a specification, and the merge loop.
- `ReceiptParser`: the cleaning of one line, the line loop and the top-level method.

`ReceiptProperties` proves what the parser promises about its output. `ReceiptExamples`
works through concrete receipts.

The two loops of the Python function are imperative methods:

- `ReceiptParser.CollectItems` is the line loop.
- `Merge.MergeDuplicates`, with `Merge.AddItem` for the `setdefault` and `+=` step, is the merge
  loop. The dictionary is a `map` together with the sequence of its keys in insertion order.

Each method is proved equal to a specification function:

- `ReceiptParser.AcceptedItems` specifies the line loop.
- `Merge.Merged` specifies the merge: one record per key, in first-occurrence order, with the
  first spelling and the summed quantity.

`ReceiptParser.ParseReceiptText` composes the two and returns `ReceiptParser.Parse(raw)`.
The per-line classification and cleaning are pure functions, as in the source.

Character classes follow Python on ASCII text:

- `\d` is `0`–`9`.
- `\w` is `[A-Za-z0-9_]`.
- Whitespace (`\s`, `str.strip()`) is space, `\t`, `\n`, `\v`, `\f`, `\r` and `\x1c`–`\x1f`.
- `lower()` maps `A`–`Z` to `a`–`z`.

`str.splitlines` ends a line at `\n`, `\r`, `\r\n`, `\v`, `\f`, `\x1c`, `\x1d` and `\x1e`, as
Python does on ASCII text. Splitting on `\n`, `\r\n` and `\r` alone would disagree with the
code on text that holds `\v`, `\f` or `\x1c`–`\x1e`, so this model follows the code.

A match of `price_re` starting at a given index is unique. The greedy `\d+` has to stop at the
end of the digit run, because the next character must be the `.`. So `Price.PriceEnd`
computes the match and is proved equivalent to the declarative `Price.IsPriceToken`.
`price_re.sub` scans left to right without overlap. It checks word boundaries against the
original string, not the partly rewritten one.

## Model

| member | source | states |
|---|---|---|
| Ascii.ToLower | app/receipt_parser.py:44 | lower-casing keeps letters letters, leaves no upper-case letter, changes no character that is not upper case, and maps each upper-case letter to the lower-case letter 32 code points above it |
| Ascii.ToLowerEq | app/receipt_parser.py:44 | two characters lower-case alike exactly when they are equal or the two cases of one letter |
| Ascii.LowerEq | app/receipt_parser.py:44 | `a.lower() == b.lower()`, the test behind the merge key, holds exactly when `a` and `b` have the same length and agree position by position up to case |
| Keywords.KeywordsAreLowerWords | app/receipt_parser.py:3-7 | there are seventeen keywords, each a non-empty word of lower-case letters (so `re.IGNORECASE` matching is matching against the lower-cased line) |
| Keywords.AnyOccurs | app/receipt_parser.py:9 | searching the alternation succeeds exactly when some alternative occurs as a substring |
| Keywords.MatchesIgnore | app/receipt_parser.py:9 | `ignore_re.search(s)` succeeds exactly when some keyword occurs in the lower-cased `s` |
| Strings.Contains | app/receipt_parser.py:9 | the substring search succeeds exactly when the pattern occurs at some index |
| Strings.ContainsFrom | app/receipt_parser.py:9 | the search from index `p` succeeds exactly when the pattern occurs at some index `>= p` |
| Price.DigitRunEnd | app/receipt_parser.py:11 | `\d+` run: every character before the returned index is a digit and the one at it is not |
| Price.PriceEnd | app/receipt_parser.py:11 | the match at `i` ends at `e` exactly when `s[i..e]` is a `\b\d+\.\d{2}\b` token |
| Price.SearchPrice | app/receipt_parser.py:11 | the search from `p` succeeds exactly when a token starts at or after `p` |
| Price.HasPrice | app/receipt_parser.py:30 | `price_re.search(s)` succeeds exactly when `s` holds some price token |
| Price.RemoveNoMatch | app/receipt_parser.py:32 | `sub` on text without a token returns the text unchanged |
| Price.RemoveKeepsOthers | app/receipt_parser.py:32 | `sub` deletes only digits and dots: all other characters are kept, in order |
| Price.RemovePrices | app/receipt_parser.py:32 | `price_re.sub("", s)` never makes the text longer |
| Price.RemoveDropsToken | app/receipt_parser.py:32 | a token that starts at the scan position is dropped whole, and the scan goes on from its end |
| Price.RemoveCopiesInnerDigits | app/receipt_parser.py:32 | digits right after a digit start no token (no `\b` between them), so `sub` copies them |
| Price.RemoveCopiesDigitRun | app/receipt_parser.py:32 | where no token starts, the whole run of digits there is copied and the scan goes on after it |
| Price.NoTokenWithoutDot | app/receipt_parser.py:11 | a run of digits not followed by `.` starts no token |
| Price.DigitRunEndIs | app/receipt_parser.py:11 | the digit run ends at the first index from its start that holds no digit |
| Price.RemoveCopiesNonDigits | app/receipt_parser.py:32 | a stretch without digits is copied unchanged by `sub` |
| Strings.TrimStart | app/receipt_parser.py:33 | the result is a suffix and every removed character is dropped; the result does not start with one |
| Strings.Strip | app/receipt_parser.py:23 | `strip` returns a slice of the input, every character removed on either side is one of the stripped set, and the result begins and ends with none of them |
| Strings.StripUnchanged | app/receipt_parser.py:32-33 | stripping text that has no stripped character at either end changes nothing |
| Strings.StripIdempotent | app/receipt_parser.py:23 | stripping twice is stripping once |
| Strings.StripAllDropped | app/receipt_parser.py:32 | text made only of stripped characters strips to nothing |
| Strings.StripTrailing | app/receipt_parser.py:32 | stripping text that has no stripped character at either end, followed by a run of stripped characters, gives the text back |
| Strings.StripEmptyIffBlank | app/receipt_parser.py:23-25 | `line.strip()` is empty exactly when the line is all whitespace |
| Strings.NoDoubleSpaceSlice | app/receipt_parser.py:33 | a slice of text without a whitespace pair has none either |
| Strings.StripNoDoubleSpace | app/receipt_parser.py:33 | the final `strip()` keeps the absence of whitespace pairs |
| Strings.NonSpaceTrimStart | app/receipt_parser.py:33 | removing leading whitespace keeps the non-whitespace characters |
| Strings.CollapseSpaces | app/receipt_parser.py:33 | `re.sub(r"\s{2,}", " ", s)` leaves no two adjacent whitespace characters, keeps every non-whitespace character in order, never lengthens, and starts with whitespace only if `s` does; what replaces a run is stated by `Strings.CollapseRun` |
| Strings.CollapseRunStart | app/receipt_parser.py:33 | a run of two or more whitespace characters at the start becomes one space, and collapsing goes on after the run |
| Strings.CollapseCopyFirst | app/receipt_parser.py:33 | a character that does not start a whitespace pair is copied |
| Strings.CollapseRun | app/receipt_parser.py:33 | in `a + w + b`, with `a` free of whitespace pairs and not ending in whitespace, `w` two or more whitespace characters and `b` not starting with whitespace, the collapse is `a + " " + ` the collapse of `b`: the run becomes exactly one space |
| Strings.CollapseRunStep | app/receipt_parser.py:33 | the step of that induction: a first character that starts no whitespace pair is copied in front of the collapsed rest |
| Strings.CollapseSpacesLast | app/receipt_parser.py:33 | the collapse ends in whitespace only if `s` does |
| Strings.TrimStartSpaces | app/receipt_parser.py:33 | leading whitespace in front of text that starts with none is removed exactly |
| Strings.CollapseSpacesNoop | app/receipt_parser.py:33 | collapsing text without whitespace pairs changes nothing |
| Strings.CollapseSpacesIdempotent | app/receipt_parser.py:33 | collapsing twice is collapsing once |
| Lines.NextBreak | app/receipt_parser.py:22 | the first separator at or after `p`, with none before it |
| Lines.BreakLength | app/receipt_parser.py:22 | a separator is two characters exactly when it is `\r` followed by `\n`, and one character otherwise |
| Lines.SplitFrom | app/receipt_parser.py:22 | splitting from `p` yields no lines exactly when nothing is left |
| Lines.SplitLines | app/receipt_parser.py:22 | `splitlines()` yields no lines exactly when the text is empty |
| Lines.SplitFromShift | app/receipt_parser.py:22 | splitting from a position does not depend on the text before it |
| Lines.SplitLinesCons | app/receipt_parser.py:22 | a separator-free first line, any one separator (`\n`, `\r`, `\r\n`, `\v`, `\f`, `\x1c`, `\x1d`, `\x1e`) and the rest split into that line followed by the lines of the rest; after a lone `\r` the rest must not start with `\n` |
| Lines.SplitOneLine | app/receipt_parser.py:22 | non-empty text without separators is one line |
| Lines.SplitTwoLines | app/receipt_parser.py:22 | two separator-free lines joined by any one separator split back into those two lines, or into the first alone when the second is empty (no trailing empty line) |
| Lines.SplitLinesInherits | app/receipt_parser.py:22 | a property of every character of the text holds for every character of every line |
| Lines.SplitLinesNoBreaks | app/receipt_parser.py:22 | no line holds a separator |
| Lines.SplitJoinRoundTrip | app/receipt_parser.py:22 | on text separated by `\n` alone and not ending in `\n`, joining the lines with `\n` gives the text back |
| Lines.SplitLinesKeepsText | app/receipt_parser.py:22 | the lines, concatenated, are the text without its separators: nothing else is lost or invented |
| Merge.KeysOf | app/receipt_parser.py:42-45 | the dictionary's keys: no duplicates, and exactly the lower-cased names of the items |
| Merge.FirstIndex | app/receipt_parser.py:45 | the index of the first item with a given key, with no earlier item having it |
| Merge.FirstIndexPresent | app/receipt_parser.py:45 | a key of the dictionary has a first item |
| Merge.QuantityOfAbsent | app/receipt_parser.py:46 | a key no item has collects quantity 0 |
| Merge.MergedKeys | app/receipt_parser.py:44-48 | the `j`-th record carries the `j`-th key in insertion order |
| Merge.MergedUniqueKeys | app/receipt_parser.py:42-48 | no two records have the same lower-cased name |
| Merge.MergedCoversItems | app/receipt_parser.py:43-45 | every item's key has a record, and every record's key belongs to some item |
| Merge.MergedFirstSpelling | app/receipt_parser.py:45 | each record's name is the name of the first item with its key (`setdefault` keeps the first spelling) |
| Merge.KeysOfOrdered | app/receipt_parser.py:45 | dictionary keys are in the order of their first items |
| Merge.MergedOrder | app/receipt_parser.py:44-48 | records are in the order in which their keys first occur |
| Merge.QuantityPositive | app/receipt_parser.py:45-46 | with positive quantities, a present key sums to at least 1 |
| Merge.MergedPositive | app/receipt_parser.py:45-46 | with positive quantities, every record has quantity at least 1 |
| Merge.MergedTotal | app/receipt_parser.py:45-46 | merging keeps the total quantity |
| Merge.QuantityCountsItems | app/receipt_parser.py:44-46 | with items of quantity 1, a key's quantity is the number of items with that key |
| Merge.TotalCountsItems | app/receipt_parser.py:39 | with items of quantity 1, the total is the number of items |
| Merge.MergeStep | app/receipt_parser.py:43-46 | one `setdefault` and `+=` step keeps the loop invariant: the dictionary holds, per key, the first spelling and the summed quantity of the items seen, and the insertion order is their first-occurrence order |
| Merge.AddItem | app/receipt_parser.py:44-46 | `setdefault` inserts `{name, 0}` for a new key, then the item's quantity is added to the key's record; a new key is appended to the insertion order |
| Merge.ValuesInOrder | app/receipt_parser.py:48 | `merged.values()`: the records of the keys, in insertion order |
| Merge.MergeValues | app/receipt_parser.py:48 | at the end of the loop, the values in insertion order are exactly the merge of the items |
| Merge.MergeDuplicates | app/receipt_parser.py:41-48 | the merge loop returns the merge of the items |
| ReceiptParser.CleanName | app/receipt_parser.py:32-33 | the cleaned name has no whitespace at either end and no whitespace pair |
| ReceiptParser.ParseLine | app/receipt_parser.py:23-39 | an accepted line gives a clean name of length at least 2, and its stripped text is not noise and holds a price token |
| ReceiptParser.AcceptedItems | app/receipt_parser.py:21-39 | the list `items`: at most one item per line, each of quantity 1 |
| ReceiptParser.Parse | app/receipt_parser.py:13-48 | what `parse_receipt_text(raw)` returns: at most one record per line of the text (what the records are is stated by the `ReceiptProperties.Parse` lemmas) |
| ReceiptParser.AcceptedItemsClean | app/receipt_parser.py:36-39 | every item the line loop appends has quantity 1 and a clean name of length at least 2 |
| ReceiptParser.AcceptedItemsSnoc | app/receipt_parser.py:22-39 | one more line appends its item exactly when it is accepted |
| ReceiptParser.CollectItems | app/receipt_parser.py:21-39 | the line loop builds exactly the items of the accepted lines, in line order |
| ReceiptParser.ParseReceiptText | app/receipt_parser.py:13-48 | `parse_receipt_text(raw)` returns the merge of the items of the accepted lines of `raw` |
| ReceiptProperties.NoiseStrip | app/receipt_parser.py:23-26 | a keyword occurs in the stripped line exactly when it occurs in the line |
| ReceiptProperties.PriceStrip | app/receipt_parser.py:23-30 | the stripped line holds a price token exactly when the line does |
| ReceiptProperties.ParseLineAccepts | app/receipt_parser.py:22-39 | a line is accepted exactly when it is not blank, holds no keyword, holds a price token and its cleaned name has at least two characters; the name is then that cleaned name |
| ReceiptProperties.NoiseLineIgnored | app/receipt_parser.py:26-27 | a line holding any keyword in any case contributes nothing, whether or not it has a price |
| ReceiptProperties.KeywordKeyLetter | app/receipt_parser.py:3-7 | every keyword holds one of the letters `a`, `c`, `r`, `t` |
| ReceiptProperties.NotNoise | app/receipt_parser.py:9 | a line without any of the letters `a`, `c`, `r`, `t`, in either case, is not noise |
| ReceiptProperties.PricelessLineIgnored | app/receipt_parser.py:30 | a line without a price token contributes nothing |
| ReceiptProperties.ItemLinePriceRemoved | app/receipt_parser.py:32 | in `name + gap + price`, with a digit-free name and a gap of spaces, `-` or tabs, the price is a token and `sub` leaves `name + gap` |
| ReceiptProperties.ItemLine | app/receipt_parser.py:30-39 | a clean, digit-free name, followed by a non-empty run of spaces, `-` or tabs and a price token, on a line without keywords, is accepted with exactly that name |
| ReceiptProperties.ItemLineCleaned | app/receipt_parser.py:23-39 | a stripped line with a price and no keyword, which `sub` turns into `name + tail` with `tail` made of space, `-` and tab, is accepted with `name` collapsed, when that is at least two characters |
| ReceiptProperties.ItemLineKept | app/receipt_parser.py:23-39 | the same for a name without whitespace pairs: the line gives exactly that name |
| ReceiptProperties.ItemLineRun | app/receipt_parser.py:23-39 | the same for a name `a + w + b` whose inner run `w` has two or more whitespace characters: the line gives `a + " " + b` |
| ReceiptProperties.CopyPart | app/receipt_parser.py:32 | a digit-free part of the line is copied by `sub` |
| ReceiptProperties.TokenPart | app/receipt_parser.py:11 | a price token placed between non-word characters is a token of the line |
| ReceiptProperties.ItemLineTwoPricesRemoved | app/receipt_parser.py:32 | in `name + gap + p1 + gap2 + p2`, with a digit-free name, non-word gaps and two price tokens, both are tokens of the line and `sub` removes both, leaving `name + gap + gap2` |
| ReceiptProperties.CountLineRemoved | app/receipt_parser.py:32 | a count of digits, then digit-free text not starting with `.` and a price token: the price is a token of the line and `sub` keeps the count, leaving `count + mid` |
| ReceiptProperties.CountPartsCopied | app/receipt_parser.py:32 | a count not followed by `.` and the digit-free text after it are both copied by `sub` |
| ReceiptProperties.AbsentNotAt | app/receipt_parser.py:9 | a word holding a character that the text never uses occurs nowhere in the text |
| ReceiptProperties.PinnedNotAt | app/receipt_parser.py:9 | a word whose character `k[t]` appears in the text only at `p` occurs nowhere if it does not match at `p - t` |
| ReceiptProperties.AcceptedTotal | app/receipt_parser.py:39 | the total quantity of the appended items is the number of accepted lines |
| ReceiptProperties.AcceptedQuantity | app/receipt_parser.py:39 | a key's summed quantity is the number of accepted lines whose name lower-cases to it |
| ReceiptProperties.AcceptedHasKey | app/receipt_parser.py:39 | a key occurs among the items exactly when some accepted line has it |
| ReceiptProperties.FirstLineOfKey | app/receipt_parser.py:39 | a key has a first item exactly when it has a first accepted line, and that item's name is that line's name |
| ReceiptProperties.FirstLineOrder | app/receipt_parser.py:39 | keys whose first items are in order have their first accepted lines in the same order |
| ReceiptProperties.ParseRecordsClean | app/receipt_parser.py:32-46 | every returned record has quantity at least 1 and a name of at least two characters, with no whitespace at either end and no whitespace pair |
| ReceiptProperties.ParseUniqueKeys | app/receipt_parser.py:42-48 | no two returned records have the same lower-cased name |
| ReceiptProperties.ParseTotal | app/receipt_parser.py:22-46 | the returned quantities add up to the number of lines that pass every filter |
| ReceiptProperties.ParseQuantity | app/receipt_parser.py:39-46 | a record's quantity is the number of accepted lines whose name lower-cases to its key |
| ReceiptProperties.ParseKeys | app/receipt_parser.py:39-48 | a key has a record exactly when some accepted line has it |
| ReceiptProperties.ParseFirstSpelling | app/receipt_parser.py:44-45 | a record's name is the name of the first accepted line with its key |
| ReceiptProperties.ParseOrder | app/receipt_parser.py:44-48 | records come in the order of the first accepted line of each key |
| ReceiptProperties.ParseEmpty | app/receipt_parser.py:22-48 | the result is empty exactly when no line is accepted |
| ReceiptProperties.BlankInput | app/receipt_parser.py:22-25 | blank or whitespace-only input, including the empty text, yields no records |
| ReceiptExamples.CardLineIgnored | app/receipt_parser.py:26-27 | `"VISA **** 1234  12.34"` contributes nothing |
| ReceiptExamples.TotalLineIgnored | app/receipt_parser.py:26-27 | `"TOTAL 5.90"` contributes nothing |
| ReceiptExamples.PaperNotNoise | app/receipt_parser.py:26-27 | `"Paper Towels   8.99"` holds no keyword, in any case |
| ReceiptExamples.PaperTowelsLine | app/receipt_parser.py:30-39 | `"Paper Towels   8.99"` gives `"Paper Towels"`: the price goes and so do the spaces before it |
| ReceiptExamples.EggsLine | app/receipt_parser.py:30-39 | `"Eggs 4.00"` gives the name `"Eggs"` |
| ReceiptExamples.LowerEggsLine | app/receipt_parser.py:30-39 | `"eggs 4.00"` gives the name `"eggs"` |
| ReceiptExamples.EggsSplit | app/receipt_parser.py:22 | `"Eggs 4.00\neggs 4.00"` splits into its two lines |
| ReceiptExamples.EggsAccepted | app/receipt_parser.py:21-39 | both lines are accepted, each as one item of quantity 1 |
| ReceiptExamples.EggsMerged | app/receipt_parser.py:42-48 | the two spellings merge into one record `"Eggs"` of quantity 2 |
| ReceiptExamples.EggsReceipt | app/receipt_parser.py:13-48 | `"Eggs 4.00\neggs 4.00"` gives one record named `"Eggs"` with quantity 2 |
| ReceiptExamples.MilkCountRemoved | app/receipt_parser.py:32 | `sub` turns `"2 x Milk 4.00"` into `"2 x Milk "`: the count is no price and stays |
| ReceiptExamples.MilkCountLine | app/receipt_parser.py:30-39 | `"2 x Milk 4.00"` gives `"2 x Milk"` |
| ReceiptExamples.LemonsRemoved | app/receipt_parser.py:32 | `sub` removes both the unit price and the extended price of `"Lemons 0.50 1.00"` |
| ReceiptExamples.LemonsLine | app/receipt_parser.py:30-39 | `"Lemons 0.50 1.00"` gives `"Lemons"` |
| ReceiptExamples.EggNoodlesLine | app/receipt_parser.py:30-39 | `"Egg  Noodles 2.50"` gives `"Egg Noodles"`: the double space inside the name becomes one |
| ReceiptExamples.DashLine | app/receipt_parser.py:30-37 | `"- 3.50"` has a price but leaves an empty name, so it is dropped |
| ReceiptExamples.DashReceipt | app/receipt_parser.py:13-48 | the receipt `"- 3.50"` gives no records |
| ReceiptExamples.CrLfSplit | app/receipt_parser.py:22 | `\r\n` is one separator |
| ReceiptExamples.CrMilkSplit | app/receipt_parser.py:22 | a lone `\r` at the start leaves an empty first line |
| ReceiptExamples.CrCrSplit | app/receipt_parser.py:22 | `\r\r` is two separators, with an empty line between them |
| ReceiptExamples.TotalsSplit | app/receipt_parser.py:22 | `"Milk 3.50"`, `"Bread 2.00"`, `"SUBTOTAL 5.50"`, `"TAX 0.40"` and `"TOTAL 5.90"`, joined by `\n`, split back into those five lines |
| ReceiptExamples.MilkLine | app/receipt_parser.py:30-39 | `"Milk 3.50"` gives `"Milk"` |
| ReceiptExamples.BreadNotNoise | app/receipt_parser.py:26-27 | `"Bread 2.00"` holds no keyword, in any case |
| ReceiptExamples.BreadLine | app/receipt_parser.py:30-39 | `"Bread 2.00"` gives `"Bread"` |
| ReceiptExamples.SubtotalIgnored | app/receipt_parser.py:26-27 | `"SUBTOTAL 5.50"` contributes nothing |
| ReceiptExamples.TaxIgnored | app/receipt_parser.py:26-27 | `"TAX 0.40"` contributes nothing |
| ReceiptExamples.TotalsAccepted | app/receipt_parser.py:21-39 | of the five lines, only the two item lines are accepted, in order |
| ReceiptExamples.MilkBreadMerged | app/receipt_parser.py:42-48 | two items with different keys are kept as they are |
| ReceiptExamples.TotalsReceipt | app/receipt_parser.py:13-48 | the five-line receipt gives `[Milk 1, Bread 1]`: subtotal, tax and total lines contribute nothing |

## Left out

- Unicode: `\d`, `\w` (and so `\b`), `\s`, `str.strip()`, `lower()` and `re.IGNORECASE` are modelled on ASCII characters only. Non-ASCII digits, letters, whitespace and case folding are not modelled; one example is the Kelvin sign matching `k` under `IGNORECASE`.
- `str.splitlines` also splits at `\x85`, `\u2028` and `\u2029`. These non-ASCII separators are not modelled.
- The item dictionaries `{"name": ..., "quantity": ...}` are the datatype `Merge.Item`. The dictionary `merged` is a `map` from key to record together with the sequence of its keys in insertion order, which is the order Python's `dict` keeps.
- The rest of the application is not part of this model: the Google sign-in flow, session cookies, database set-up, table declarations, configuration and the HTTP routes. None of it feeds into the parser.
- Ascii.Lower: its contract states only that the length is kept. Its body applies `Ascii.ToLower` at every position, and `Ascii.LowerEq` states when two strings lower-case alike.
- Merge.Merged: its contract states only the number of records. What the records are is stated by the Merge lemmas in the table above.
