/**
 * `parse_receipt_text`: pasted receipt text in, merged candidate items out.
 * Each line is stripped; blank lines, lines naming a receipt-metadata keyword
 * and lines without a price are skipped; the prices are cut out of the rest,
 * the name is cleaned and names shorter than two characters are dropped; then
 * the items are merged by lower-cased name.
 */
module ReceiptParser {
  import opened Wrappers
  import opened Ascii
  import opened Strings
  import opened Lines
  import opened Keywords
  import opened Price
  import opened Merge

  /** The characters of `.strip(" -\t")`. */
  predicate IsEdgeJunk(c: char)
  {
    c == ' ' || c == '-' || c == '\t'
  }

  /** What every emitted name satisfies: two characters or more, no whitespace at either end, no whitespace run. */
  predicate IsCleanName(name: string)
  {
    |name| >= 2 && !IsSpace(name[0]) && !IsSpace(name[|name| - 1]) && NoDoubleSpace(name)
  }

  /**
   * The name left of an item line `s`: prices cut out, then space, `-` and tab
   * stripped from both ends, whitespace runs collapsed, and whitespace
   * stripped from both ends.
   */
  function CleanName(s: string): (name: string)
    ensures NoEdge(name, IsSpace) && NoDoubleSpace(name)
  {
    var collapsed := CollapseSpaces(Strip(RemovePrices(s), IsEdgeJunk));
    StripNoDoubleSpace(collapsed, IsSpace);
    Strip(collapsed, IsSpace)
  }

  /**
   * One iteration of the line loop: the name the line contributes, or `None`
   * when the line is blank, is noise, has no price, or leaves a name shorter
   * than two characters.
   */
  function ParseLine(line: string): (r: Option<string>)
    ensures r.Some? ==> IsCleanName(r.value)
    ensures r.Some? ==> !IsNoise(Strip(line, IsSpace))
    ensures r.Some? ==> exists i, e :: IsPriceToken(Strip(line, IsSpace), i, e)
  {
    var s := Strip(line, IsSpace);
    if s == [] || MatchesIgnore(s) || !HasPrice(s) then None
    else
      var name := CleanName(s);
      if |name| < 2 then None else Some(name)
  }

  /** The list `items` after the line loop: one item of quantity 1 per accepted line, in line order. */
  function AcceptedItems(lines: seq<string>): (items: seq<Item>)
    ensures |items| <= |lines|
    ensures forall i :: 0 <= i < |items| ==> items[i].quantity == 1
  {
    if lines == [] then []
    else
      var rest := AcceptedItems(lines[..|lines| - 1]);
      match ParseLine(lines[|lines| - 1])
      case Some(name) => rest + [Item(name, 1)]
      case None => rest
  }

  /** What `parse_receipt_text(raw)` returns: at most one record per line of the text. */
  function Parse(raw: string): (result: seq<Item>)
    ensures |result| <= |SplitLines(raw)|
  {
    Merged(AcceptedItems(SplitLines(raw)))
  }

  /** Every accepted item has quantity 1 and a clean name. */
  lemma {:induction false} AcceptedItemsClean(lines: seq<string>)
    ensures forall i :: 0 <= i < |AcceptedItems(lines)| ==>
      AcceptedItems(lines)[i].quantity == 1 && IsCleanName(AcceptedItems(lines)[i].name)
  {
    if lines != [] {
      var pre := lines[..|lines| - 1];
      AcceptedItemsClean(pre);
      var r := ParseLine(lines[|lines| - 1]);
      if r.Some? {
        CleanItemsSnoc(AcceptedItems(pre), Item(r.value, 1));
      }
    }
  }

  /** Appending an item of quantity 1 with a clean name keeps every item so. */
  lemma CleanItemsSnoc(items: seq<Item>, x: Item)
    requires forall i :: 0 <= i < |items| ==> items[i].quantity == 1 && IsCleanName(items[i].name)
    requires x.quantity == 1 && IsCleanName(x.name)
    ensures forall i :: 0 <= i < |items + [x]| ==> (items + [x])[i].quantity == 1 && IsCleanName((items + [x])[i].name)
  {
    forall i | 0 <= i < |items + [x]|
      ensures (items + [x])[i].quantity == 1 && IsCleanName((items + [x])[i].name)
    {
      if i < |items| {
        assert (items + [x])[i] == items[i];
      }
    }
  }

  lemma AcceptedItemsSnoc(lines: seq<string>, line: string)
    ensures AcceptedItems(lines + [line]) ==
      match ParseLine(line)
      case Some(name) => AcceptedItems(lines) + [Item(name, 1)]
      case None => AcceptedItems(lines)
  {
    assert (lines + [line])[..|lines|] == lines;
  }

  /**
   * The line loop of `parse_receipt_text`: every line of the text is stripped
   * and classified, and each accepted line appends `{name, quantity: 1}` to
   * `items`.
   */
  method CollectItems(lines: seq<string>) returns (items: seq<Item>)
    ensures items == AcceptedItems(lines)
  {
    items := [];
    var i := 0;
    while i < |lines|
      invariant 0 <= i <= |lines|
      invariant items == AcceptedItems(lines[..i])
    {
      var line := lines[i];
      PrefixSnoc(lines, i);
      AcceptedItemsSnoc(lines[..i], line);
      i := i + 1;
      var s := Strip(line, IsSpace);
      if s == [] {
        continue;
      }
      if MatchesIgnore(s) {
        continue;
      }
      if HasPrice(s) {
        var name := CleanName(s);
        if |name| < 2 {
          continue;
        }
        items := items + [Item(name, 1)];
      }
    }
    assert lines[..|lines|] == lines;
  }

  /** `parse_receipt_text`: split the text, run the line loop, then the merge loop. */
  method ParseReceiptText(raw: string) returns (result: seq<Item>)
    ensures result == Parse(raw)
  {
    var items := CollectItems(SplitLines(raw));
    result := MergeDuplicates(items);
  }
}
