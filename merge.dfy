/**
 * The duplicate merge at the end of the parser: items are grouped by their
 * lower-cased name, quantities are summed per group, the group keeps the
 * spelling of its first item, and groups come out in the order their keys
 * first appear (Python dictionaries keep insertion order).
 */
module Merge {
  import opened Ascii

  /** One candidate record `{"name": ..., "quantity": ...}`. */
  datatype Item = Item(name: string, quantity: int)

  /** The merge key `it["name"].lower()`. */
  function Key(it: Item): string
  {
    Lower(it.name)
  }

  predicate NoDuplicates(ks: seq<string>)
  {
    forall a, b :: 0 <= a < b < |ks| ==> ks[a] != ks[b]
  }

  /** Some item has key `k`. */
  ghost predicate HasKey(items: seq<Item>, k: string)
  {
    exists i :: 0 <= i < |items| && Key(items[i]) == k
  }

  /**
   * The distinct keys of `items` in the order of their first occurrence: the
   * keys the merge dictionary holds, in its insertion order.
   */
  function KeysOf(items: seq<Item>): (ks: seq<string>)
    ensures NoDuplicates(ks)
    ensures forall k :: k in ks <==> HasKey(items, k)
    ensures |ks| <= |items|
  {
    if items == [] then []
    else
      var pre := items[..|items| - 1];
      var ks := KeysOf(pre);
      var k := Key(items[|items| - 1]);
      assert forall k' :: HasKey(pre, k') ==> HasKey(items, k');
      if k in ks then ks else ks + [k]
  }

  /** The index of the first item with key `k`, or `|items|` if there is none. */
  function FirstIndex(items: seq<Item>, k: string): (r: nat)
    ensures r <= |items|
    ensures r < |items| ==> Key(items[r]) == k
    ensures forall j :: 0 <= j < r ==> Key(items[j]) != k
  {
    if items == [] then 0
    else if Key(items[0]) == k then 0
    else 1 + FirstIndex(items[1..], k)
  }

  /** The sum of the quantities of the items with key `k`. */
  function QuantityOf(items: seq<Item>, k: string): int
  {
    if items == [] then 0
    else
      var last := items[|items| - 1];
      QuantityOf(items[..|items| - 1], k) + (if Key(last) == k then last.quantity else 0)
  }

  /** The name of the first item with key `k` (empty if there is none). */
  function FirstName(items: seq<Item>, k: string): string
  {
    var i := FirstIndex(items, k);
    if i < |items| then items[i].name else ""
  }

  /** The record each key of `ks` stands for: its first spelling and its summed quantity. */
  function Records(items: seq<Item>, ks: seq<string>): (m: seq<Item>)
    ensures |m| == |ks|
  {
    seq(|ks|, j requires 0 <= j < |ks| => Item(FirstName(items, ks[j]), QuantityOf(items, ks[j])))
  }

  /** The merge of `items`: one record per key, in first-occurrence order. */
  function Merged(items: seq<Item>): (m: seq<Item>)
    ensures |m| == |KeysOf(items)|
  {
    Records(items, KeysOf(items))
  }

  /** The sum of all quantities. */
  function TotalQuantity(items: seq<Item>): int
  {
    if items == [] then 0 else TotalQuantity(items[..|items| - 1]) + items[|items| - 1].quantity
  }

  /** The sum of the quantities of every key in `ks`. */
  function SumOver(items: seq<Item>, ks: seq<string>): int
  {
    if ks == [] then 0 else SumOver(items, ks[..|ks| - 1]) + QuantityOf(items, ks[|ks| - 1])
  }

  // ----- how the specification functions grow by one item (used by the loop) -----

  lemma FirstIndexSnoc(items: seq<Item>, x: Item, k: string)
    ensures FirstIndex(items + [x], k) ==
      if FirstIndex(items, k) < |items| then FirstIndex(items, k)
      else if Key(x) == k then |items| else |items| + 1
  {
    var r, f := FirstIndex(items + [x], k), FirstIndex(items, k);
    assert forall j :: 0 <= j < |items| ==> (items + [x])[j] == items[j];
    if f < |items| {
      assert (items + [x])[f] == items[f];
    } else if Key(x) == k {
      assert (items + [x])[|items|] == x;
    }
  }

  lemma KeysOfSnoc(items: seq<Item>, x: Item)
    ensures KeysOf(items + [x]) ==
      if Key(x) in KeysOf(items) then KeysOf(items) else KeysOf(items) + [Key(x)]
  {
    assert (items + [x])[..|items|] == items;
  }

  lemma QuantityOfSnoc(items: seq<Item>, x: Item, k: string)
    ensures QuantityOf(items + [x], k) == QuantityOf(items, k) + (if Key(x) == k then x.quantity else 0)
  {
    assert (items + [x])[..|items|] == items;
  }

  /** A key that occurs has a first occurrence. */
  lemma FirstIndexPresent(items: seq<Item>, k: string)
    requires k in KeysOf(items)
    ensures FirstIndex(items, k) < |items|
  {
    var i :| 0 <= i < |items| && Key(items[i]) == k;
  }

  lemma {:induction false} QuantityOfAbsent(items: seq<Item>, k: string)
    requires !HasKey(items, k)
    ensures QuantityOf(items, k) == 0
  {
    if items != [] {
      var pre := items[..|items| - 1];
      QuantityOfAbsent(pre, k);
    }
  }

  // ----- what the merge promises -----

  /** The `j`-th record has the `j`-th key. */
  lemma MergedKeys(items: seq<Item>)
    ensures forall j :: 0 <= j < |Merged(items)| ==> Key(Merged(items)[j]) == KeysOf(items)[j]
  {
    var ks := KeysOf(items);
    forall j | 0 <= j < |ks|
      ensures Key(Merged(items)[j]) == ks[j]
    {
      assert HasKey(items, ks[j]);
    }
  }

  /** No two records have the same lower-cased name. */
  lemma MergedUniqueKeys(items: seq<Item>)
    ensures forall a, b :: 0 <= a < b < |Merged(items)| ==> Key(Merged(items)[a]) != Key(Merged(items)[b])
  {
    MergedKeys(items);
  }

  /**
   * Every item is represented: its key is the key of exactly one record, and
   * every record's key is the key of some item.
   */
  lemma MergedCoversItems(items: seq<Item>)
    ensures forall i :: 0 <= i < |items| ==> exists j :: 0 <= j < |Merged(items)| && Key(Merged(items)[j]) == Key(items[i])
    ensures forall j :: 0 <= j < |Merged(items)| ==> HasKey(items, Key(Merged(items)[j]))
  {
    MergedKeys(items);
    var ks := KeysOf(items);
    forall i | 0 <= i < |items|
      ensures exists j :: 0 <= j < |Merged(items)| && Key(Merged(items)[j]) == Key(items[i])
    {
      assert HasKey(items, Key(items[i]));
      var j :| 0 <= j < |ks| && ks[j] == Key(items[i]);
      assert Key(Merged(items)[j]) == Key(items[i]);
    }
  }

  /**
   * Each record keeps the spelling of the first item with its key: that item
   * exists, and no earlier item has the same key.
   */
  lemma MergedFirstSpelling(items: seq<Item>, j: nat)
    requires j < |Merged(items)|
    ensures FirstIndex(items, Key(Merged(items)[j])) < |items|
    ensures Merged(items)[j].name == items[FirstIndex(items, Key(Merged(items)[j]))].name
  {
    MergedKeys(items);
    assert HasKey(items, KeysOf(items)[j]);
  }

  /** The distinct keys are listed in the order of their first occurrences. */
  lemma {:induction false} KeysOfOrdered(items: seq<Item>)
    ensures forall a, b :: 0 <= a < b < |KeysOf(items)| ==>
      FirstIndex(items, KeysOf(items)[a]) < FirstIndex(items, KeysOf(items)[b])
  {
    if items != [] {
      var pre, x := items[..|items| - 1], items[|items| - 1];
      assert items == pre + [x];
      KeysOfOrdered(pre);
      KeysOfSnoc(pre, x);
      var ks, ks' := KeysOf(pre), KeysOf(items);
      forall a | 0 <= a < |ks|
        ensures ks'[a] == ks[a] && FirstIndex(items, ks[a]) == FirstIndex(pre, ks[a]) < |pre|
      {
        FirstIndexPresent(pre, ks[a]);
        FirstIndexSnoc(pre, x, ks[a]);
      }
      if Key(x) !in ks {
        FirstIndexSnoc(pre, x, Key(x));
        assert FirstIndex(items, ks'[|ks|]) == |pre|;
      }
    }
  }

  lemma MergedOrder(items: seq<Item>)
    ensures forall a, b :: 0 <= a < b < |Merged(items)| ==>
      FirstIndex(items, Key(Merged(items)[a])) < FirstIndex(items, Key(Merged(items)[b]))
  {
    MergedKeys(items);
    KeysOfOrdered(items);
  }

  /** A key that occurs among items of positive quantity has a positive sum. */
  lemma {:induction false} QuantityPositive(items: seq<Item>, k: string)
    requires forall i :: 0 <= i < |items| ==> items[i].quantity >= 1
    ensures QuantityOf(items, k) >= 0
    ensures HasKey(items, k) ==> QuantityOf(items, k) >= 1
  {
    if items != [] {
      var pre, x := items[..|items| - 1], items[|items| - 1];
      QuantityPositive(pre, k);
      if HasKey(items, k) && Key(x) != k {
        var i :| 0 <= i < |items| && Key(items[i]) == k;
        assert pre[i] == items[i];
      }
    }
  }

  /** Every record of a merge of positive quantities has a positive quantity. */
  lemma MergedPositive(items: seq<Item>)
    requires forall i :: 0 <= i < |items| ==> items[i].quantity >= 1
    ensures forall j :: 0 <= j < |Merged(items)| ==> Merged(items)[j].quantity >= 1
  {
    var ks := KeysOf(items);
    forall j | 0 <= j < |ks|
      ensures Merged(items)[j].quantity >= 1
    {
      QuantityPositive(items, ks[j]);
    }
  }

  lemma {:induction false} RecordsTotal(items: seq<Item>, ks: seq<string>)
    ensures TotalQuantity(Records(items, ks)) == SumOver(items, ks)
    decreases |ks|
  {
    if ks != [] {
      var pre := ks[..|ks| - 1];
      RecordsTotal(items, pre);
      assert Records(items, ks)[..|ks| - 1] == Records(items, pre);
    }
  }

  lemma {:induction false} SumOverSnoc(items: seq<Item>, x: Item, ks: seq<string>)
    requires NoDuplicates(ks)
    ensures SumOver(items + [x], ks) == SumOver(items, ks) + (if Key(x) in ks then x.quantity else 0)
    decreases |ks|
  {
    if ks != [] {
      var pre := ks[..|ks| - 1];
      assert NoDuplicates(pre);
      SumOverSnoc(items, x, pre);
      QuantityOfSnoc(items, x, ks[|ks| - 1]);
      assert Key(x) in ks <==> Key(x) in pre || Key(x) == ks[|ks| - 1];
      assert Key(x) in pre ==> Key(x) != ks[|ks| - 1];
    }
  }

  lemma SumOverLast(items: seq<Item>, ks: seq<string>, k: string)
    ensures SumOver(items, ks + [k]) == SumOver(items, ks) + QuantityOf(items, k)
  {
    assert (ks + [k])[..|ks|] == ks;
  }

  /** One more item adds its quantity to the sum over the distinct keys. */
  lemma SumOverKeysSnoc(pre: seq<Item>, x: Item)
    ensures SumOver(pre + [x], KeysOf(pre + [x])) == SumOver(pre, KeysOf(pre)) + x.quantity
  {
    KeysOfSnoc(pre, x);
    var ks := KeysOf(pre);
    SumOverSnoc(pre, x, ks);
    if Key(x) !in ks {
      SumOverLast(pre + [x], ks, Key(x));
      QuantityOfSnoc(pre, x, Key(x));
      QuantityOfAbsent(pre, Key(x));
    }
  }

  /** Summing over the distinct keys adds up every item once. */
  lemma {:induction false} SumOverKeys(items: seq<Item>)
    ensures SumOver(items, KeysOf(items)) == TotalQuantity(items)
  {
    if items != [] {
      var pre, x := items[..|items| - 1], items[|items| - 1];
      SumOverKeys(pre);
      SumOverKeysSnoc(pre, x);
      assert items == pre + [x];
    }
  }

  /** Merging conserves the total quantity. */
  lemma MergedTotal(items: seq<Item>)
    ensures TotalQuantity(Merged(items)) == TotalQuantity(items)
  {
    RecordsTotal(items, KeysOf(items));
    SumOverKeys(items);
  }

  /** The indices of the items with key `k`. */
  ghost function IndicesWithKey(items: seq<Item>, k: string): set<int>
  {
    set i | 0 <= i < |items| && Key(items[i]) == k
  }

  /** The indices with key `k` gain the last index when the last item has that key. */
  lemma IndicesWithKeySnoc(items: seq<Item>, k: string)
    requires items != []
    ensures var n := |items| - 1;
      IndicesWithKey(items, k) == IndicesWithKey(items[..n], k) + (if Key(items[n]) == k then {n} else {})
  {
    var n := |items| - 1;
    assert forall i :: 0 <= i < n ==> items[..n][i] == items[i];
  }

  /** When every item has quantity 1, a key's quantity is the number of items with that key. */
  lemma {:induction false} QuantityCountsItems(items: seq<Item>, k: string)
    requires forall i :: 0 <= i < |items| ==> items[i].quantity == 1
    ensures QuantityOf(items, k) == |IndicesWithKey(items, k)|
  {
    if items != [] {
      var n := |items| - 1;
      QuantityCountsItems(items[..n], k);
      IndicesWithKeySnoc(items, k);
      assert n !in IndicesWithKey(items[..n], k);
    } else {
      assert IndicesWithKey(items, k) == {};
    }
  }

  /** When every item has quantity 1, the total is the number of items. */
  lemma {:induction false} TotalCountsItems(items: seq<Item>)
    requires forall i :: 0 <= i < |items| ==> items[i].quantity == 1
    ensures TotalQuantity(items) == |items|
  {
    if items != [] {
      TotalCountsItems(items[..|items| - 1]);
    }
  }

  lemma FirstNameSnoc(items: seq<Item>, x: Item, k: string)
    ensures FirstName(items + [x], k) ==
      if HasKey(items, k) then FirstName(items, k)
      else if Key(x) == k then x.name else FirstName(items, k)
  {
    FirstIndexSnoc(items, x, k);
    var f := FirstIndex(items, k);
    if f < |items| {
      assert (items + [x])[f] == items[f];
    }
  }

  lemma PrefixSnoc<T>(s: seq<T>, i: nat)
    requires i < |s|
    ensures s[..i + 1] == s[..i] + [s[i]]
  {
  }

  /**
   * The state of the merge loop after `items`: the dictionary `merged` holds
   * one record per key of `items`, with its first spelling and summed
   * quantity, and `order` is its insertion order.
   */
  ghost predicate MergeState(items: seq<Item>, merged: map<string, Item>, order: seq<string>)
  {
    order == KeysOf(items) &&
    (forall k :: k in merged <==> k in order) &&
    (forall k :: k in merged ==> merged[k] == Item(FirstName(items, k), QuantityOf(items, k)))
  }

  /** One iteration of the merge loop keeps its state. */
  lemma MergeStep(pre: seq<Item>, x: Item, merged: map<string, Item>, order: seq<string>,
                  merged': map<string, Item>, order': seq<string>)
    requires MergeState(pre, merged, order)
    requires var record := if Key(x) in merged then merged[Key(x)] else Item(x.name, 0);
      merged' == merged[Key(x) := record.(quantity := record.quantity + x.quantity)]
    requires order' == if Key(x) in merged then order else order + [Key(x)]
    ensures MergeState(pre + [x], merged', order')
  {
    KeysOfSnoc(pre, x);
    forall k | k in merged'
      ensures merged'[k] == Item(FirstName(pre + [x], k), QuantityOf(pre + [x], k))
    {
      MergeStepRecord(pre, x, merged, order, merged', k);
    }
  }

  lemma MergeStepRecord(pre: seq<Item>, x: Item, merged: map<string, Item>, order: seq<string>,
                        merged': map<string, Item>, k: string)
    requires MergeState(pre, merged, order)
    requires var record := if Key(x) in merged then merged[Key(x)] else Item(x.name, 0);
      merged' == merged[Key(x) := record.(quantity := record.quantity + x.quantity)]
    requires k in merged'
    ensures merged'[k] == Item(FirstName(pre + [x], k), QuantityOf(pre + [x], k))
  {
    FirstNameSnoc(pre, x, k);
    QuantityOfSnoc(pre, x, k);
    if k == Key(x) {
      if k !in merged {
        QuantityOfAbsent(pre, k);
      }
    } else {
      assert merged'[k] == merged[k];
    }
  }

  /**
   * One iteration of the merge loop: `setdefault` gives the stored record of
   * the item's key, or inserts a new one of quantity 0 at the end of the
   * insertion order, and the item's quantity is added to it.
   */
  method AddItem(merged: map<string, Item>, order: seq<string>, it: Item)
    returns (merged': map<string, Item>, order': seq<string>)
    ensures var record := if Key(it) in merged then merged[Key(it)] else Item(it.name, 0);
      merged' == merged[Key(it) := record.(quantity := record.quantity + it.quantity)]
    ensures order' == if Key(it) in merged then order else order + [Key(it)]
  {
    var key := Lower(it.name);
    var record := if key in merged then merged[key] else Item(it.name, 0);
    order' := order;
    if key !in merged {
      order' := order + [key];
    }
    merged' := merged[key := record.(quantity := record.quantity + it.quantity)];
  }

  /**
   * The merge loop: `merged` is the dictionary from key to record and `order`
   * its insertion order; `setdefault` inserts a record of quantity 0 for a new
   * key, then the item's quantity is added. The result is `merged.values()`.
   */
  method MergeDuplicates(items: seq<Item>) returns (result: seq<Item>)
    ensures result == Merged(items)
  {
    var merged: map<string, Item> := map[];
    var order: seq<string> := [];
    ghost var done: seq<Item> := [];
    var n := 0;
    while n < |items|
      invariant 0 <= n <= |items| && done == items[..n]
      invariant MergeState(done, merged, order)
    {
      var it := items[n];
      ghost var merged0, order0 := merged, order;
      merged, order := AddItem(merged, order, it);
      MergeStep(done, it, merged0, order0, merged, order);
      PrefixSnoc(items, n);
      done := done + [it];
      n := n + 1;
    }
    assert done == items;
    MergeValues(items, merged, order);
    result := ValuesInOrder(merged, order);
  }

  /** `merged.values()`: the records of the keys of `order`, in that order. */
  function ValuesInOrder(merged: map<string, Item>, order: seq<string>): (values: seq<Item>)
    requires forall k :: k in order ==> k in merged
    ensures |values| == |order|
    ensures forall j :: 0 <= j < |order| ==> values[j] == merged[order[j]]
  {
    seq(|order|, j requires 0 <= j < |order| => merged[order[j]])
  }

  /** At the end of the loop the values of the dictionary, in insertion order, are the merge. */
  lemma MergeValues(items: seq<Item>, merged: map<string, Item>, order: seq<string>)
    requires MergeState(items, merged, order)
    ensures forall k :: k in order ==> k in merged
    ensures ValuesInOrder(merged, order) == Merged(items)
  {
  }
}
