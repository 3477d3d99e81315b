/** The parser on a few receipt lines. */
module ReceiptExamples {
  import opened Wrappers
  import opened Ascii
  import opened Strings
  import opened Lines
  import opened Keywords
  import opened Price
  import opened Merge
  import opened ReceiptParser
  import opened ReceiptProperties

  /** A card line is noise even though it holds a price. */
  lemma CardLineIgnored()
    ensures ParseLine("VISA **** 1234  12.34") == None
  {
    var line := "VISA **** 1234  12.34";
    assert Lower(line)[0..4] == "visa";
    NoiseLineIgnored(line, "visa", 0);
  }

  /** A totals line is noise even though it holds a price. */
  lemma TotalLineIgnored()
    ensures ParseLine("TOTAL 5.90") == None
  {
    var line := "TOTAL 5.90";
    assert Lower(line)[0..5] == "total";
    NoiseLineIgnored(line, "total", 0);
  }

  /** `"Eggs 4.00"` gives the name `"Eggs"`. */
  lemma EggsLine()
    ensures ParseLine("Eggs 4.00") == Some("Eggs")
  {
    assert IsPriceToken("4.00", 0, 4);
    NotNoise("Eggs 4.00");
    ItemLine("Eggs 4.00", "Eggs", " ", "4.00");
  }

  /** `"eggs 4.00"` gives the name `"eggs"`. */
  lemma LowerEggsLine()
    ensures ParseLine("eggs 4.00") == Some("eggs")
  {
    assert IsPriceToken("4.00", 0, 4);
    NotNoise("eggs 4.00");
    ItemLine("eggs 4.00", "eggs", " ", "4.00");
  }

  /** The lower-cased `"Paper Towels   8.99"`. */
  lemma PaperLower()
    ensures Lower("Paper Towels   8.99") == "paper towels   8.99"
  {
  }

  /** The characters the lower-cased line is written with. */
  lemma PaperLetters()
    ensures UsesOnly("paper towels   8.99", "paer towls8.9")
  {
  }

  /** The only `o` of the line is at index 7. */
  lemma PaperOnlyO()
    ensures forall j :: 0 <= j < |"paper towels   8.99"| && "paper towels   8.99"[j] == 'o' ==> j == 7
  {
  }

  /** The letters that `"Paper Towels   8.99"` lacks and some keyword holds. */
  predicate PaperLacks(c: char)
  {
    c == 'b' || c == 'c' || c == 'd' || c == 'f' || c == 'h' || c == 'm' || c == 'n' || c == 'u' || c == 'v' || c == 'x'
  }

  /** Every keyword but `total` and `store` holds a letter that `"Paper Towels   8.99"` lacks. */
  lemma PaperKeyLetter(k: string)
    requires k in IgnorePatterns
    ensures k == "total" || k == "store" || exists t :: 0 <= t < |k| && PaperLacks(k[t])
  {
    if k in ["subtotal", "auth", "thank"] {
      assert PaperLacks(k[1]);
    } else if k in ["tax", "tender", "receipt", "refund"] {
      assert PaperLacks(k[2]);
    } else if k == "approval" {
      assert PaperLacks(k[5]);
    } else if k in ["balance", "change", "visa", "mastercard", "debit", "credit", "cashier"] {
      assert PaperLacks(k[0]);
    }
  }

  /**
   * No keyword occurs in the lower-cased line: each holds a letter the line
   * lacks, except `total` and `store`, which would need the one `o` of the
   * line at another place.
   */
  lemma PaperNoKeyword(k: string, i: int)
    requires k in IgnorePatterns
    ensures !OccursAt(k, "paper towels   8.99", i)
  {
    var s := "paper towels   8.99";
    PaperKeyLetter(k);
    if k == "total" {
      PaperOnlyO();
      PinnedNotAt(s, k, i, 1, 7, 2);
    } else if k == "store" {
      PaperOnlyO();
      PinnedNotAt(s, k, i, 2, 7, 0);
    } else {
      var t :| 0 <= t < |k| && PaperLacks(k[t]);
      PaperAbsentNotAt(k, i, t);
    }
  }

  /** A word holding a letter the line lacks does not occur in it. */
  lemma PaperAbsentNotAt(k: string, i: int, t: nat)
    requires t < |k| && PaperLacks(k[t])
    ensures !OccursAt(k, "paper towels   8.99", i)
  {
    PaperLetters();
    assert k[t] !in "paer towls8.9";
    AbsentNotAt("paper towels   8.99", "paer towls8.9", k, i, t);
  }

  /** `ignore_re` finds nothing in `"Paper Towels   8.99"`. */
  lemma PaperNotNoise()
    ensures !IsNoise("Paper Towels   8.99")
  {
    PaperLower();
    forall k, i | k in IgnorePatterns
      ensures !OccursAt(k, "paper towels   8.99", i)
    {
      PaperNoKeyword(k, i);
    }
  }

  /** `"Paper Towels   8.99"` gives `"Paper Towels"`: the price goes, and the spaces before it are stripped. */
  lemma PaperTowelsLine()
    ensures ParseLine("Paper Towels   8.99") == Some("Paper Towels")
  {
    assert IsPriceToken("8.99", 0, 4);
    PaperNotNoise();
    ItemLine("Paper Towels   8.99", "Paper Towels", "   ", "8.99");
  }

  /** The two lines of the receipt below. */
  lemma EggsSplit()
    ensures SplitLines("Eggs 4.00\neggs 4.00") == ["Eggs 4.00", "eggs 4.00"]
  {
    assert "Eggs 4.00" + "\n" + "eggs 4.00" == "Eggs 4.00\neggs 4.00";
    SplitTwoLines("Eggs 4.00", "\n", "eggs 4.00");
  }

  /** Both lines are accepted, each as one item. */
  lemma EggsAccepted()
    ensures AcceptedItems(["Eggs 4.00", "eggs 4.00"]) == [Item("Eggs", 1), Item("eggs", 1)]
  {
    var lines := ["Eggs 4.00", "eggs 4.00"];
    assert lines[..1] == ["Eggs 4.00"] && lines[..1][..0] == [];
    EggsLine();
    LowerEggsLine();
  }

  /** The two spellings share the key `"eggs"`. */
  lemma EggsKeys()
    ensures Key(Item("Eggs", 1)) == "eggs" && Key(Item("eggs", 1)) == "eggs"
  {
    assert Lower("Eggs") == "eggs";
    assert Lower("eggs") == "eggs";
  }

  /** Merging the two items keeps the first spelling and adds the quantities. */
  lemma EggsMerged()
    ensures Merged([Item("Eggs", 1), Item("eggs", 1)]) == [Item("Eggs", 2)]
  {
    var items := [Item("Eggs", 1), Item("eggs", 1)];
    EggsKeys();
    assert items[..1] == [items[0]] && items[..1][..0] == [];
    assert KeysOf([items[0]]) == ["eggs"];
    assert KeysOf(items) == ["eggs"];
    assert QuantityOf(items, "eggs") == 2;
    assert FirstIndex(items, "eggs") == 0;
  }

  /** The same item in two spellings is one record, with the first spelling and quantity 2. */
  lemma EggsReceipt()
    ensures Parse("Eggs 4.00\neggs 4.00") == [Item("Eggs", 2)]
  {
    EggsSplit();
    EggsAccepted();
    EggsMerged();
  }

  // ----- `sub` keeps a count and removes every price -----

  /** The count `2` is no price and is kept; the price `4.00` goes. */
  lemma MilkCountRemoved()
    ensures RemovePrices("2 x Milk 4.00") == "2 x Milk" + " "
  {
    assert IsPriceToken("4.00", 0, 4);
    assert "2" + " x Milk " == "2 x Milk ";
    CountLineRemoved("2 x Milk 4.00", "2", " x Milk ", "4.00");
    assert "2 x Milk" + " " == "2 x Milk ";
  }

  /** `"2 x Milk 4.00"` passes the line filters. */
  lemma MilkCountFilters()
    ensures NoEdge("2 x Milk 4.00", IsSpace) && HasPriceToken("2 x Milk 4.00")
    ensures !IsNoise("2 x Milk 4.00")
  {
    assert IsPriceToken("2 x Milk 4.00", 9, 13);
    NotNoise("2 x Milk 4.00");
  }

  /** `"2 x Milk"` has clean ends and no whitespace pair. */
  lemma MilkCountName()
    ensures NoEdge("2 x Milk", IsEdgeJunk) && NoEdge("2 x Milk", IsSpace)
    ensures NoDoubleSpace("2 x Milk")
  {
  }

  /** `"2 x Milk 4.00"` gives `"2 x Milk"`: the count stays in the name. */
  lemma MilkCountLine()
    ensures ParseLine("2 x Milk 4.00") == Some("2 x Milk")
  {
    MilkCountRemoved();
    MilkCountFilters();
    MilkCountName();
    ItemLineKept("2 x Milk 4.00", "2 x Milk", " ");
  }

  /** Both prices of `"Lemons 0.50 1.00"` go, with the spaces around them kept. */
  lemma LemonsRemoved()
    ensures IsPriceToken("Lemons 0.50 1.00", 12, 16)
    ensures RemovePrices("Lemons 0.50 1.00") == "Lemons" + "  "
  {
    var line := "Lemons 0.50 1.00";
    assert IsPriceToken("0.50", 0, 4) && IsPriceToken("1.00", 0, 4);
    assert "Lemons" + " " + "0.50" + " " + "1.00" == line;
    ItemLineTwoPricesRemoved(line, "Lemons", " ", "0.50", " ", "1.00");
    assert "Lemons" + " " + " " == "Lemons" + "  ";
  }

  /** `"Lemons 0.50 1.00"` passes the line filters. */
  lemma LemonsFilters()
    ensures NoEdge("Lemons 0.50 1.00", IsSpace) && HasPriceToken("Lemons 0.50 1.00")
    ensures !IsNoise("Lemons 0.50 1.00")
  {
    assert IsPriceToken("Lemons 0.50 1.00", 12, 16) by { LemonsRemoved(); }
    NotNoise("Lemons 0.50 1.00");
  }

  /** `"Lemons"` has clean ends and no whitespace pair. */
  lemma LemonsName()
    ensures NoEdge("Lemons", IsEdgeJunk) && NoEdge("Lemons", IsSpace) && NoDoubleSpace("Lemons")
  {
  }

  /** `"Lemons 0.50 1.00"`, a unit price and an extended price, gives `"Lemons"`. */
  lemma LemonsLine()
    ensures ParseLine("Lemons 0.50 1.00") == Some("Lemons")
  {
    LemonsRemoved();
    LemonsFilters();
    LemonsName();
    ItemLineKept("Lemons 0.50 1.00", "Lemons", "  ");
  }

  // ----- a whitespace run inside a name -----

  /** The price of `"Egg  Noodles 2.50"` goes, with the space before it kept. */
  lemma EggNoodlesRemoved()
    ensures IsPriceToken("Egg  Noodles 2.50", 13, 17)
    ensures RemovePrices("Egg  Noodles 2.50") == "Egg  Noodles" + " "
  {
    var line := "Egg  Noodles 2.50";
    assert IsPriceToken("2.50", 0, 4);
    assert "Egg  Noodles" + " " + "2.50" == line;
    ItemLinePriceRemoved(line, "Egg  Noodles", " ", "2.50");
  }

  /** `"Egg  Noodles 2.50"` passes the line filters. */
  lemma EggNoodlesFilters()
    ensures NoEdge("Egg  Noodles 2.50", IsSpace) && HasPriceToken("Egg  Noodles 2.50")
    ensures !IsNoise("Egg  Noodles 2.50")
  {
    assert IsPriceToken("Egg  Noodles 2.50", 13, 17) by { EggNoodlesRemoved(); }
    NotNoise("Egg  Noodles 2.50");
  }

  /** `"Egg"` and `"Noodles"`, joined by one space, are `"Egg Noodles"`. */
  lemma EggNoodlesWords()
    ensures NoEdge("Egg", IsEdgeJunk) && NoEdge("Egg", IsSpace) && NoDoubleSpace("Egg")
    ensures NoEdge("Noodles", IsEdgeJunk) && NoEdge("Noodles", IsSpace) && NoDoubleSpace("Noodles")
    ensures "Egg" + "  " + "Noodles" == "Egg  Noodles"
    ensures "Egg" + " " + "Noodles" == "Egg Noodles"
  {
  }

  /** `"Egg  Noodles 2.50"` gives `"Egg Noodles"`: the double space becomes one. */
  lemma EggNoodlesLine()
    ensures ParseLine("Egg  Noodles 2.50") == Some("Egg Noodles")
  {
    EggNoodlesRemoved();
    EggNoodlesFilters();
    EggNoodlesWords();
    ItemLineRun("Egg  Noodles 2.50", "Egg", "  ", "Noodles", " ");
  }

  // ----- a line that leaves too short a name -----

  /** `"- 3.50"` has a price but leaves an empty name, so it is dropped. */
  lemma DashLine()
    ensures ParseLine("- 3.50") == None
  {
    var line := "- 3.50";
    assert IsPriceToken("3.50", 0, 4);
    assert "" + "- " + "3.50" == line;
    ItemLinePriceRemoved(line, "", "- ", "3.50");
    assert "" + "- " == "- ";
    StripAllDropped("- ", IsEdgeJunk);
    StripUnchanged(line, IsSpace);
    assert CleanName(line) == [];
    ParseLineAccepts(line);
  }

  /** The receipt `"- 3.50"` gives no records. */
  lemma DashReceipt()
    ensures Parse("- 3.50") == []
  {
    SplitOneLine("- 3.50");
    DashLine();
    assert ["- 3.50"][..0] == [];
  }

  // ----- separators other than `\n` -----

  /** `\r\n` is one separator. */
  lemma CrLfSplit()
    ensures SplitLines("Eggs 4.00\r\nMilk 3.50") == ["Eggs 4.00", "Milk 3.50"]
  {
    assert "Eggs 4.00" + "\r\n" + "Milk 3.50" == "Eggs 4.00\r\nMilk 3.50";
    SplitTwoLines("Eggs 4.00", "\r\n", "Milk 3.50");
  }

  /** A lone `\r` at the start leaves an empty first line. */
  lemma CrMilkSplit()
    ensures SplitLines("" + "\r" + "Milk 3.50") == ["", "Milk 3.50"]
  {
    SplitTwoLines("", "\r", "Milk 3.50");
  }

  /** `\r\r` is two separators, with an empty line between them. */
  lemma CrCrSplit()
    ensures SplitLines("Eggs 4.00\r\rMilk 3.50") == ["Eggs 4.00", "", "Milk 3.50"]
  {
    assert "Eggs 4.00" + "\r" + ("" + "\r" + "Milk 3.50") == "Eggs 4.00\r\rMilk 3.50";
    SplitLinesCons("Eggs 4.00", "\r", "" + "\r" + "Milk 3.50");
    CrMilkSplit();
    assert ["Eggs 4.00"] + ["", "Milk 3.50"] == ["Eggs 4.00", "", "Milk 3.50"];
  }

  // ----- a receipt with totals lines -----

  /** The last two lines of the receipt below. */
  lemma TaxTotalSplit()
    ensures SplitLines("TAX 0.40\nTOTAL 5.90") == ["TAX 0.40", "TOTAL 5.90"]
  {
    assert "TAX 0.40" + "\n" + "TOTAL 5.90" == "TAX 0.40\nTOTAL 5.90";
    SplitTwoLines("TAX 0.40", "\n", "TOTAL 5.90");
  }

  lemma SubtotalSplit()
    ensures SplitLines("SUBTOTAL 5.50" + "\n" + ("TAX 0.40" + "\n" + "TOTAL 5.90")) ==
      ["SUBTOTAL 5.50", "TAX 0.40", "TOTAL 5.90"]
  {
    assert "TAX 0.40" + "\n" + "TOTAL 5.90" == "TAX 0.40\nTOTAL 5.90";
    SplitLinesCons("SUBTOTAL 5.50", "\n", "TAX 0.40" + "\n" + "TOTAL 5.90");
    TaxTotalSplit();
  }

  lemma BreadSplit()
    ensures SplitLines("Bread 2.00" + "\n" + ("SUBTOTAL 5.50" + "\n" + ("TAX 0.40" + "\n" + "TOTAL 5.90"))) ==
      ["Bread 2.00", "SUBTOTAL 5.50", "TAX 0.40", "TOTAL 5.90"]
  {
    var rest := "SUBTOTAL 5.50" + "\n" + ("TAX 0.40" + "\n" + "TOTAL 5.90");
    SplitLinesCons("Bread 2.00", "\n", rest);
    SubtotalSplit();
  }

  /** The five lines of the receipt below. */
  lemma TotalsSplit()
    ensures SplitLines("Milk 3.50" + "\n" + ("Bread 2.00" + "\n" + ("SUBTOTAL 5.50" + "\n" + ("TAX 0.40" + "\n" + "TOTAL 5.90")))) ==
      ["Milk 3.50", "Bread 2.00", "SUBTOTAL 5.50", "TAX 0.40", "TOTAL 5.90"]
  {
    var rest := "Bread 2.00" + "\n" + ("SUBTOTAL 5.50" + "\n" + ("TAX 0.40" + "\n" + "TOTAL 5.90"));
    SplitLinesCons("Milk 3.50", "\n", rest);
    BreadSplit();
  }

  /** `"Milk 3.50"` gives `"Milk"`. */
  lemma MilkLine()
    ensures ParseLine("Milk 3.50") == Some("Milk")
  {
    assert IsPriceToken("3.50", 0, 4);
    NotNoise("Milk 3.50");
    ItemLine("Milk 3.50", "Milk", " ", "3.50");
  }

  /** The letters that `"Bread 2.00"` lacks and some keyword holds. */
  predicate BreadLacks(c: char)
  {
    c == 'c' || c == 'f' || c == 'i' || c == 'l' || c == 'm' || c == 'p' || c == 's' || c == 't' || c == 'u' || c == 'v'
  }

  /** Every keyword holds a letter that `"Bread 2.00"` lacks. */
  lemma BreadKeyLetter(k: string)
    requires k in IgnorePatterns
    ensures exists t :: 0 <= t < |k| && BreadLacks(k[t])
  {
    if k in ["auth", "approval"] {
      assert BreadLacks(k[1]);
    } else if k in ["balance", "receipt", "refund"] {
      assert BreadLacks(k[2]);
    } else if k == "debit" {
      assert BreadLacks(k[3]);
    } else {
      assert BreadLacks(k[0]);
    }
  }

  /** The lower-cased `"Bread 2.00"` and the characters it is written with. */
  lemma BreadLetters()
    ensures Lower("Bread 2.00") == "bread 2.00"
    ensures UsesOnly("bread 2.00", "bread 2.0")
  {
  }

  /** No keyword occurs in the lower-cased line. */
  lemma BreadNoKeyword(k: string, i: int)
    requires k in IgnorePatterns
    ensures !OccursAt(k, "bread 2.00", i)
  {
    BreadKeyLetter(k);
    var t :| 0 <= t < |k| && BreadLacks(k[t]);
    BreadLetters();
    assert k[t] !in "bread 2.0";
    AbsentNotAt("bread 2.00", "bread 2.0", k, i, t);
  }

  /** `ignore_re` finds nothing in `"Bread 2.00"`. */
  lemma BreadNotNoise()
    ensures !IsNoise("Bread 2.00")
  {
    BreadLetters();
    forall k, i | k in IgnorePatterns
      ensures !OccursAt(k, "bread 2.00", i)
    {
      BreadNoKeyword(k, i);
    }
  }

  /** `"Bread 2.00"` gives `"Bread"`. */
  lemma BreadLine()
    ensures ParseLine("Bread 2.00") == Some("Bread")
  {
    assert IsPriceToken("2.00", 0, 4);
    BreadNotNoise();
    ItemLine("Bread 2.00", "Bread", " ", "2.00");
  }

  /** The subtotal line is noise. */
  lemma SubtotalIgnored()
    ensures ParseLine("SUBTOTAL 5.50") == None
  {
    assert Lower("SUBTOTAL 5.50")[0..8] == "subtotal";
    NoiseLineIgnored("SUBTOTAL 5.50", "subtotal", 0);
  }

  /** The tax line is noise. */
  lemma TaxIgnored()
    ensures ParseLine("TAX 0.40") == None
  {
    assert Lower("TAX 0.40")[0..3] == "tax";
    NoiseLineIgnored("TAX 0.40", "tax", 0);
  }

  /** The two item lines are accepted, in order. */
  lemma MilkBreadAccepted()
    ensures AcceptedItems(["Milk 3.50", "Bread 2.00"]) == [Item("Milk", 1), Item("Bread", 1)]
  {
    var lines := ["Milk 3.50", "Bread 2.00"];
    assert lines[..1] == ["Milk 3.50"] && lines[..1][..0] == [];
    MilkLine();
    BreadLine();
  }

  /** Five elements, as two followed by three appended one at a time. */
  lemma FiveAsSnocs<T>(a: T, b: T, c: T, d: T, e: T)
    ensures [a, b] + [c] + [d] + [e] == [a, b, c, d, e]
  {
  }

  /** Only the two item lines are accepted. */
  lemma TotalsAccepted()
    ensures AcceptedItems(["Milk 3.50", "Bread 2.00", "SUBTOTAL 5.50", "TAX 0.40", "TOTAL 5.90"]) ==
      [Item("Milk", 1), Item("Bread", 1)]
  {
    var l2 := ["Milk 3.50", "Bread 2.00"];
    var l3 := l2 + ["SUBTOTAL 5.50"];
    var l4 := l3 + ["TAX 0.40"];
    MilkBreadAccepted();
    SubtotalIgnored();
    TaxIgnored();
    TotalLineIgnored();
    AcceptedItemsSnoc(l2, "SUBTOTAL 5.50");
    AcceptedItemsSnoc(l3, "TAX 0.40");
    AcceptedItemsSnoc(l4, "TOTAL 5.90");
    FiveAsSnocs("Milk 3.50", "Bread 2.00", "SUBTOTAL 5.50", "TAX 0.40", "TOTAL 5.90");
  }

  /** Two items with different keys are kept as they are. */
  lemma MilkBreadMerged()
    ensures Merged([Item("Milk", 1), Item("Bread", 1)]) == [Item("Milk", 1), Item("Bread", 1)]
  {
    var items := [Item("Milk", 1), Item("Bread", 1)];
    assert Lower("Milk") == "milk" && Lower("Bread") == "bread";
    assert items[..1] == [items[0]] && items[..1][..0] == [];
    assert KeysOf([items[0]]) == ["milk"];
    assert KeysOf(items) == ["milk", "bread"];
    assert QuantityOf(items, "milk") == 1 && QuantityOf(items, "bread") == 1;
    assert FirstIndex(items, "milk") == 0 && FirstIndex(items, "bread") == 1;
  }

  /** Subtotal, tax and total lines contribute nothing; the two items stay in order. */
  lemma TotalsReceipt()
    ensures Parse("Milk 3.50" + "\n" + ("Bread 2.00" + "\n" + ("SUBTOTAL 5.50" + "\n" + ("TAX 0.40" + "\n" + "TOTAL 5.90")))) ==
      [Item("Milk", 1), Item("Bread", 1)]
  {
    TotalsSplit();
    TotalsAccepted();
    MilkBreadMerged();
  }
}
