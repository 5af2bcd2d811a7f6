/** Worked receipts: two hand-built receipts that exercise every rule, and
    the receipts the unit tests of both copies build. */
module Scenarios {
  import opened Wrappers
  import opened Counting
  import opened Decimals
  import opened JavaText
  import opened Calendar
  import opened Receipts
  import opened Rules
  import A = ReceiptProcessorService

  /** A one-item sum is its term. */
  lemma SumOfOne(x: Item, f: Item -> int)
    ensures Sum([x], f) == f(x)
  {
    assert [x][..0] == [];
  }

  /** A two-item sum is the sum of the two terms. */
  lemma SumOfTwo(x: Item, y: Item, f: Item -> int)
    ensures Sum([x, y], f) == f(x) + f(y)
  {
    SumOfOne(x, f);
    assert [x, y][..1] == [x];
  }

  // "Target": one item "Pepsi - 12-oz" at 1.25, total 1.25, no date or time.

  function TargetReceipt(): Receipt
  {
    Receipt(Some("Target"), None, None, Some(Decimal(125, 2)),
            Some([Item(Some("Pepsi - 12-oz"), Some(Decimal(125, 2)))]))
  }

  /** 13 characters is not a multiple of 3. */
  lemma TargetItems()
    ensures DescriptionPoints(Flat, TargetReceipt().items.value) == 0
  {
    var item := TargetReceipt().items.value[0];
    PlainTrimmedLength("Pepsi - 12-oz");
    assert !EarnsDescriptionBonus(item);
    SumOfOne(item, FlatBonus);
    assert TargetReceipt().items.value == [item];
  }

  /** 6 letters + 25 for a multiple of 0.25; 1.25 is not whole and one
      item makes no pair. */
  lemma TargetCommon()
    ensures CommonPoints(TargetReceipt()) == 31
  {
    AllLettersOrDigits("Target");
    assert RoundTotalPoints(Decimal(125, 2)) == 0;
    assert QuarterTotalPoints(Decimal(125, 2)) == 25;
  }

  lemma TargetReceiptScores31()
    ensures A.ReceiptPoints(TargetReceipt()) == 31
  {
    TargetItems();
    TargetCommon();
  }

  // "M&M Corner Market" on an odd day at 14:33, total 9.00, two items with
  // six-character descriptions at 4.50 each.

  function CornerMarketReceipt(): Receipt
  {
    Receipt(Some("M&M Corner Market"), Some(Date(2022, 3, 21)), Some(TimeOf(14, 33, 0, 0)),
            Some(Decimal(900, 2)),
            Some([Item(Some("Cheese"), Some(Decimal(450, 2))),
                  Item(Some("Butter"), Some(Decimal(450, 2)))]))
  }

  lemma MAndMLetters()
    ensures LetterOrDigitCount("M&M ") == 2
  {
    AllLettersOrDigits("M");
    NoLettersOrDigits("&");
    NoLettersOrDigits(" ");
    LetterOrDigitCountConcat("M", "&");
    assert "M" + "&" == "M&";
    LetterOrDigitCountConcat("M&", "M");
    assert "M&" + "M" == "M&M";
    LetterOrDigitCountConcat("M&M", " ");
    assert "M&M" + " " == "M&M ";
  }

  lemma CornerMarketWordsLetters()
    ensures LetterOrDigitCount("Corner Market") == 12
  {
    AllLettersOrDigits("Corner");
    NoLettersOrDigits(" ");
    AllLettersOrDigits("Market");
    LetterOrDigitCountConcat("Corner", " ");
    assert "Corner" + " " == "Corner ";
    LetterOrDigitCountConcat("Corner ", "Market");
    assert "Corner " + "Market" == "Corner Market";
  }

  lemma CornerMarketLetters()
    ensures LetterOrDigitCount("M&M Corner Market") == 14
  {
    MAndMLetters();
    CornerMarketWordsLetters();
    LetterOrDigitCountConcat("M&M ", "Corner Market");
    assert "M&M " + "Corner Market" == "M&M Corner Market";
  }

  /** ceil(4.50 × 0.2) = ceil(0.900) = 1. */
  lemma FifthOfFourFifty()
    ensures RoundUpToWhole(Multiply(Decimal(450, 2), Fifth)) == 1
  {
    assert Multiply(Decimal(450, 2), Fifth) == Decimal(900, 3);
  }

  lemma CornerMarketBonus(item: Item, desc: string)
    requires desc == "Cheese" || desc == "Butter"
    requires item == Item(Some(desc), Some(Decimal(450, 2)))
    ensures FlatBonus(item) == 5
    ensures PriceBonus(item) == 1
  {
    PlainTrimmedLength(desc);
    assert EarnsDescriptionBonus(item);
    FifthOfFourFifty();
  }

  lemma CornerMarketItems()
    ensures DescriptionPoints(Flat, CornerMarketReceipt().items.value) == 10
    ensures DescriptionPoints(PriceBased, CornerMarketReceipt().items.value) == 2
  {
    var items := CornerMarketReceipt().items.value;
    CornerMarketBonus(items[0], "Cheese");
    CornerMarketBonus(items[1], "Butter");
    SumOfTwo(items[0], items[1], FlatBonus);
    SumOfTwo(items[0], items[1], PriceBonus);
    assert items == [items[0], items[1]];
  }

  /** 14 letters, 50 + 25 for a whole total, 5 for the pair, 6 for the
      21st, 10 for 14:33. */
  lemma CornerMarketCommon()
    ensures CommonPoints(CornerMarketReceipt()) == 110
  {
    var r := CornerMarketReceipt();
    CornerMarketLetters();
    WholeTotalEarnsBoth(Decimal(900, 2));
    assert OddDayPoints(r.purchaseDate) == 6;
    assert AfternoonPoints(r.purchaseTime) == 10;
  }

  /** With the flat bonus, 110 + 5 + 5 = 120. */
  lemma CornerMarketScoresFlat()
    ensures A.ReceiptPoints(CornerMarketReceipt()) == 120
  {
    CornerMarketCommon();
    CornerMarketItems();
  }

  /** The price-based copy gives each item 1 instead of 5: 112. */
  lemma CornerMarketScoresPriceBased()
    ensures TotalPoints(PriceBased, CornerMarketReceipt()) == 112
  {
    CornerMarketCommon();
    CornerMarketItems();
  }

  // The receipts the unit tests build. LocalDate.now() becomes `today`.

  /** The first copy's valid receipt: "SuperMart" today at 15:30, total
      6.48, "Milk" at 3.99 and "Bread" at 2.49. */
  function SuperMartReceipt(today: LocalDate): Receipt
  {
    Receipt(Some("SuperMart"), Some(today), Some(TimeOf(15, 30, 0, 0)), Some(Decimal(648, 2)),
            Some(SuperMartItemList()))
  }

  function SuperMartItemList(): seq<Item>
  {
    [Item(Some("Milk"), Some(Decimal(399, 2))), Item(Some("Bread"), Some(Decimal(249, 2)))]
  }

  /** Both items are valid; neither 4 nor 5 characters is a multiple of 3. */
  lemma SuperMartItems()
    ensures AllItemsValid(SuperMartItemList())
    ensures DescriptionPoints(Flat, SuperMartItemList()) == 0
  {
    var items := SuperMartItemList();
    assert !IsTrimmable("Milk"[0]) && !IsTrimmable("Bread"[0]);
    assert IsValidItem(items[0]) && IsValidItem(items[1]);
    PlainTrimmedLength("Milk");
    PlainTrimmedLength("Bread");
    assert !EarnsDescriptionBonus(items[0]) && !EarnsDescriptionBonus(items[1]);
    SumOfTwo(items[0], items[1], FlatBonus);
    assert items == [items[0], items[1]];
  }

  /** The receipt is accepted, so processing it saves it under the new id. */
  lemma SuperMartAccepted(store: Store, today: LocalDate, newId: Uuid)
    requires newId !in store
    ensures A.ValidateReceipt(SuperMartReceipt(today), today) == None
    ensures A.ProcessReceipt(store, SuperMartReceipt(today), today, newId).result == Success(newId)
  {
    SuperMartItems();
    assert !IsTrimmable("SuperMart"[0]);
    assert IsAcceptable(SuperMartReceipt(today), today);
  }

  /** 9 letters, no round-total or quarter bonus, 5 for the pair, 10 for
      15:30, and 6 more on an odd day. */
  lemma SuperMartCommon(today: LocalDate)
    ensures CommonPoints(SuperMartReceipt(today)) == 24 + OddDayPoints(Some(today))
  {
    var r := SuperMartReceipt(today);
    AllLettersOrDigits("SuperMart");
    assert RoundTotalPoints(Decimal(648, 2)) == 0;
    assert QuarterTotalPoints(Decimal(648, 2)) == 0;
    assert AfternoonPoints(r.purchaseTime) == 10;
  }

  lemma SuperMartScores(today: LocalDate)
    ensures A.ReceiptPoints(SuperMartReceipt(today)) == 24 + OddDayPoints(Some(today))
  {
    SuperMartItems();
    SuperMartCommon(today);
  }

  /** The first copy's invalid receipt: blank retailer, zero total, no
      items. The retailer check comes first, and nothing is saved. */
  lemma BlankRetailerRejected(store: Store, today: LocalDate, now: LocalTime, newId: Uuid)
    requires newId !in store
    ensures var r := Receipt(Some(""), Some(today), Some(now), Some(Decimal(0, 0)), Some([]));
            var out := A.ProcessReceipt(store, r, today, newId);
            && A.ValidateReceipt(r, today) == Some(RetailerRequired)
            && out.store == store
            && out.result == Failure(A.InvalidData(InvalidPrefix + RetailerRequired))
  {
  }

  /** The second copy's valid receipt: "Valid Retailer" today at 15:00,
      total 10, one "Valid Item" at 10. */
  function ValidRetailerReceipt(today: LocalDate): Receipt
  {
    Receipt(Some("Valid Retailer"), Some(today), Some(TimeOf(15, 0, 0, 0)), Some(Decimal(10, 0)),
            Some([ValidItem()]))
  }

  function ValidItem(): Item
  {
    Item(Some("Valid Item"), Some(Decimal(10, 0)))
  }

  lemma ValidRetailerLetters()
    ensures LetterOrDigitCount("Valid Retailer") == 13
  {
    AllLettersOrDigits("Valid");
    NoLettersOrDigits(" ");
    AllLettersOrDigits("Retailer");
    LetterOrDigitCountConcat("Valid", " ");
    assert "Valid" + " " == "Valid ";
    LetterOrDigitCountConcat("Valid ", "Retailer");
    assert "Valid " + "Retailer" == "Valid Retailer";
  }

  lemma ValidItemIsValid()
    ensures AllItemsValid([ValidItem()])
  {
    assert !IsTrimmable("Valid Item"[0]);
    assert IsValidItem(ValidItem());
  }

  /** 10 characters is not a multiple of 3. */
  lemma ValidItemEarnsNothing()
    ensures DescriptionPoints(PriceBased, [ValidItem()]) == 0
  {
    PlainTrimmedLength("Valid Item");
    assert !EarnsDescriptionBonus(ValidItem());
    assert PriceBonus(ValidItem()) == 0;
    SumOfOne(ValidItem(), PriceBonus);
  }

  /** Accepted; and each variation the tests make is refused with its own
      reason: no retailer, no items, a zero total, tomorrow's date. */
  lemma ValidRetailerValidation(today: LocalDate)
    ensures A.ValidateReceipt(ValidRetailerReceipt(today), today) == None
    ensures A.ValidateReceipt(ValidRetailerReceipt(today).(retailer := None), today)
            == Some(RetailerRequired)
    ensures A.ValidateReceipt(ValidRetailerReceipt(today).(items := None), today)
            == Some(ItemRequired)
    ensures A.ValidateReceipt(ValidRetailerReceipt(today).(total := Some(Zero)), today)
            == Some(PositiveTotalRequired)
    ensures PlusOneDay(today).Some? ==>
              A.ValidateReceipt(ValidRetailerReceipt(today).(purchaseDate := PlusOneDay(today)), today)
              == Some(DateInFuture)
  {
    var r := ValidRetailerReceipt(today);
    ValidItemIsValid();
    ValidItemEarnsNothing();
    assert !IsTrimmable("Valid Retailer"[0]);
    assert IsAcceptable(r, today);
  }

  /** 13 letters, 50 for a round total, 25 for quarters, no pair, no
      description bonus, 10 for 15:00, and 6 more on an odd day. */
  lemma ValidRetailerScores(today: LocalDate)
    ensures var r := ValidRetailerReceipt(today);
            && IsPriceScorable(r)
            && TotalPoints(PriceBased, r) == 98 + OddDayPoints(Some(today))
  {
    var r := ValidRetailerReceipt(today);
    ValidItemIsValid();
    ValidItemEarnsNothing();
    ValidRetailerLetters();
    WholeTotalEarnsBoth(Decimal(10, 0));
    assert ItemPairPoints(|r.items.value|) == 0;
    assert AfternoonPoints(r.purchaseTime) == 10;
  }

  // A receipt saved by generateId, which does not validate: empty retailer,
  // total 0.10, one item "abc" at -100.

  function UnvalidatedReceipt(): Receipt
  {
    Receipt(Some(""), None, None, Some(Decimal(10, 2)),
            Some([Item(Some("abc"), Some(Decimal(-100, 0)))]))
  }

  /** "abc" earns the description bonus, and -100 × 0.2 = -20.0 is already
      whole. */
  lemma UnvalidatedItemBonus()
    ensures var item := UnvalidatedReceipt().items.value[0];
            EarnsDescriptionBonus(item) && PriceBonus(item) == -20
  {
    PlainTrimmedLength("abc");
    assert Multiply(Decimal(-100, 0), Fifth) == Decimal(-200, 1);
    assert RoundUpToWhole(Decimal(-200, 1)) == -20;
  }

  /** Such a receipt is scorable but not well formed, and scores -20: its
      only points are the description bonus of its one item. */
  lemma UnvalidatedReceiptScoresNegative()
    ensures IsPriceScorable(UnvalidatedReceipt())
    ensures !IsWellFormed(UnvalidatedReceipt())
    ensures TotalPoints(PriceBased, UnvalidatedReceipt()) == -20
  {
    var r := UnvalidatedReceipt();
    var item := r.items.value[0];
    UnvalidatedItemBonus();
    SumOfOne(item, PriceBonus);
    assert r.items.value == [item];
    NoLettersOrDigits("");
    assert RoundTotalPoints(Decimal(10, 2)) == 0;
    assert QuarterTotalPoints(Decimal(10, 2)) == 0;
  }
}
