/** What each of the seven points rules awards, stated on the meaning of
    the receipt rather than on the BigDecimal and String calls the two
    service copies make. Rules 1-4, 6 and 7 are the same in both copies;
    rule 5 (the description bonus) comes in a flat and a price-based
    variant. */
module Rules {
  import opened Wrappers
  import opened Decimals
  import opened JavaText
  import opened Calendar
  import opened Receipts
  import opened Counting

  /** LocalTime.of(14, 0) and LocalTime.of(16, 0). */
  const TwoPm: LocalTime := TimeOf(14, 0, 0, 0)
  const FourPm: LocalTime := TimeOf(16, 0, 0, 0)

  /** Rule 1: one point per letter or digit of the retailer name. */
  ghost function RetailerPoints(retailer: string): nat
  {
    LetterOrDigitCount(retailer)
  }

  /** Rule 2: 50 points when the total is a whole number of dollars. */
  ghost function RoundTotalPoints(total: Decimal): nat
  {
    if IsWhole(total) then 50 else 0
  }

  /** Rule 3: 25 points when the total is a whole number of quarters. */
  ghost function QuarterTotalPoints(total: Decimal): nat
  {
    if IsWholeQuarters(total) then 25 else 0
  }

  /** Rule 4: 5 points per complete pair of items. */
  ghost function ItemPairPoints(count: nat): nat
  {
    (count / 2) * 5
  }

  /** Rule 6: 6 points when the purchase day of the month is odd. */
  ghost function OddDayPoints(date: Option<LocalDate>): nat
  {
    if date.Some? && date.value.day % 2 != 0 then 6 else 0
  }

  /** Rule 7: 10 points for a purchase strictly between 14:00 and 16:00. */
  ghost function AfternoonPoints(time: Option<LocalTime>): nat
  {
    if time.Some? && time.value > TwoPm && time.value < FourPm then 10 else 0
  }

  /** Rules 1-4, 6 and 7 together: the part both copies agree on. */
  ghost function CommonPoints(r: Receipt): nat
    requires r.retailer.Some? && r.total.Some? && r.items.Some?
  {
    RetailerPoints(r.retailer.value)
    + RoundTotalPoints(r.total.value)
    + QuarterTotalPoints(r.total.value)
    + ItemPairPoints(|r.items.value|)
    + OddDayPoints(r.purchaseDate)
    + AfternoonPoints(r.purchaseTime)
  }

  /** The two variants of rule 5. */
  datatype DescriptionRule =
    | Flat        // com.receiptprocessor: 5 points per qualifying item
    | PriceBased  // com.receipts.ReceiptProcessor: ceil(price × 0.2) per qualifying item

  /** Rule 5, flat variant, for one item. */
  ghost function FlatBonus(item: Item): int
  {
    if EarnsDescriptionBonus(item) then 5 else 0
  }

  /** Rule 5, price-based variant, for one item:
      price.multiply(valueOf(0.2)).setScale(0, ROUND_UP).intValue().
      A qualifying item without a price is outside IsPriceScorable. */
  ghost function PriceBonus(item: Item): int
  {
    if EarnsDescriptionBonus(item) && item.price.Some?
    then RoundUpToWhole(Multiply(item.price.value, Fifth))
    else 0
  }

  ghost function Bonus(rule: DescriptionRule): Item -> int
  {
    match rule
    case Flat => FlatBonus
    case PriceBased => PriceBonus
  }

  /** Rule 5 summed over the items, in order. */
  ghost function DescriptionPoints(rule: DescriptionRule, items: seq<Item>): int
  {
    Sum(items, Bonus(rule))
  }

  /** The points a receipt earns when rule 5 is `rule`: the shared rules
      plus that variant of the description bonus. */
  ghost function TotalPoints(rule: DescriptionRule, r: Receipt): int
    requires r.retailer.Some? && r.total.Some? && r.items.Some?
  {
    CommonPoints(r) + DescriptionPoints(rule, r.items.value)
  }

  /** Rule 5 does not depend on the order of the items. */
  lemma DescriptionPointsPermutation(rule: DescriptionRule, a: seq<Item>, b: seq<Item>)
    requires multiset(a) == multiset(b)
    ensures DescriptionPoints(rule, a) == DescriptionPoints(rule, b)
  {
    SumPermutation(a, b, Bonus(rule));
  }

  /** The number of items that earn the description bonus. */
  ghost function QualifyingCount(items: seq<Item>): nat
  {
    |Positions(items, EarnsDescriptionBonus)|
  }

  /** The flat variant awards exactly 5 points per qualifying item. */
  lemma {:induction false} FlatPointsCountQualifying(items: seq<Item>)
    ensures DescriptionPoints(Flat, items) == 5 * QualifyingCount(items)
  {
    if |items| > 0 {
      var front := items[..|items| - 1];
      FlatPointsCountQualifying(front);
      assert items == front + [items[|items| - 1]];
      PositionsAppend(front, items[|items| - 1], EarnsDescriptionBonus);
    } else {
      PositionsEmpty(items, EarnsDescriptionBonus);
    }
  }

  /** For a positive price the price-based bonus is ceil(price / 5), at
      every scale, and so at least 1. */
  lemma PriceBonusIsCeilingOfFifth(item: Item)
    requires EarnsDescriptionBonus(item) && HasPositivePrice(item)
    ensures PriceBonus(item) >= 1
    ensures IsCeilingOfFifth(PriceBonus(item), item.price.value)
  {
    assert PriceBonus(item) == RoundUpToWhole(Multiply(item.price.value, Fifth));
    FifthRoundedUp(item.price.value);
  }

  /** With positive prices, each qualifying item adds at least one point, so
      the price-based variant awards at least as many points as there are
      qualifying items. */
  lemma {:induction false} PriceBasedPointsLowerBound(items: seq<Item>)
    requires AllItemsValid(items)
    ensures DescriptionPoints(PriceBased, items) >= QualifyingCount(items)
  {
    if |items| > 0 {
      var front := items[..|items| - 1];
      var last := items[|items| - 1];
      PriceBasedPointsLowerBound(front);
      assert items == front + [last];
      PositionsAppend(front, last, EarnsDescriptionBonus);
      if EarnsDescriptionBonus(last) {
        assert IsValidItem(last);
        PriceBonusIsCeilingOfFifth(last);
      }
    } else {
      PositionsEmpty(items, EarnsDescriptionBonus);
    }
  }

  /** With the flat rule 5 a receipt never scores below the number of
      letters and digits of its retailer. */
  lemma FlatTotalAtLeastLetters(r: Receipt)
    requires r.retailer.Some? && r.total.Some? && r.items.Some?
    ensures TotalPoints(Flat, r) >= LetterOrDigitCount(r.retailer.value)
  {
    FlatPointsCountQualifying(r.items.value);
  }

  /** With the price-based rule 5 and valid items, a receipt scores at least
      its retailer's letters and digits plus one per qualifying item. */
  lemma PriceBasedTotalLowerBound(r: Receipt)
    requires r.retailer.Some? && r.total.Some? && r.items.Some?
    requires AllItemsValid(r.items.value)
    ensures TotalPoints(PriceBased, r) >= LetterOrDigitCount(r.retailer.value) + QualifyingCount(r.items.value)
  {
    PriceBasedPointsLowerBound(r.items.value);
  }

  /** A whole total earns both rule 2 and rule 3: 75 points. */
  lemma WholeTotalEarnsBoth(total: Decimal)
    requires IsWhole(total)
    ensures RoundTotalPoints(total) + QuarterTotalPoints(total) == 75
  {
    WholeIsWholeQuarters(total);
  }

  /** Exactly 14:00 and exactly 16:00 earn nothing under rule 7; one
      nanosecond inside the window earns the 10 points. */
  lemma AfternoonWindowIsOpen()
    ensures AfternoonPoints(Some(TwoPm)) == 0
    ensures AfternoonPoints(Some(FourPm)) == 0
    ensures AfternoonPoints(Some(TwoPm + 1)) == 10
    ensures AfternoonPoints(Some(FourPm - 1)) == 10
  {
  }

  /** Reordering the items of a receipt changes neither the common points
      nor either variant of rule 5. */
  lemma ItemOrderIsIrrelevant(r: Receipt, items: seq<Item>, rule: DescriptionRule)
    requires r.retailer.Some? && r.total.Some? && r.items.Some?
    requires multiset(items) == multiset(r.items.value)
    ensures CommonPoints(r.(items := Some(items))) == CommonPoints(r)
    ensures DescriptionPoints(rule, items) == DescriptionPoints(rule, r.items.value)
  {
    assert |items| == |multiset(items)| == |r.items.value|;
    DescriptionPointsPermutation(rule, items, r.items.value);
  }
}
