/** ReceiptService of the package com.receipts.ReceiptProcessor: validation
    answered with a BAD_REQUEST response rather than an exception, a
    BAD_REQUEST (not NOT_FOUND) answer for unknown ids, and the price-based
    variant of the description bonus. Its loops are modelled as methods. */
module ReceiptsService {
  import opened Wrappers
  import opened Counting
  import opened Decimals
  import opened JavaText
  import opened Calendar
  import opened Receipts
  import opened Rules
  import ReceiptProcessorService

  /** The HttpStatus values this service answers with. */
  datatype HttpStatus = Ok | Created | BadRequest

  /** The body of a ResponseEntity: a ReceiptId, a PointsResponse or a text. */
  datatype Body =
    | ReceiptIdBody(id: Uuid)
    | PointsBody(points: int)
    | Message(text: string)

  datatype Response = Response(status: HttpStatus, body: Body)

  const NoReceiptFound := "No receipt found for that id"

  /** validateReceipt, with LocalDate.now() passed in as `today`. It makes
      the same checks in the same order, with the same reasons, as the
      other copy: the two validators agree on every receipt and day. */
  method ValidateReceipt(r: Receipt, today: LocalDate) returns (e: Option<string>)
    ensures e == ReceiptProcessorService.ValidateReceipt(r, today)
    ensures e.None? <==> IsAcceptable(r, today)
  {
    if r.retailer.None? || |Trim(r.retailer.value)| == 0 {
      return Some(RetailerRequired);
    }
    if r.items.None? || |r.items.value| == 0 {
      return Some(ItemRequired);
    }
    var items := r.items.value;
    var i := 0;
    while i < |items|
      invariant 0 <= i <= |items|
      invariant ReceiptProcessorService.ItemsError(items[i..]) == ReceiptProcessorService.ItemsError(items)
    {
      var item := items[i];
      if item.shortDescription.None? || |Trim(item.shortDescription.value)| == 0 {
        return Some(DescriptionRequired);
      }
      if item.price.None? || CompareTo(item.price.value, Zero) <= 0 {
        return Some(PositivePriceRequired);
      }
      assert items[i..][1..] == items[i + 1..];
      i := i + 1;
    }
    if r.total.None? || CompareTo(r.total.value, Zero) <= 0 {
      return Some(PositiveTotalRequired);
    }
    if r.purchaseDate.Some? && IsAfter(r.purchaseDate.value, today) {
      return Some(DateInFuture);
    }
    if r.purchaseTime.Some? && r.purchaseDate.None? {
      return Some(DateRequiredForTime);
    }
    return None;
  }

  /** processReceipt with the repository passed in, and `newId` the fresh
      id the repository generates on save. A rejected receipt is answered
      BAD_REQUEST with the prefixed reason and nothing is saved; an accepted
      one is saved once under `newId` and answered CREATED with that id. */
  method ProcessReceipt(store: Store, r: Receipt, today: LocalDate, newId: Uuid)
    returns (after: Store, response: Response)
    requires newId !in store
    ensures response.status == Created <==> IsAcceptable(r, today)
    ensures response.status != Created ==>
              && after == store
              && response == Response(BadRequest,
                   Message(InvalidPrefix + ReceiptProcessorService.ValidateReceipt(r, today).value))
    ensures response.status == Created ==>
              && response.body == ReceiptIdBody(newId)
              && after.Keys == store.Keys + {newId}
              && after[newId] == r
              && forall id :: id in store ==> after[id] == store[id]
    ensures StoreInvariant(store) ==> StoreInvariant(after)
  {
    var error := ValidateReceipt(r, today);
    if error.Some? {
      return store, Response(BadRequest, Message(InvalidPrefix + error.value));
    }
    after := store[newId := r];
    response := Response(Created, ReceiptIdBody(newId));
  }

  /** countAlphanumericCharacters: a loop over the characters counting those
      for which Character.isLetterOrDigit holds. */
  method CountAlphanumericCharacters(s: string) returns (count: nat)
    ensures count == LetterOrDigitCount(s)
    ensures count <= |s|
  {
    count := 0;
    var i := 0;
    PositionsEmpty(s[..0], IsLetterOrDigit);
    while i < |s|
      invariant 0 <= i <= |s|
      invariant count == LetterOrDigitCount(s[..i])
      invariant count <= i
    {
      assert s[..i + 1] == s[..i] + [s[i]];
      PositionsAppend(s[..i], s[i], IsLetterOrDigit);
      if IsLetterOrDigit(s[i]) {
        count := count + 1;
      }
      i := i + 1;
    }
    assert s[..i] == s;
  }

  /** isRoundDollarAmount: scale() == 0 || remainder(ONE) compares equal to
      ZERO. It holds exactly when the amount is a whole number, so it agrees
      with the stripTrailingZeros test of the other copy. */
  function IsRoundDollarAmount(amount: Decimal): (round: bool)
    ensures round <==> IsWhole(amount)
    ensures round == ReceiptProcessorService.IsRoundDollarAmount(amount)
  {
    RemainderByOne(amount);
    amount.scale == 0 || CompareTo(Remainder(amount, One), Zero) == 0
  }

  /** The description bonus loop of calculatePoints(Receipt): every item
      whose trimmed description length is a multiple of 3 adds its price
      × 0.2, rounded up. */
  method PriceDescriptionPoints(items: seq<Item>) returns (bonus: int)
    requires forall i :: 0 <= i < |items| ==> items[i].shortDescription.Some?
    requires forall i :: 0 <= i < |items| ==> EarnsDescriptionBonus(items[i]) ==> items[i].price.Some?
    ensures bonus == DescriptionPoints(PriceBased, items)
    ensures AllItemsValid(items) ==> bonus >= QualifyingCount(items)
  {
    bonus := 0;
    var i := 0;
    while i < |items|
      invariant 0 <= i <= |items|
      invariant bonus == DescriptionPoints(PriceBased, items[..i])
    {
      var item := items[i];
      assert items[..i + 1][..i] == items[..i];
      if JavaLength(Trim(item.shortDescription.value)) % 3 == 0 {
        bonus := bonus + RoundUpToWhole(Multiply(item.price.value, Fifth));
      }
      i := i + 1;
    }
    assert items[..i] == items;
    if AllItemsValid(items) {
      PriceBasedPointsLowerBound(items);
    }
  }

  /** calculatePoints(Receipt): the seven rules added up, with the
      price-based description bonus. It equals the reference score with that
      bonus (for valid items at least the retailer's letters and digits plus
      one per qualifying item, PriceBasedTotalLowerBound). */
  method CalculatePoints(r: Receipt) returns (points: int)
    requires IsPriceScorable(r)
    ensures points == TotalPoints(PriceBased, r)
  {
    var total := r.total.value;
    var items := r.items.value;
    points := 0;
    var letters := CountAlphanumericCharacters(r.retailer.value);
    points := points + letters;
    ghost var sofar := RetailerPoints(r.retailer.value);
    assert points == sofar;
    if IsRoundDollarAmount(total) {
      points := points + 50;
    }
    sofar := sofar + RoundTotalPoints(total);
    assert points == sofar;
    var quarters := CompareTo(Remainder(total, Quarter), Zero) == 0;
    assert quarters <==> IsWholeQuarters(total) by {
      RemainderByQuarter(total);
    }
    if quarters {
      points := points + 25;
    }
    sofar := sofar + QuarterTotalPoints(total);
    assert points == sofar;
    points := points + (|items| / 2) * 5;
    sofar := sofar + ItemPairPoints(|items|);
    var bonus := PriceDescriptionPoints(items);
    points := points + bonus;
    if r.purchaseDate.Some? && r.purchaseDate.value.day % 2 != 0 {
      points := points + 6;
    }
    sofar := sofar + OddDayPoints(r.purchaseDate);
    assert points == sofar + bonus;
    if r.purchaseTime.Some? && r.purchaseTime.value > TwoPm && r.purchaseTime.value < FourPm {
      points := points + 10;
    }
    sofar := sofar + AfternoonPoints(r.purchaseTime);
    assert sofar == CommonPoints(r);
    assert points == sofar + bonus;
  }

  /** findPoints: an unknown id is answered BAD_REQUEST with a fixed text,
      not NOT_FOUND; a known one is answered OK with the points of the saved
      receipt. The points are never negative for a receipt that passed
      validation; generateId saves receipts without validating them, and
      those can score below zero. */
  method FindPoints(store: Store, id: Uuid) returns (response: Response)
    requires id in store ==> IsPriceScorable(store[id])
    ensures id !in store ==> response == Response(BadRequest, Message(NoReceiptFound))
    ensures id in store ==>
              response == Response(Ok, PointsBody(TotalPoints(PriceBased, store[id])))
    ensures id in store && IsWellFormed(store[id]) ==> response.body.points >= 0
  {
    if id !in store {
      return Response(BadRequest, Message(NoReceiptFound));
    }
    var points := CalculatePoints(store[id]);
    if IsWellFormed(store[id]) {
      PriceBasedTotalLowerBound(store[id]);
    }
    return Response(Ok, PointsBody(points));
  }
}
