/** ReceiptService of the package com.receiptprocessor: validation that
    throws InvalidDataException, a not-found exception for unknown ids, and
    the flat variant of the description bonus. Its points calculation is
    written with streams and BigDecimal.stripTrailingZeros, and is modelled
    here as functions. */
module ReceiptProcessorService {
  import opened Wrappers
  import opened Counting
  import opened Decimals
  import opened JavaText
  import opened Calendar
  import opened Receipts
  import opened Rules

  /** InvalidDataException and ReceiptNotFoundException. */
  datatype ServiceError =
    | InvalidData(message: string)
    | ReceiptNotFound(id: Uuid)

  /** The repository after a call, and what the call returned or threw. */
  datatype Submission = Submission(store: Store, result: Result<Uuid, ServiceError>)

  /** Dropping a valid first item moves the first invalid item one place. */
  lemma FirstInvalidAfterValidHead(items: seq<Item>)
    requires |items| > 0 && IsValidItem(items[0])
    ensures forall i :: IsFirstInvalidItem(items[1..], i) <==> IsFirstInvalidItem(items, i + 1)
    ensures !IsFirstInvalidItem(items, 0)
    ensures forall i :: IsFirstInvalidItem(items, i) ==> i >= 1
    ensures AllItemsValid(items[1..]) <==> AllItemsValid(items)
  {
    forall i | IsFirstInvalidItem(items, i + 1)
      ensures IsFirstInvalidItem(items[1..], i)
    {
      forall j | 0 <= j < i ensures IsValidItem(items[1..][j]) {
        assert items[1..][j] == items[j + 1];
      }
    }
    forall i | IsFirstInvalidItem(items[1..], i)
      ensures IsFirstInvalidItem(items, i + 1)
    {
      forall j | 0 <= j < i + 1 ensures IsValidItem(items[j]) {
        if j > 0 {
          assert items[j] == items[1..][j - 1];
        }
      }
    }
    if AllItemsValid(items[1..]) {
      forall j | 0 <= j < |items| ensures IsValidItem(items[j]) {
        if j > 0 {
          assert items[j] == items[1..][j - 1];
        }
      }
    }
  }

  /** The loop over the items in validateReceipt: the first item without a
      description or without a positive price decides the reason, the
      description being checked before the price. */
  function ItemsError(items: seq<Item>): (e: Option<string>)
    ensures e.None? <==> AllItemsValid(items)
    ensures e == Some(DescriptionRequired) <==>
              exists i :: IsFirstInvalidItem(items, i) && !HasDescription(items[i])
    ensures e == Some(PositivePriceRequired) <==>
              exists i :: IsFirstInvalidItem(items, i) && HasDescription(items[i])
  {
    if |items| == 0 then
      None
    else
      var item := items[0];
      if item.shortDescription.None? || |Trim(item.shortDescription.value)| == 0 then
        assert IsFirstInvalidItem(items, 0);
        Some(DescriptionRequired)
      else if item.price.None? then
        assert IsFirstInvalidItem(items, 0);
        Some(PositivePriceRequired)
      else if (CompareToZero(item.price.value); CompareTo(item.price.value, Zero) <= 0) then
        assert IsFirstInvalidItem(items, 0);
        Some(PositivePriceRequired)
      else
        FirstInvalidAfterValidHead(items);
        var e := ItemsError(items[1..]);
        assert e == Some(DescriptionRequired) ==>
                 exists i :: IsFirstInvalidItem(items, i + 1) && !HasDescription(items[1..][i]);
        assert e == Some(PositivePriceRequired) ==>
                 exists i :: IsFirstInvalidItem(items, i + 1) && HasDescription(items[1..][i]);
        e
  }

  /** validateReceipt, with LocalDate.now() passed in as `today`. None means
      the receipt is accepted; otherwise the reason of the first check that
      fails, in the order retailer, items, each item, total, date, time. */
  function ValidateReceipt(r: Receipt, today: LocalDate): (e: Option<string>)
    ensures e.None? <==> IsAcceptable(r, today)
    ensures !HasRetailer(r) ==> e == Some(RetailerRequired)
    ensures HasRetailer(r) && !HasItems(r) ==> e == Some(ItemRequired)
    ensures HasRetailer(r) && HasItems(r) ==>
              (e == Some(DescriptionRequired) <==>
                 exists i :: IsFirstInvalidItem(r.items.value, i) && !HasDescription(r.items.value[i]))
    ensures HasRetailer(r) && HasItems(r) ==>
              (e == Some(PositivePriceRequired) <==>
                 exists i :: IsFirstInvalidItem(r.items.value, i) && HasDescription(r.items.value[i]))
    ensures (HasRetailer(r) && HasItems(r) && AllItemsValid(r.items.value)
             && !HasPositiveTotal(r)) ==> e == Some(PositiveTotalRequired)
    ensures (HasRetailer(r) && HasItems(r) && AllItemsValid(r.items.value) && HasPositiveTotal(r)
             && !DateNotInFuture(r, today)) ==> e == Some(DateInFuture)
    ensures (HasRetailer(r) && HasItems(r) && AllItemsValid(r.items.value) && HasPositiveTotal(r)
             && DateNotInFuture(r, today) && !TimeHasDate(r)) ==> e == Some(DateRequiredForTime)
  {
    if r.retailer.None? || |Trim(r.retailer.value)| == 0 then
      Some(RetailerRequired)
    else if r.items.None? || |r.items.value| == 0 then
      Some(ItemRequired)
    else if ItemsError(r.items.value).Some? then
      ItemsError(r.items.value)
    else if r.total.None? then
      Some(PositiveTotalRequired)
    else if (CompareToZero(r.total.value); CompareTo(r.total.value, Zero) <= 0) then
      Some(PositiveTotalRequired)
    else if r.purchaseDate.Some? && IsAfter(r.purchaseDate.value, today) then
      Some(DateInFuture)
    else if r.purchaseTime.Some? && r.purchaseDate.None? then
      Some(DateRequiredForTime)
    else
      None
  }

  /** processReceipt with the repository passed in, and `newId` the fresh
      id the repository generates on save. A rejected receipt leaves the
      repository alone and throws InvalidDataException carrying the prefixed
      reason; an accepted one is saved once, under `newId`, which is
      returned. Saving keeps the repository holding only well-formed
      receipts. */
  function ProcessReceipt(store: Store, r: Receipt, today: LocalDate, newId: Uuid): (out: Submission)
    requires newId !in store
    ensures out.result.Success? <==> IsAcceptable(r, today)
    ensures out.result.Failure? ==>
              && out.store == store
              && out.result.error == InvalidData(InvalidPrefix + ValidateReceipt(r, today).value)
    ensures out.result.Success? ==>
              && out.result.value == newId
              && out.store.Keys == store.Keys + {newId}
              && |out.store| == |store| + 1
              && out.store[newId] == r
              && forall id :: id in store ==> out.store[id] == store[id]
    ensures StoreInvariant(store) ==> StoreInvariant(out.store)
  {
    var error := ValidateReceipt(r, today);
    if error.Some? then
      Submission(store, Failure(InvalidData(InvalidPrefix + error.value)))
    else
      SaveFresh(store, r, newId);
      Submission(store[newId := r], Success(newId))
  }

  /** Saving under a fresh id adds exactly that entry, and saving a
      well-formed receipt keeps the repository well formed. */
  lemma SaveFresh(store: Store, r: Receipt, newId: Uuid)
    requires newId !in store
    ensures store[newId := r].Keys == store.Keys + {newId}
    ensures |store[newId := r]| == |store| + 1
    ensures forall id :: id in store ==> store[newId := r][id] == store[id]
    ensures StoreInvariant(store) && IsWellFormed(r) ==> StoreInvariant(store[newId := r])
  {
    assert store[newId := r].Keys == store.Keys + {newId};
  }

  /** countAlphanumericCharacters: the stream of the string's characters,
      filtered by Character.isLetterOrDigit, then counted. The kept
      characters are drawn from `s`, are all letters or digits, and are as
      many as `s` has letter-or-digit positions: so they are exactly the
      letters and digits of `s` (LettersAndDigitsAreAllOfThem). */
  function LettersAndDigits(s: string): (kept: string)
    ensures |kept| == LetterOrDigitCount(s)
    ensures |kept| <= |s|
    ensures forall k :: 0 <= k < |kept| ==> IsLetterOrDigit(kept[k])
    ensures multiset(kept) <= multiset(s)
  {
    if |s| == 0 then
      PositionsEmpty(s, IsLetterOrDigit);
      []
    else
      var front := s[..|s| - 1];
      var c := s[|s| - 1];
      assert s == front + [c];
      PositionsAppend(front, c, IsLetterOrDigit);
      LettersAndDigits(front) + (if IsLetterOrDigit(c) then [c] else [])
  }

  /** Each character occurs in the filtered stream exactly as often as in
      `s` when it is a letter or digit, and not at all otherwise. */
  lemma {:induction false} LettersAndDigitsAreAllOfThem(s: string)
    ensures forall c :: multiset(LettersAndDigits(s))[c]
                        == if IsLetterOrDigit(c) then multiset(s)[c] else 0
  {
    if |s| > 0 {
      var front := s[..|s| - 1];
      var x := s[|s| - 1];
      assert s == front + [x];
      LettersAndDigitsAreAllOfThem(front);
      assert LettersAndDigits(s) == LettersAndDigits(front) + (if IsLetterOrDigit(x) then [x] else []);
    }
  }

  function CountAlphanumericCharacters(s: string): (n: nat)
    ensures n == LetterOrDigitCount(s)
    ensures n <= |s|
  {
    |LettersAndDigits(s)|
  }

  /** isRoundDollarAmount: amount.stripTrailingZeros().scale() <= 0. It holds
      exactly when the amount is a whole number. */
  function IsRoundDollarAmount(amount: Decimal): (round: bool)
    ensures round <==> IsWhole(amount)
  {
    StripTrailingZeros(amount).scale <= 0
  }

  /** The description bonus loop of calculatePoints(Receipt): 5 points for
      every item whose trimmed description length is a multiple of 3. */
  function FlatDescriptionPoints(items: seq<Item>): (points: nat)
    requires forall i :: 0 <= i < |items| ==> items[i].shortDescription.Some?
    ensures points == DescriptionPoints(Flat, items)
    ensures points == 5 * QualifyingCount(items)
  {
    FlatPointsCountQualifying(items);
    if |items| == 0 then 0
    else
      var last := items[|items| - 1];
      FlatDescriptionPoints(items[..|items| - 1])
        + (if JavaLength(Trim(last.shortDescription.value)) % 3 == 0 then 5 else 0)
  }

  /** calculatePoints(Receipt): the seven rules added up. It equals the
      reference score with the flat description bonus (which is never less
      than the retailer's letters and digits, FlatTotalAtLeastLetters). */
  function ReceiptPoints(r: Receipt): (points: nat)
    requires IsScorable(r)
    ensures points == TotalPoints(Flat, r)
  {
    var total := r.total.value;
    var items := r.items.value;
    var letters := CountAlphanumericCharacters(r.retailer.value);
    var round := if IsRoundDollarAmount(total) then 50 else 0;
    assert round == RoundTotalPoints(total);
    RemainderByQuarter(total);
    CompareToZero(Remainder(total, Quarter));
    var quarters := if CompareTo(Remainder(total, Quarter), Zero) == 0 then 25 else 0;
    assert quarters == QuarterTotalPoints(total);
    var pairs := (|items| / 2) * 5;
    var descriptions := FlatDescriptionPoints(items);
    var oddDay := if r.purchaseDate.Some? && r.purchaseDate.value.day % 2 != 0 then 6 else 0;
    var afternoon := if r.purchaseTime.Some? && r.purchaseTime.value > TwoPm
                        && r.purchaseTime.value < FourPm then 10 else 0;
    assert letters + round + quarters + pairs + oddDay + afternoon == CommonPoints(r);
    letters + round + quarters + pairs + descriptions + oddDay + afternoon
  }

  /** calculatePoints(UUID): an unknown id throws ReceiptNotFoundException;
      a known one returns the points of the saved receipt. */
  function CalculatePoints(store: Store, id: Uuid): (result: Result<nat, ServiceError>)
    requires id in store ==> IsScorable(store[id])
    ensures id !in store ==> result == Failure(ReceiptNotFound(id))
    ensures id in store ==>
              result.Success? && result.value == TotalPoints(Flat, store[id])
  {
    if id !in store then Failure(ReceiptNotFound(id))
    else Success(ReceiptPoints(store[id]))
  }

  /** A receipt just accepted can be scored straight away under its new id:
      the lookup never reports it as not found. */
  lemma ReadAfterWrite(store: Store, r: Receipt, today: LocalDate, newId: Uuid)
    requires StoreInvariant(store) && newId !in store
    requires ProcessReceipt(store, r, today, newId).result.Success?
    ensures var after := ProcessReceipt(store, r, today, newId).store;
            StoreInvariant(after) && CalculatePoints(after, newId) == Success(ReceiptPoints(r))
  {
  }
}
