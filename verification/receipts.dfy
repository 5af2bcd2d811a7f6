/** The receipt data model shared by both service copies, the reasons the
    validator reports, and the reference meaning of each validation check.
    Java nullable fields become Options. The database is a map from receipt
    id to receipt. */
module Receipts {
  import opened Wrappers
  import opened Decimals
  import opened JavaText
  import opened Calendar

  /** java.util.UUID: a 128-bit value. */
  newtype Uuid = x: int | 0 <= x < 0x1_0000_0000_0000_0000_0000_0000_0000_0000

  datatype Item = Item(shortDescription: Option<string>, price: Option<Decimal>)

  datatype Receipt = Receipt(
    retailer: Option<string>,
    purchaseDate: Option<LocalDate>,
    purchaseTime: Option<LocalTime>,
    total: Option<Decimal>,
    items: Option<seq<Item>>)

  /** The receipt repository: saved receipts under their generated ids. */
  type Store = map<Uuid, Receipt>

  const RetailerRequired := "Retailer name is required."
  const ItemRequired := "At least one item is required."
  const DescriptionRequired := "Each item must have a description."
  const PositivePriceRequired := "Each item must have a positive price."
  const PositiveTotalRequired := "Total must be a positive value."
  const DateInFuture := "Purchase date cannot be in the future."
  const DateRequiredForTime := "Purchase date must be provided if time is specified."
  /** Put in front of the reason when a receipt is rejected. */
  const InvalidPrefix := "The receipt is invalid: "

  ghost predicate HasRetailer(r: Receipt)
  {
    r.retailer.Some? && !IsBlank(r.retailer.value)
  }

  ghost predicate HasItems(r: Receipt)
  {
    r.items.Some? && |r.items.value| > 0
  }

  ghost predicate HasDescription(item: Item)
  {
    item.shortDescription.Some? && !IsBlank(item.shortDescription.value)
  }

  ghost predicate HasPositivePrice(item: Item)
  {
    item.price.Some? && item.price.value.unscaled > 0
  }

  ghost predicate IsValidItem(item: Item)
  {
    HasDescription(item) && HasPositivePrice(item)
  }

  ghost predicate AllItemsValid(items: seq<Item>)
  {
    forall i :: 0 <= i < |items| ==> IsValidItem(items[i])
  }

  /** `items[i]` is the first item that fails a check. */
  ghost predicate IsFirstInvalidItem(items: seq<Item>, i: int)
  {
    && 0 <= i < |items|
    && !IsValidItem(items[i])
    && forall j :: 0 <= j < i ==> IsValidItem(items[j])
  }

  ghost predicate HasPositiveTotal(r: Receipt)
  {
    r.total.Some? && r.total.value.unscaled > 0
  }

  ghost predicate DateNotInFuture(r: Receipt, today: LocalDate)
  {
    r.purchaseDate.None? || !IsAfter(r.purchaseDate.value, today)
  }

  ghost predicate TimeHasDate(r: Receipt)
  {
    r.purchaseTime.Some? ==> r.purchaseDate.Some?
  }

  /** Every check that does not depend on the current date. A receipt that
      was accepted on some day stays well formed forever. */
  ghost predicate IsWellFormed(r: Receipt)
  {
    && HasRetailer(r)
    && HasItems(r)
    && AllItemsValid(r.items.value)
    && HasPositiveTotal(r)
    && TimeHasDate(r)
  }

  /** The receipt passes every check on the day `today`. */
  ghost predicate IsAcceptable(r: Receipt, today: LocalDate)
  {
    IsWellFormed(r) && DateNotInFuture(r, today)
  }

  /** The description length that earns the description bonus: the trimmed
      description's String.length() is a multiple of three. */
  ghost predicate EarnsDescriptionBonus(item: Item)
  {
    item.shortDescription.Some? && JavaLength(Trim(item.shortDescription.value)) % 3 == 0
  }

  /** The fields the flat-bonus points calculation dereferences are present
      (Java throws NullPointerException otherwise). */
  ghost predicate IsScorable(r: Receipt)
  {
    && r.retailer.Some?
    && r.total.Some?
    && r.items.Some?
    && forall i :: 0 <= i < |r.items.value| ==> r.items.value[i].shortDescription.Some?
  }

  /** The price-based points calculation also reads the price of every item
      that earns the description bonus. */
  ghost predicate IsPriceScorable(r: Receipt)
  {
    && IsScorable(r)
    && forall i :: 0 <= i < |r.items.value| ==>
         EarnsDescriptionBonus(r.items.value[i]) ==> r.items.value[i].price.Some?
  }

  /** Only receipts that passed validation are ever saved. */
  ghost predicate StoreInvariant(store: Store)
  {
    forall id :: id in store ==> IsWellFormed(store[id])
  }
}
