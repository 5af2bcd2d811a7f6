# Receipt processor: validator and points calculator

This project models the receipt validator and the reward-points calculator of
the receipt-processor service, and proves properties of them. The repository
holds two near-identical Java copies of this logic, and both are modelled:

- `com.receiptprocessor` (module `ReceiptProcessorService`). Rejections throw
  `InvalidDataException`, an unknown id throws `ReceiptNotFoundException`, and
  rule 5 adds a flat 5 points per qualifying item. Its stream-style code is
  modelled as pure functions.
- `com.receipts.ReceiptProcessor` (module `ReceiptsService`). Rejections and
  unknown ids are answered BAD_REQUEST, and rule 5 adds `ceil(price × 0.2)`
  per qualifying item. Its loops are modelled as methods with loop invariants.

Supporting modules:

- `Decimals`: `java.math.BigDecimal` as an unscaled integer and a scale. It
  covers `compareTo`, `stripTrailingZeros`, `remainder`, `multiply` and
  `setScale(0, ROUND_UP)`.
- `JavaText`: `String.trim`, `String.length` (UTF-16 code units) and
  `Character.isLetterOrDigit`.
- `Calendar`: `LocalDate` as a checked (year, month, day) with lexicographic
  order and `plusDays(1)`, and `LocalTime` as nanoseconds of the day.
- `Receipts`: the receipt and item records with nullable fields as `Option`,
  the reason strings, and the validity predicates.
- `Rules`: an independent reference statement of the seven scoring rules.
  `CommonPoints` covers rules 1-4, 6 and 7, which the copies share.
  `DescriptionPoints(Flat | PriceBased, items)` covers the two versions of
  rule 5. `TotalPoints(rule, r)` is their sum, the reference score.
- `Scenarios`: two hand-built receipts that exercise every rule, and the
  receipts built by both copies' service tests.

Each copy's scorer is proved equal to `TotalPoints` with its own rule 5. That
shows the copies agree everywhere except rule 5. The second copy's validator is proved
equal to the first copy's, and both round-dollar checks are proved equal to "the value
is a whole number".

Outside inputs are parameters:

- `LocalDate.now()` is the `today` parameter.
- The repository is a `map<Uuid, Receipt>`.
- The id the repository generates on save is a `newId` parameter that must
  be fresh.

## Model

| member | source | states |
|---|---|---|
| ReceiptProcessorService.ValidateReceipt | src/main/java/com/receiptprocessor/Service/ReceiptService.java:51-82 | No error exactly when the receipt is acceptable on `today`. Otherwise the reason of the first failing check is returned, in this order: blank or missing retailer, missing or empty items, the first bad item (description before price), non-positive or missing total, date after today, time without date. |
| ReceiptProcessorService.ItemsError | src/main/java/com/receiptprocessor/Service/ReceiptService.java:60-67 | No error exactly when every item is valid. Otherwise the reason is the description message when the first invalid item lacks a description, and the price message when it has one. |
| ReceiptProcessorService.FirstInvalidAfterValidHead | src/main/java/com/receiptprocessor/Service/ReceiptService.java:60-67 | Skipping a valid first item shifts the first invalid item by one and keeps "all valid" unchanged. This is what lets the loop stop at the first failure. |
| ReceiptProcessorService.ProcessReceipt | src/main/java/com/receiptprocessor/Service/ReceiptService.java:33-43 | Succeeds exactly when the receipt is acceptable. On failure the store is unchanged and the error is "The receipt is invalid: " plus the reason. On success the new id is returned, the store gains exactly that key (one more entry), and every other entry is untouched. A store holding only well-formed receipts stays so. |
| ReceiptProcessorService.SaveFresh | src/main/java/com/receiptprocessor/Service/ReceiptService.java:41 | Saving under a fresh id adds exactly one key, keeps the other entries, and keeps the store well formed. |
| ReceiptProcessorService.LettersAndDigits | src/main/java/com/receiptprocessor/Service/ReceiptService.java:162-164 | The filtered stream is drawn from the string (a sub-multiset of it), holds only letters and digits, and is as long as the number of letter-or-digit positions (at most the string's length). Together these make it exactly the string's letters and digits. |
| ReceiptProcessorService.LettersAndDigitsAreAllOfThem | src/main/java/com/receiptprocessor/Service/ReceiptService.java:162-163 | Each character occurs in the filtered stream exactly as often as in the string when it is a letter or digit, and not at all otherwise. |
| ReceiptProcessorService.CountAlphanumericCharacters | src/main/java/com/receiptprocessor/Service/ReceiptService.java:161-165 | Equals the number of positions holding a letter or digit, and is at most the length. |
| ReceiptProcessorService.IsRoundDollarAmount | src/main/java/com/receiptprocessor/Service/ReceiptService.java:173-175 | `stripTrailingZeros().scale() <= 0` holds exactly when the value is a whole number, at any scale. |
| ReceiptProcessorService.FlatDescriptionPoints | src/main/java/com/receiptprocessor/Service/ReceiptService.java:131-137 | The description-bonus loop, adding 5 for each item whose trimmed description length is a multiple of 3, equals the reference flat rule 5, which is 5 points times the number of qualifying items. |
| ReceiptProcessorService.ReceiptPoints | src/main/java/com/receiptprocessor/Service/ReceiptService.java:109-153 | The non-negative score equals the reference score: the shared rules 1-4, 6 and 7 plus the flat rule 5. |
| ReceiptProcessorService.CalculatePoints | src/main/java/com/receiptprocessor/Service/ReceiptService.java:90-101 | An absent id gives ReceiptNotFound carrying that id. A present id gives the shared rules plus the flat rule 5 of the stored receipt, for any stored receipt whose scored fields are present, validated or not. |
| ReceiptProcessorService.ReadAfterWrite | src/main/java/com/receiptprocessor/Service/ReceiptService.java:90-98 | A receipt just accepted can be scored at once under its new id, with the receipt's own score. |
| ReceiptsService.ValidateReceipt | src/main/java/com/receipts/ReceiptProcessor/Service/ReceiptService.java:39-64 | Returns exactly what the other copy's validator returns for every receipt and day, so it also accepts exactly the acceptable receipts. |
| ReceiptsService.ProcessReceipt | src/main/java/com/receipts/ReceiptProcessor/Service/ReceiptService.java:30-37 | CREATED exactly when acceptable, with the new id as body, the store gaining that key and nothing else changing. Otherwise BAD_REQUEST with "The receipt is invalid: " plus the reason, and the store unchanged. Well-formedness of the store is kept. |
| ReceiptsService.CountAlphanumericCharacters | src/main/java/com/receipts/ReceiptProcessor/Service/ReceiptService.java:100-108 | The char-by-char loop counts exactly the letter-or-digit positions, which is at most the length. |
| ReceiptsService.IsRoundDollarAmount | src/main/java/com/receipts/ReceiptProcessor/Service/ReceiptService.java:110-112 | `scale()` being 0, or the remainder by ONE comparing equal to zero, holds exactly when the value is whole, and so agrees with the other copy's strip-based check. |
| ReceiptsService.PriceDescriptionPoints | src/main/java/com/receipts/ReceiptProcessor/Service/ReceiptService.java:86-90 | The loop equals the reference price-based rule 5. With valid items it is at least the number of qualifying items. |
| ReceiptsService.CalculatePoints | src/main/java/com/receipts/ReceiptProcessor/Service/ReceiptService.java:76-98 | The score equals the reference score: the same shared rules 1-4, 6 and 7 as the other copy, plus the price-based rule 5. |
| ReceiptsService.FindPoints | src/main/java/com/receipts/ReceiptProcessor/Service/ReceiptService.java:66-74 | An absent id is answered BAD_REQUEST with "No receipt found for that id". A present id is answered OK with that receipt's price-based reference score, for any stored receipt whose scored fields are present. The score is non-negative when the stored receipt is well formed, as every receipt saved through processReceipt is. |
| Rules.DescriptionPointsPermutation | src/main/java/com/receiptprocessor/Service/ReceiptService.java:131-137 | Either variant of rule 5 gives the same points for any reordering of the items. |
| Rules.ItemOrderIsIrrelevant | src/main/java/com/receiptprocessor/Service/ReceiptService.java:127-137 | Reordering the items changes neither the shared rules (rule 4 reads only the count) nor either rule-5 variant. |
| Rules.FlatPointsCountQualifying | src/main/java/com/receiptprocessor/Service/ReceiptService.java:131-137 | The flat rule 5 awards exactly 5 points per item whose trimmed description length is a multiple of 3. |
| Rules.PriceBonusIsCeilingOfFifth | src/main/java/com/receipts/ReceiptProcessor/Service/ReceiptService.java:87-88 | For a positive price, the price-based bonus is exactly the ceiling of price / 5 at every scale, including the negative scales of numbers like `1E+1`, and so at least 1. |
| Rules.PriceBasedPointsLowerBound | src/main/java/com/receipts/ReceiptProcessor/Service/ReceiptService.java:86-90 | When every item is valid, the price-based rule 5 awards at least one point per qualifying item. |
| Rules.FlatTotalAtLeastLetters | src/main/java/com/receiptprocessor/Service/ReceiptService.java:112-114 | With the flat rule 5, a receipt never scores below the number of letters and digits in its retailer name. |
| Rules.PriceBasedTotalLowerBound | src/main/java/com/receipts/ReceiptProcessor/Service/ReceiptService.java:78-90 | With the price-based rule 5 and valid items, a receipt scores at least the retailer's letters and digits plus one point per qualifying item. |
| Rules.WholeTotalEarnsBoth | src/main/java/com/receiptprocessor/Service/ReceiptService.java:116-125 | A whole total earns both the round-dollar and the quarter bonus: 75 points. |
| Rules.AfternoonWindowIsOpen | src/main/java/com/receiptprocessor/Service/ReceiptService.java:144-150 | Exactly 14:00 and exactly 16:00 earn nothing under rule 7. One nanosecond inside either end earns 10. |
| Decimals.CompareTo | src/main/java/com/receiptprocessor/Service/ReceiptService.java:64-69 | `compareTo` is -1, 0 or 1: the sign of the difference of the two values, read at any scale fine enough for both, so the scale of the representation never matters. |
| Decimals.Multiply | src/main/java/com/receipts/ReceiptProcessor/Service/ReceiptService.java:88 | `multiply` is exact: the scale of the product is the sum of the scales, and the factors read at scales s and t multiply to the product read at s + t. |
| Decimals.CompareToZero | src/main/java/com/receiptprocessor/Service/ReceiptService.java:64-69 | `compareTo(ZERO)` is positive exactly when the unscaled value is positive, and zero exactly when it is zero, at any scale. |
| Decimals.StripTrailingZeros | src/main/java/com/receiptprocessor/Service/ReceiptService.java:174 | The result has the same value and no trailing zero digit, a zero value becomes ZERO, and its scale is at most 0 exactly when the value is whole. |
| Decimals.TruncatingRemainder | src/main/java/com/receipts/ReceiptProcessor/Service/ReceiptService.java:111 | Java's integer remainder: smaller than the divisor in magnitude, with the sign of the dividend, differing from it by a multiple of the divisor, and zero exactly when the divisor divides the dividend. |
| Decimals.Remainder | src/main/java/com/receiptprocessor/Service/ReceiptService.java:123 | `BigDecimal.remainder` at the finer scale: smaller than the divisor in magnitude, with the sign of the dividend, and differing from it by a multiple of the divisor. |
| Decimals.RemainderByOne | src/main/java/com/receipts/ReceiptProcessor/Service/ReceiptService.java:111 | The remainder by ONE compares equal to zero exactly when the value is whole. |
| Decimals.RemainderByQuarter | src/main/java/com/receiptprocessor/Service/ReceiptService.java:123 | The remainder by 0.25 compares equal to zero exactly when four times the value is whole. |
| Decimals.WholeIsWholeQuarters | src/main/java/com/receiptprocessor/Service/ReceiptService.java:116-125 | A whole value is a whole number of quarters. |
| Decimals.RoundUpToWhole | src/main/java/com/receipts/ReceiptProcessor/Service/ReceiptService.java:88 | `setScale(0, ROUND_UP)`: a whole value is kept, a positive value goes to its ceiling, a negative value to its floor, and zero stays zero. |
| Decimals.FifthRoundedUp | src/main/java/com/receipts/ReceiptProcessor/Service/ReceiptService.java:88 | For a positive price, price × 0.2 rounded up is exactly the ceiling of price / 5 at every scale, and so at least 1. |
| JavaText.TrimStart | src/main/java/com/receiptprocessor/Service/ReceiptService.java:52 | The first loop of `trim` stops at the first char above U+0020 at or after its start, or at the end; every char it skips is at most U+0020. |
| JavaText.TrimEnd | src/main/java/com/receiptprocessor/Service/ReceiptService.java:52 | The second loop of `trim` stops after the last char above U+0020 before its end, never below its start; every char it drops is at most U+0020. |
| JavaText.Trim | src/main/java/com/receiptprocessor/Service/ReceiptService.java:52 | The result is a contiguous slice of the input, with only chars <= U+0020 cut on either side. It is empty exactly when the input is blank, and otherwise starts and ends with a char above U+0020. |
| JavaText.TrimKeepsTrimmed | src/main/java/com/receiptprocessor/Service/ReceiptService.java:133 | A string that starts and ends with a char above U+0020 is its own trim. |
| JavaText.TrimIdempotent | src/main/java/com/receiptprocessor/Service/ReceiptService.java:133 | Trimming twice is trimming once. |
| JavaText.JavaLength | src/main/java/com/receiptprocessor/Service/ReceiptService.java:134 | `String.length()` is the number of characters plus one for each character outside the Basic Multilingual Plane (a surrogate pair). It therefore lies between the number of characters and twice it, and equals it when every character is in the BMP. |
| JavaText.PlainTrimmedLength | src/main/java/com/receiptprocessor/Service/ReceiptService.java:133-134 | For a string of BMP characters that needs no trimming, the length of its trim is its number of characters. |
| JavaText.IsLetterOrDigit | src/main/java/com/receiptprocessor/Service/ReceiptService.java:163 | `Character.isLetterOrDigit` never holds for a char `trim` would remove or for one above U+00FF, and on ASCII holds exactly for the digits and the Latin letters. |
| JavaText.LetterOrDigitCountConcat | src/main/java/com/receiptprocessor/Service/ReceiptService.java:161-165 | The letter-or-digit count of a concatenation is the sum of the counts of its parts. |
| JavaText.AllLettersOrDigits | src/main/java/com/receiptprocessor/Service/ReceiptService.java:163 | A string made only of letters and digits counts its full length. |
| JavaText.NoLettersOrDigits | src/main/java/com/receiptprocessor/Service/ReceiptService.java:163 | A string with no letter or digit counts zero. |
| Calendar.IsAfter | src/main/java/com/receiptprocessor/Service/ReceiptService.java:73 | `LocalDate.isAfter` on valid dates is the strict order of the day ordinals, year before month before day. |
| Calendar.PlusOneDay | src/test/java/com/receipts/ReceiptProcessor/Service/ReceiptServiceTest.java:131 | `plusDays(1)` fails only on the last representable day. Otherwise it gives a later valid date with no valid date strictly between. |
| Calendar.TimeOf | src/main/java/com/receiptprocessor/Service/ReceiptService.java:147 | `LocalTime.of(h, m, s, n)` is the time of day whose `getHour`, `getMinute`, `getSecond` and `getNano` read back `h`, `m`, `s` and `n`. |
| Scenarios.TargetReceiptScores31 | src/main/java/com/receiptprocessor/Service/ReceiptService.java:109-153 | The hand-built "Target" receipt (one "Pepsi - 12-oz" at 1.25, total 1.25) scores 31. |
| Scenarios.CornerMarketScoresFlat | src/main/java/com/receiptprocessor/Service/ReceiptService.java:109-153 | The hand-built "M&M Corner Market" receipt (2022-03-21 at 14:33, total 9.00, two six-letter items at 4.50) scores 120 with the flat rule 5. |
| Scenarios.CornerMarketScoresPriceBased | src/main/java/com/receipts/ReceiptProcessor/Service/ReceiptService.java:76-98 | The same receipt scores 112 with the price-based rule 5, because each item adds ceil(0.90) = 1 instead of 5. |
| Scenarios.SuperMartAccepted | src/test/java/com/receiptprocessor/Service/ReceiptServiceTest.java:55-69 | The first copy's test receipt, dated today, passes validation and is saved under the new id. |
| Scenarios.SuperMartScores | src/test/java/com/receiptprocessor/Service/ReceiptServiceTest.java:93-107 | That receipt scores 24, plus 6 on an odd day: always positive. |
| Scenarios.BlankRetailerRejected | src/test/java/com/receiptprocessor/Service/ReceiptServiceTest.java:71-91 | A receipt with an empty retailer, a zero total and no items is refused for the retailer first, with the prefixed message, and the store is left alone. |
| Scenarios.ValidRetailerValidation | src/test/java/com/receipts/ReceiptProcessor/Service/ReceiptServiceTest.java:82-140 | The second copy's test receipt is accepted on its own date. Without a retailer, without items, with a ZERO total, or dated tomorrow, it is refused with the matching reason. |
| Scenarios.UnvalidatedReceiptScoresNegative | src/main/java/com/receipts/ReceiptProcessor/Service/ReceiptService.java:25-28 | A receipt `generateId` would save without validating (empty retailer, total 0.10, one "abc" item at -100) is scorable but not well formed, and scores -20. |
| Scenarios.ValidRetailerScores | src/test/java/com/receipts/ReceiptProcessor/Service/ReceiptServiceTest.java:173-184 | That receipt is scorable by the price-based copy and scores 98, plus 6 on an odd day. |

## Left out

- Controllers, exception handlers, response DTOs and bean-validation annotations (`@Valid`, `@NotNull`): this is HTTP and framework plumbing. A rejection is modelled as the error value or response the service produces.
- JPA repositories and id generation: the repository is a map parameter, and the id generated on save is a parameter required to be fresh.
- `generateId` of the second copy (lines 25-28) saves a receipt without validating it, and nothing in the service calls it. Such a receipt breaks `StoreInvariant`, and it can score below zero (`Scenarios.UnvalidatedReceiptScoresNegative`). The save itself is not modelled. The lookups (`ReceiptsService.FindPoints`, `ReceiptProcessorService.CalculatePoints`) therefore require only that a stored receipt's scored fields are present, and `FindPoints` promises a non-negative score only for a well-formed receipt.
- The text of the not-found exception (`"No receipt found for id: " + id`): the error carries the id itself rather than its rendering as a string.
- `LocalDate.now()` and `LocalTime.now()`: they become parameters.
- Null elements inside an item list: the model's items are always present records; only their fields may be missing.
- Calendar.IsValidDate: dates are limited to `LocalDate`'s year range of plus or minus 999,999,999. Week days, time zones and chronologies are not modelled.
- JavaText.IsLetterOrDigit: exact only for U+0000 to U+00FF. Every character above U+00FF is taken as neither a letter nor a digit, because the full Unicode tables are outside the model. Both counting loops read UTF-16 chars, and surrogate halves are neither, so characters outside the BMP are handled exactly when they are written as well-formed surrogate pairs.
- Strings containing an unpaired UTF-16 surrogate (which a JSON escape such as `"\ud800"` can produce) are outside the model. A Dafny string holds only Unicode scalar values, so no model input stands for them. Java would keep such a code unit through `trim`, count it as 1 in `length()`, and not count it as a letter or digit.
- Decimals: the scale is an unbounded integer. Java's scale is a 32-bit `int`, so `multiply` throws `ArithmeticException` ("Underflow") when the summed scale passes `Integer.MAX_VALUE`, and `stripTrailingZeros` throws ("Overflow") when the scale would drop below `Integer.MIN_VALUE`. Neither exception is modelled: the model returns the exact result.
- Decimals.Remainder: only the value of the result is modelled, not its scale, which only `compareTo` reads.
- Decimals.RoundUpToWhole: does not model the 32-bit narrowing of `intValue()`. The result is unbounded.
- ReceiptProcessorService.ReceiptPoints: the points accumulator is an unbounded natural number, not a 32-bit `int` that could wrap.
- ReceiptsService.CalculatePoints: the points accumulator is unbounded, as in the other copy.
- A missing retailer, total, item list or item description in a stored receipt would make the Java scorer throw a NullPointerException. The scorers require these fields present (`IsScorable`, `IsPriceScorable`), and validated receipts always have them.
