/** java.time.LocalDate and java.time.LocalTime, as far as the receipt
    service uses them: ordering, the day of the month, plusDays(1) and
    LocalTime.of. */
module Calendar {
  import opened Wrappers
  import opened Arith

  /** Year.MIN_VALUE and Year.MAX_VALUE, the range LocalDate supports. */
  const MinYear := -999_999_999
  const MaxYear := 999_999_999

  datatype Date = Date(year: int, month: int, day: int)

  /** The ISO proleptic Gregorian leap-year rule. */
  predicate IsLeapYear(year: int)
  {
    year % 4 == 0 && (year % 100 != 0 || year % 400 == 0)
  }

  function DaysInMonth(year: int, month: int): int
    requires 1 <= month <= 12
  {
    if month == 2 then (if IsLeapYear(year) then 29 else 28)
    else if month == 4 || month == 6 || month == 9 || month == 11 then 30
    else 31
  }

  predicate IsValidDate(d: Date)
  {
    && MinYear <= d.year <= MaxYear
    && 1 <= d.month <= 12
    && 1 <= d.day <= DaysInMonth(d.year, d.month)
  }

  /** A LocalDate value: always a real calendar day within the supported range. */
  type LocalDate = d: Date | IsValidDate(d) witness Date(1970, 1, 1)

  /** Days counted on a scale where every month has 32 days and every year
      13 months: for valid dates this preserves the calendar order. */
  ghost function Ordinal(d: Date): int
  {
    (d.year * 13 + d.month) * 32 + d.day
  }

  /** LocalDate.isAfter: year first, then month, then day. On valid dates it
      is the strict order of the day ordinals, so exactly one of "after",
      "equal" and "before" holds. */
  predicate IsAfter(a: Date, b: Date)
    ensures IsValidDate(a) && IsValidDate(b) ==> (IsAfter(a, b) <==> Ordinal(a) > Ordinal(b))
  {
    || a.year > b.year
    || (a.year == b.year && a.month > b.month)
    || (a.year == b.year && a.month == b.month && a.day > b.day)
  }

  /** LocalDate.plusDays(1); None where Java throws because the result would
      lie beyond the supported range. The result is the next day: after `d`,
      with no LocalDate strictly between the two. */
  function PlusOneDay(d: LocalDate): (next: Option<LocalDate>)
    ensures next.None? <==> d == Date(MaxYear, 12, 31)
    ensures next.Some? ==> IsAfter(next.value, d)
    ensures next.Some? ==> forall x: LocalDate :: IsAfter(x, d) ==> !IsAfter(next.value, x)
  {
    if d.day < DaysInMonth(d.year, d.month) then Some(Date(d.year, d.month, d.day + 1))
    else if d.month < 12 then Some(Date(d.year, d.month + 1, 1))
    else if d.year < MaxYear then Some(Date(d.year + 1, 1, 1))
    else None
  }

  const NanosPerSecond := 1_000_000_000
  const NanosPerMinute := 60 * NanosPerSecond
  const NanosPerHour := 60 * NanosPerMinute
  const NanosPerDay := 24 * NanosPerHour

  /** A LocalTime value, as its nanosecond of the day. */
  type LocalTime = n: int | 0 <= n < NanosPerDay

  /** LocalTime.of(hour, minute, second, nanoOfSecond): the time whose
      getHour, getMinute, getSecond and getNano read back the four fields. */
  function TimeOf(hour: int, minute: int, second: int, nano: int): (t: LocalTime)
    requires 0 <= hour < 24 && 0 <= minute < 60 && 0 <= second < 60
    requires 0 <= nano < NanosPerSecond
    ensures t / NanosPerHour == hour
    ensures (t / NanosPerMinute) % 60 == minute
    ensures (t / NanosPerSecond) % 60 == second
    ensures t % NanosPerSecond == nano
  {
    var inSecond := nano;
    var inMinute := second * NanosPerSecond + inSecond;
    var inHour := minute * NanosPerMinute + inMinute;
    DivModOfSum(hour, inHour, NanosPerHour);
    DivModOfSum(hour * 60 + minute, inMinute, NanosPerMinute);
    DivModOfSum(hour, minute, 60);
    DivModOfSum((hour * 60 + minute) * 60 + second, inSecond, NanosPerSecond);
    DivModOfSum(hour * 60 + minute, second, 60);
    hour * NanosPerHour + inHour
  }
}
