/** java.time values: LocalDate as a calendar date, LocalDateTime and java.util.Date as milliseconds. */
module Time {

  /** A point on the time line, in milliseconds (LocalDateTime, java.util.Date, currentTimeMillis). */
  type Instant = int

  const MILLIS_PER_SECOND: int := 1000
  const MILLIS_PER_DAY: int := 86_400_000

  /** LocalDate. */
  datatype Date = Date(year: int, month: int, day: int)

  /** LocalDate.isBefore: strictly earlier in calendar order. */
  predicate IsBefore(a: Date, b: Date)
  {
    a.year < b.year
    || (a.year == b.year && a.month < b.month)
    || (a.year == b.year && a.month == b.month && a.day < b.day)
  }

  /** LocalDate.isAfter. */
  predicate IsAfter(a: Date, b: Date)
  {
    IsBefore(b, a)
  }

  predicate IsLeapYear(y: int)
  {
    y % 4 == 0 && (y % 100 != 0 || y % 400 == 0)
  }

  function LengthOfMonth(y: int, m: int): int
  {
    if m == 2 then (if IsLeapYear(y) then 29 else 28)
    else if m == 4 || m == 6 || m == 9 || m == 11 then 30
    else 31
  }

  /** LocalDate.minusYears: same month and day, the day clamped to the month's length (29 February becomes 28 February). */
  function MinusYears(d: Date, n: int): (r: Date)
    ensures r.year == d.year - n && r.month == d.month
    ensures r.day <= d.day
    ensures d.day <= LengthOfMonth(d.year - n, d.month) ==> r == Date(d.year - n, d.month, d.day)
  {
    var y := d.year - n;
    Date(y, d.month, if d.day <= LengthOfMonth(y, d.month) then d.day else LengthOfMonth(y, d.month))
  }

  lemma BeforeIsStrictOrder(a: Date, b: Date, c: Date)
    ensures !IsBefore(a, a)
    ensures IsBefore(a, b) ==> !IsBefore(b, a)
    ensures IsBefore(a, b) && IsBefore(b, c) ==> IsBefore(a, c)
    ensures a != b ==> IsBefore(a, b) || IsBefore(b, a)
  {
  }
}
