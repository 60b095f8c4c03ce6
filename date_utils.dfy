/** Calendar arithmetic behind `lib/date-utils.ts`: Gregorian month lengths,
    day numbers since 1970-01-01, the month/day overflow JavaScript's `Date`
    constructor performs, `YYYY-MM-DD` formatting and parsing, and the
    library's day-difference, past-date and first/last-day helpers. Clock
    reads and time zones are inputs: instants are milliseconds on the local
    clock, calendar dates are already in local time. */
module DateUtils {
  import opened Types

  /** Milliseconds per day: 1000 * 60 * 60 * 24. */
  const DayMs: int := 86400000

  function Abs(x: int): nat
  {
    if x < 0 then -x else x
  }

  /** The Gregorian leap-year rule. */
  predicate IsLeapYear(y: int)
  {
    y % 4 == 0 && (y % 100 != 0 || y % 400 == 0)
  }

  function DaysInMonth(y: int, m: Month): (n: int)
    ensures 28 <= n <= 31
    ensures m == 2 ==> (n == 29 <==> IsLeapYear(y))
  {
    if m == 2 then (if IsLeapYear(y) then 29 else 28)
    else if m == 4 || m == 6 || m == 9 || m == 11 then 30
    else 31
  }

  /** A date whose day exists in its month. */
  predicate ValidDate(d: CalDate)
  {
    1 <= d.day <= DaysInMonth(d.year, d.month)
  }

  /** Days of year `y` that come before day 1 of month `m`. */
  function DaysBeforeMonth(y: int, m: Month): int
  {
    [0, 31, 59, 90, 120, 151, 181, 212, 243, 273, 304, 334][m - 1]
      + (if m > 2 && IsLeapYear(y) then 1 else 0)
  }

  /** The number of leap years among 1..y (floor division extends the count
      to the proleptic calendar below year 1). */
  function LeapsThrough(y: int): int
  {
    y / 4 - y / 100 + y / 400
  }

  /** Days from 1970-01-01 to day 1 of year `y`. */
  function DaysBeforeYear(y: int): int
  {
    365 * (y - 1970) + LeapsThrough(y - 1) - LeapsThrough(1969)
  }

  /** Days from 1970-01-01 to `d`, i.e. `Date.UTC(year, month - 1, day)`
      divided by `DayMs`; a day outside its month counts on linearly. */
  function DayNumber(d: CalDate): int
  {
    DaysBeforeYear(d.year) + DaysBeforeMonth(d.year, d.month) + d.day - 1
  }

  function FirstOfNextMonth(y: int, m: Month): CalDate
  {
    if m == 12 then CalDate(y + 1, 1, 1) else CalDate(y, m + 1, 1)
  }

  function FirstOfPreviousMonth(y: int, m: Month): CalDate
  {
    if m == 1 then CalDate(y - 1, 12, 1) else CalDate(y, m - 1, 1)
  }

  lemma LeapStep(y: int)
    ensures LeapsThrough(y) - LeapsThrough(y - 1) == if IsLeapYear(y) then 1 else 0
  {
    FloorStep4(y);
    FloorStep100(y);
    FloorStep400(y);
  }

  lemma FloorStep4(y: int)
    ensures y / 4 - (y - 1) / 4 == if y % 4 == 0 then 1 else 0
  {
  }

  lemma FloorStep100(y: int)
    ensures y / 100 - (y - 1) / 100 == if y % 100 == 0 then 1 else 0
  {
  }

  lemma FloorStep400(y: int)
    ensures y / 400 - (y - 1) / 400 == if y % 400 == 0 then 1 else 0
  {
  }

  /** A year has 366 days exactly when it is a leap year. */
  lemma YearLength(y: int)
    ensures DaysBeforeYear(y + 1) - DaysBeforeYear(y) == if IsLeapYear(y) then 366 else 365
  {
    LeapStep(y);
  }

  /** Day 1 of the next month comes `DaysInMonth(y, m)` days after day 1 of `m`. */
  lemma MonthLength(y: int, m: Month)
    ensures DayNumber(FirstOfNextMonth(y, m)) == DayNumber(CalDate(y, m, 1)) + DaysInMonth(y, m)
  {
    if m == 12 {
      YearLength(y);
    }
  }

  /** The valid date that `(y, m, d)` denotes when the day may lie outside
      the month: JavaScript's `Date` moves the overflow into the following or
      preceding months. */
  function Normalize(y: int, m: Month, d: int): (r: CalDate)
    ensures ValidDate(r)
    ensures DayNumber(r) == DayNumber(CalDate(y, m, d))
    decreases if d < 1 then 1 - d else 0, d
  {
    if d < 1 then
      var p := FirstOfPreviousMonth(y, m);
      MonthLength(p.year, p.month);
      Normalize(p.year, p.month, d + DaysInMonth(p.year, p.month))
    else if d > DaysInMonth(y, m) then
      var n := FirstOfNextMonth(y, m);
      MonthLength(y, m);
      Normalize(n.year, n.month, d - DaysInMonth(y, m))
    else
      CalDate(y, m, d)
  }

  /** A day that exists in its month is left where it is. */
  lemma NormalizeValid(y: int, m: Month, d: int)
    requires 1 <= d <= DaysInMonth(y, m)
    ensures Normalize(y, m, d) == CalDate(y, m, d)
  {
  }

  /** Day 0 of the month after `m` is the last day of `m`. */
  lemma NormalizeDayZero(y: int, m: Month)
    ensures Normalize(FirstOfNextMonth(y, m).year, FirstOfNextMonth(y, m).month, 0) == CalDate(y, m, DaysInMonth(y, m))
  {
    var n := FirstOfNextMonth(y, m);
    assert FirstOfPreviousMonth(n.year, n.month) == CalDate(y, m, 1);
    NormalizeValid(y, m, DaysInMonth(y, m));
  }

  /** A day past the end of month `m` that the next month of the same year
      can hold lands in that next month. */
  lemma NormalizeIntoNextMonth(y: int, m: Month, d: int)
    requires m < 12 && DaysInMonth(y, m) < d <= DaysInMonth(y, m) + DaysInMonth(y, m + 1)
    ensures Normalize(y, m, d) == CalDate(y, m + 1, d - DaysInMonth(y, m))
  {
    assert FirstOfNextMonth(y, m) == CalDate(y, m + 1, 1);
    assert Normalize(y, m + 1, d - DaysInMonth(y, m)) == CalDate(y, m + 1, d - DaysInMonth(y, m));
  }

  /** The overflow rule of `Date` (the constructor after its year rule, and
      `setMonth`): a 0-based month index outside 0..11 moves into
      neighbouring years, a day outside the month into neighbouring months. */
  function MakeDate(y: int, monthIndex: int, d: int): (r: CalDate)
    ensures ValidDate(r)
    ensures DayNumber(r) == DayNumber(CalDate(y + monthIndex / 12, monthIndex % 12 + 1, d))
  {
    Normalize(y + monthIndex / 12, monthIndex % 12 + 1, d)
  }

  /** Month index `m` (one past the 0-based index of month `m`) names the
      month after `m`, in the next year after December. */
  lemma MakeDateNextMonth(y: int, m: Month, d: int)
    ensures MakeDate(y, m, d) == Normalize(FirstOfNextMonth(y, m).year, FirstOfNextMonth(y, m).month, d)
  {
    if m == 12 {
      assert m / 12 == 1 && m % 12 == 0;
    } else {
      assert m / 12 == 0 && m % 12 == m;
    }
  }

  /** Two valid dates on the same day number are the same date. */
  lemma {:induction false} DayNumberInjective(a: CalDate, b: CalDate)
    requires ValidDate(a) && ValidDate(b) && DayNumber(a) == DayNumber(b)
    ensures a == b
  {
    if a.year < b.year {
      YearStartBound(a.year, b.year);
      assert false;
    } else if b.year < a.year {
      YearStartBound(b.year, a.year);
      assert false;
    } else if a.month < b.month {
      MonthStartBound(a.year, a.month, b.month);
      assert false;
    } else if b.month < a.month {
      MonthStartBound(a.year, b.month, a.month);
      assert false;
    }
  }

  /** Every day of year `y` comes before day 1 of any later year. */
  lemma {:induction false} YearStartBound(y: int, z: int)
    requires y < z
    ensures DaysBeforeYear(y) + 366 <= DaysBeforeYear(z) + (if IsLeapYear(y) then 0 else 1)
    decreases z - y
  {
    YearLength(y);
    if y + 1 < z {
      YearStartBound(y + 1, z);
    }
  }

  /** Every day of month `m` comes before day 1 of any later month of the year. */
  lemma MonthStartBound(y: int, m: Month, n: Month)
    requires m < n
    ensures DaysBeforeMonth(y, m) + DaysInMonth(y, m) <= DaysBeforeMonth(y, n)
  {
  }

  // ---- ISO dates: `YYYY-MM-DD` ----

  function DigitChar(n: int): char
    requires 0 <= n <= 9
  {
    ('0' as int + n) as char
  }

  predicate IsDigit(c: char)
  {
    '0' <= c <= '9'
  }

  predicate AllDigits(s: string)
  {
    forall i :: 0 <= i < |s| ==> IsDigit(s[i])
  }

  function Pow10(w: nat): (p: nat)
    ensures p >= 1
  {
    if w == 0 then 1 else 10 * Pow10(w - 1)
  }

  /** The last `width` decimal digits of `n`, zero-padded. */
  function Pad(n: nat, width: nat): (s: string)
    ensures |s| == width && AllDigits(s)
  {
    if width == 0 then [] else Pad(n / 10, width - 1) + [DigitChar(n % 10)]
  }

  /** The value of a string of decimal digits. */
  function ParseDigits(s: string): nat
    requires AllDigits(s)
  {
    if s == [] then 0
    else ParseDigits(s[..|s| - 1]) * 10 + (s[|s| - 1] as int - '0' as int)
  }

  lemma {:induction false} ParsePad(n: nat, width: nat)
    requires n < Pow10(width)
    ensures ParseDigits(Pad(n, width)) == n
  {
    if width > 0 {
      ParsePad(n / 10, width - 1);
      var s := Pad(n, width);
      assert s[..|s| - 1] == Pad(n / 10, width - 1);
    }
  }

  /** The date part of `toISOString()`: four digits for years 0..9999, a sign
      and six digits otherwise. */
  function IsoDate(d: CalDate): (s: string)
    requires ValidDate(d) && Abs(d.year) < 1000000
  {
    (if 0 <= d.year <= 9999 then Pad(d.year, 4)
     else (if d.year < 0 then "-" else "+") + Pad(Abs(d.year), 6))
    + "-" + Pad(d.month, 2) + "-" + Pad(d.day, 2)
  }

  /** Reads a `YYYY-MM-DD` string; anything else, and any day that does not
      exist, is `None`. */
  function ParseIsoDate(s: string): (r: Option<CalDate>)
    ensures r.Some? ==> ValidDate(r.value) && 0 <= r.value.year <= 9999
  {
    if |s| == 10 && s[4] == '-' && s[7] == '-'
       && AllDigits(s[..4]) && AllDigits(s[5..7]) && AllDigits(s[8..]) then
      var y, m, d := ParseDigits(s[..4]), ParseDigits(s[5..7]), ParseDigits(s[8..]);
      assert y < 10000 by { ParseDigitsBound(s[..4]); }
      if 1 <= m <= 12 && 1 <= d <= DaysInMonth(y, m) then Some(CalDate(y, m, d)) else None
    else None
  }

  lemma {:induction false} ParseDigitsBound(s: string)
    requires AllDigits(s)
    ensures ParseDigits(s) < Pow10(|s|)
  {
    if s != [] {
      ParseDigitsBound(s[..|s| - 1]);
    }
  }

  /** Round trip: parsing a formatted four-digit-year date gives the date back. */
  lemma ParseIsoDateRoundTrip(d: CalDate)
    requires ValidDate(d) && 0 <= d.year <= 9999
    ensures ParseIsoDate(IsoDate(d)) == Some(d)
  {
    var s := IsoDate(d);
    assert s[..4] == Pad(d.year, 4);
    assert s[5..7] == Pad(d.month, 2);
    assert s[8..] == Pad(d.day, 2);
    ParsePad(d.year, 4);
    ParsePad(d.month, 2);
    ParsePad(d.day, 2);
  }

  /** Distinct dates have distinct `YYYY-MM-DD` strings, so grouping receipts
      by date string is grouping them by calendar date. */
  lemma IsoDateInjective(a: CalDate, b: CalDate)
    requires ValidDate(a) && 0 <= a.year <= 9999
    requires ValidDate(b) && 0 <= b.year <= 9999
    requires IsoDate(a) == IsoDate(b)
    ensures a == b
  {
    ParseIsoDateRoundTrip(a);
    ParseIsoDateRoundTrip(b);
  }

  // ---- the helpers of date-utils.ts ----

  /** `getCurrentDateISO`: the part of an ISO timestamp before its first `'T'`. */
  function DatePart(iso: string): (r: string)
    ensures r <= iso && 'T' !in r
    ensures |r| < |iso| ==> iso[|r|] == 'T'
  {
    if iso == [] || iso[0] == 'T' then [] else [iso[0]] + DatePart(iso[1..])
  }

  /** The date part of a `toISOString()` result is its calendar date. */
  lemma DatePartOfTimestamp(d: CalDate, time: string)
    requires ValidDate(d) && Abs(d.year) < 1000000
    ensures DatePart(IsoDate(d) + "T" + time) == IsoDate(d)
  {
    var s := IsoDate(d);
    assert 'T' !in s by {
      forall i | 0 <= i < |s| ensures s[i] != 'T' {
      }
    }
    DatePartStopsAtT(s, time);
  }

  lemma {:induction false} DatePartStopsAtT(s: string, time: string)
    requires 'T' !in s
    ensures DatePart(s + "T" + time) == s
  {
    if s != [] {
      assert (s + "T" + time)[1..] == s[1..] + "T" + time;
      DatePartStopsAtT(s[1..], time);
    }
  }

  /** `getDaysDifference`: whole days between two instants, rounded up. */
  function DaysDifference(t1: int, t2: int): (days: nat)
    ensures days * DayMs >= Abs(t2 - t1)
    ensures days > 0 ==> (days - 1) * DayMs < Abs(t2 - t1)
  {
    var diff := Abs(t2 - t1);
    if diff % DayMs == 0 then diff / DayMs else diff / DayMs + 1
  }

  lemma DaysDifferenceSymmetric(t1: int, t2: int)
    ensures DaysDifference(t1, t2) == DaysDifference(t2, t1)
  {
  }

  /** No days apart exactly at the same instant; one day for any gap up to a day. */
  lemma DaysDifferenceSmall(t1: int, t2: int)
    ensures DaysDifference(t1, t2) == 0 <==> t1 == t2
    ensures 0 < Abs(t2 - t1) <= DayMs ==> DaysDifference(t1, t2) == 1
  {
  }

  /** Between the midnights of two dates, the day difference counts calendar days. */
  lemma DaysDifferenceOfDates(a: CalDate, b: CalDate)
    ensures DaysDifference(DayNumber(a) * DayMs, DayNumber(b) * DayMs) == Abs(DayNumber(b) - DayNumber(a))
  {
    var k := Abs(DayNumber(b) - DayNumber(a));
    assert Abs(DayNumber(b) * DayMs - DayNumber(a) * DayMs) == k * DayMs;
    var days := DaysDifference(DayNumber(a) * DayMs, DayNumber(b) * DayMs);
    assert days * DayMs >= k * DayMs;
    assert days > 0 ==> (days - 1) * DayMs < k * DayMs;
  }

  /** `isDateInPast`: both instants are set to their local midnight with
      `setHours(0, 0, 0, 0)` and then compared. */
  method IsDateInPast(check: int, now: int) returns (past: bool)
    ensures past <==> check / DayMs < now / DayMs
  {
    var today := now;
    var checkDate := check;
    today := today - today % DayMs;
    checkDate := checkDate - checkDate % DayMs;
    past := checkDate < today;
  }

  /** The year the multi-argument `Date` constructor uses: a year argument
      from 0 to 99 means 1900 plus that year. */
  function ConstructorYear(y: int): (year: int)
    ensures 0 <= y <= 99 ==> year == 1900 + y
    ensures (y < 0 || 99 < y) ==> year == y
    ensures Abs(year) <= Abs(y) + 1900
  {
    if 0 <= y <= 99 then 1900 + y else y
  }

  /** `new Date(y, monthIndex, d)`: the constructor's year rule, then the
      month and day overflow. */
  function NewDate(y: int, monthIndex: int, d: int): (r: CalDate)
    ensures ValidDate(r)
  {
    MakeDate(ConstructorYear(y), monthIndex, d)
  }

  /** `getFirstDayOfMonth`: `new Date(year, month, 1)` formatted; a year from
      0 to 99 is read as 1900 plus that year. */
  function FirstDayOfMonth(date: CalDate): (s: string)
    requires Abs(date.year) < 1000000 - 1900
    ensures s == IsoDate(CalDate(ConstructorYear(date.year), date.month, 1))
  {
    var y := ConstructorYear(date.year);
    var r := NewDate(date.year, date.month - 1, 1);
    assert (date.month - 1) / 12 == 0 && (date.month - 1) % 12 + 1 == date.month;
    NormalizeValid(y, date.month, 1);
    IsoDate(r)
  }

  /** `getLastDayOfMonth`: `new Date(year, month + 1, 0)`, day 0 of the next
      month, formatted; a year from 0 to 99 is read as 1900 plus that year. */
  function LastDayOfMonth(date: CalDate): (s: string)
    requires Abs(date.year) < 1000000 - 1900
    ensures s == IsoDate(CalDate(ConstructorYear(date.year), date.month, DaysInMonth(ConstructorYear(date.year), date.month)))
  {
    var y := ConstructorYear(date.year);
    var r := NewDate(date.year, date.month, 0);
    MakeDateNextMonth(y, date.month, 0);
    NormalizeDayZero(y, date.month);
    IsoDate(r)
  }

  /** Outside years 0..99 both helpers stay in the date's own year. */
  lemma MonthBoundsKeepYear(date: CalDate)
    requires 100 <= date.year < 1000000 - 1900 || -(1000000 - 1900) < date.year < 0
    ensures FirstDayOfMonth(date) == IsoDate(CalDate(date.year, date.month, 1))
    ensures LastDayOfMonth(date) == IsoDate(CalDate(date.year, date.month, DaysInMonth(date.year, date.month)))
  {
  }

  /** In February of year 0 the constructor reads the year as 1900, which
      is not a leap year although year 0 is: the last day is the 28th. */
  lemma LastDayOfMonthYearZero(date: CalDate)
    requires date.year == 0 && date.month == 2
    ensures LastDayOfMonth(date) == IsoDate(CalDate(1900, 2, 28))
    ensures IsLeapYear(date.year) && !IsLeapYear(1900)
  {
  }
}
