// Days and civil dates as ECMA-262 5.1 section 15.9.1 has them, with local time
// taken as offset-free: a date is the number of its day counted from 1970-01-01.

module CivilDate {
  import opened Common

  // A year, a month from 1 to 12 and a day of the month from 1.
  datatype Civil = Civil(year: int, month: int, day: int)

  predicate Leap(y: int) {
    y % 4 == 0 && (y % 100 != 0 || y % 400 == 0)
  }

  function YearDays(y: int): int {
    if Leap(y) then 366 else 365
  }

  // The first day of a year.
  function YearStart(y: int): int
    decreases if y < 1970 then 1970 - y else y - 1970
  {
    if y == 1970 then 0 else if y > 1970 then YearStart(y - 1) + YearDays(y - 1) else YearStart(y + 1) - YearDays(y)
  }

  lemma NextYear(y: int)
    ensures YearStart(y + 1) == YearStart(y) + YearDays(y)
  {
  }

  lemma NextQuotient(x: int, n: int)
    requires n == 4 || n == 100 || n == 400
    ensures (x + 1) / n == x / n + if (x + 1) % n == 0 then 1 else 0
  {
  }

  lemma Rest4(y: int)
    ensures (y - 1968) % 4 == y % 4
  {
    assert y - 1968 == 4 * (y / 4 - 492) + y % 4;
  }

  lemma Rest100(y: int)
    ensures (y - 1900) % 100 == y % 100
  {
    assert y - 1900 == 100 * (y / 100 - 19) + y % 100;
  }

  lemma Rest400(y: int)
    ensures (y - 1600) % 400 == y % 400
  {
    assert y - 1600 == 400 * (y / 400 - 4) + y % 400;
  }

  // The leap days before a year, as section 15.9.1.3 counts them.
  ghost function LeapDays(q: int, c: int, f: int): int {
    q - c + f
  }

  lemma NextLeapDays(y: int)
    ensures LeapDays((y - 1968) / 4, (y - 1900) / 100, (y - 1600) / 400)
      == LeapDays((y - 1969) / 4, (y - 1901) / 100, (y - 1601) / 400) + if Leap(y) then 1 else 0
  {
    NextQuotient(y - 1969, 4);
    NextQuotient(y - 1901, 100);
    NextQuotient(y - 1601, 400);
    Rest4(y);
    Rest100(y);
    Rest400(y);
    Nested(y);
  }

  lemma Nested(y: int)
    ensures y % 400 == 0 ==> y % 100 == 0
    ensures y % 100 == 0 ==> y % 4 == 0
  {
    if y % 400 == 0 {
      Multiple(y, 4 * (y / 400), 100);
    }
    if y % 100 == 0 {
      Multiple(y, 25 * (y / 100), 4);
    }
  }

  lemma Multiple(y: int, k: int, n: int)
    requires n == 4 || n == 100
    requires y == n * k
    ensures y % n == 0
  {
  }

  lemma {:induction false} YearStartIs(y: int)
    ensures YearStart(y) == 365 * (y - 1970) + LeapDays((y - 1969) / 4, (y - 1901) / 100, (y - 1601) / 400)
    decreases if y < 1970 then 1970 - y else y - 1970
  {
    if y > 1970 {
      YearStartIs(y - 1);
      NextLeapDays(y - 1);
    } else if y < 1970 {
      YearStartIs(y + 1);
      NextLeapDays(y);
    }
  }

  lemma {:induction false} YearsApart(y: int, z: int)
    requires y <= z
    ensures YearStart(y) + 365 * (z - y) <= YearStart(z) <= YearStart(y) + 366 * (z - y)
    decreases z - y
  {
    if y < z {
      NextYear(y);
      YearsApart(y + 1, z);
    }
  }

  // Months counted from 0.
  function MonthDays(y: int, m: int): int {
    if m == 1 then (if Leap(y) then 29 else 28)
    else if m == 3 || m == 5 || m == 8 || m == 10 then 30 else 31
  }

  function MonthStart(y: int, m: int): int
    decreases m
  {
    if m <= 0 then 0 else MonthStart(y, m - 1) + MonthDays(y, m - 1)
  }

  lemma MonthStarts(y: int)
    ensures MonthStart(y, 12) == YearDays(y)
  {
    assert MonthStart(y, 2) == 31 + MonthDays(y, 1);
    assert MonthStart(y, 4) == MonthStart(y, 2) + 61;
    assert MonthStart(y, 6) == MonthStart(y, 4) + 61;
    assert MonthStart(y, 8) == MonthStart(y, 6) + 62;
    assert MonthStart(y, 10) == MonthStart(y, 8) + 61;
  }

  // The day of the year a month starts on, as section 15.9.1.4 tabulates it.
  lemma MonthTable(y: int)
    ensures var leap := if Leap(y) then 1 else 0;
      && MonthStart(y, 0) == 0 && MonthStart(y, 1) == 31
      && MonthStart(y, 2) == 59 + leap && MonthStart(y, 3) == 90 + leap && MonthStart(y, 4) == 120 + leap
      && MonthStart(y, 5) == 151 + leap && MonthStart(y, 6) == 181 + leap && MonthStart(y, 7) == 212 + leap
      && MonthStart(y, 8) == 243 + leap && MonthStart(y, 9) == 273 + leap && MonthStart(y, 10) == 304 + leap
      && MonthStart(y, 11) == 334 + leap && MonthStart(y, 12) == 365 + leap
  {
    assert MonthStart(y, 2) == 59 + MonthDays(y, 1) - 28;
    assert MonthStart(y, 4) == MonthStart(y, 2) + 61;
    assert MonthStart(y, 6) == MonthStart(y, 4) + 61;
    assert MonthStart(y, 8) == MonthStart(y, 6) + 62;
    assert MonthStart(y, 10) == MonthStart(y, 8) + 61;
  }

  lemma {:induction false} MonthsApart(y: int, m: int, n: int)
    requires 0 <= m < n <= 12
    ensures MonthStart(y, m) + MonthDays(y, m) <= MonthStart(y, n)
    decreases n
  {
    if m < n - 1 {
      MonthsApart(y, m, n - 1);
    }
  }

  function DayIn(y: int, m: int, d: int): int {
    YearStart(y) + MonthStart(y, m) + d - 1
  }

  // The day of a year, a month and a day of the month that may lie out of range.
  function MakeDay(y: int, m: int, d: int): int
    decreases if m < 0 then 12 - m else m
  {
    if m < 0 then MakeDay(y - 1, m + 12, d) else if m >= 12 then MakeDay(y + 1, m - 12, d) else DayIn(y, m, d)
  }

  // Section 15.9.1.12.
  lemma {:induction false} MakeDayIs(y: int, m: int, d: int)
    ensures MakeDay(y, m, d) == DayIn(y + m / 12, m % 12, d)
    decreases if m < 0 then 12 - m else m
  {
    if m < 0 {
      MakeDayIs(y - 1, m + 12, d);
      assert (m + 12) / 12 == m / 12 + 1 && (m + 12) % 12 == m % 12;
    } else if m >= 12 {
      MakeDayIs(y + 1, m - 12, d);
      assert (m - 12) / 12 == m / 12 - 1 && (m - 12) % 12 == m % 12;
    } else {
      assert m / 12 == 0 && m % 12 == m;
      assert y + m / 12 == y;
    }
  }

  // The year a day lies in, searched forwards and backwards.
  function YearUp(day: int, y: int): (r: int)
    requires YearStart(y) <= day
    ensures YearStart(r) <= day < YearStart(r + 1)
    decreases day - YearStart(y)
  {
    NextYear(y);
    if day < YearStart(y + 1) then y else YearUp(day, y + 1)
  }

  function YearDown(day: int, y: int): (r: int)
    requires day < YearStart(y)
    ensures YearStart(r) <= day < YearStart(r + 1)
    decreases YearStart(y) - day
  {
    NextYear(y - 1);
    if YearStart(y - 1) <= day then y - 1 else YearDown(day, y - 1)
  }

  function YearFrom(day: int): (r: int)
    ensures YearStart(r) <= day < YearStart(r + 1)
  {
    if day < YearStart(1970) then YearDown(day, 1970) else YearUp(day, 1970)
  }

  // The civil date of the day of a year, counted from the start of month m.
  function DateFrom(y: int, m: int, d: int): Civil
    decreases 12 - m
  {
    if m >= 11 || d < MonthDays(y, m) then Civil(y, m + 1, d + 1) else DateFrom(y, m + 1, d - MonthDays(y, m))
  }

  // The civil date of a day: getFullYear, getMonth + 1 and getDate.
  function DateOf(day: int): Civil {
    var y := YearFrom(day);
    DateFrom(y, 0, day - YearStart(y))
  }

  predicate Valid(c: Civil) {
    1 <= c.month <= 12 && 1 <= c.day <= MonthDays(c.year, c.month - 1)
  }

  function DayOf(c: Civil): int {
    DayIn(c.year, c.month - 1, c.day)
  }

  lemma SameYear(day: int, y: int, z: int)
    requires YearStart(y) <= day < YearStart(y + 1) && YearStart(z) <= day < YearStart(z + 1)
    ensures y == z
  {
    if y < z {
      YearsApart(y + 1, z);
    } else if z < y {
      YearsApart(z + 1, y);
    }
  }

  lemma {:induction false} MonthStartNat(y: int, m: int)
    ensures MonthStart(y, m) >= 0
    decreases m
  {
    if m > 0 {
      MonthStartNat(y, m - 1);
    }
  }

  lemma {:induction false} DateFromDay(y: int, m: int, d: int)
    requires 0 <= m < 12 && 0 <= d && MonthStart(y, m) + d < YearDays(y)
    ensures var c := DateFrom(y, m, d);
      Valid(c) && c.year == y && MonthStart(y, c.month - 1) + c.day - 1 == MonthStart(y, m) + d
    decreases 12 - m
  {
    MonthStarts(y);
    if m < 11 && d >= MonthDays(y, m) {
      DateFromDay(y, m + 1, d - MonthDays(y, m));
    }
  }

  // Days and valid civil dates correspond one to one.
  lemma DayOfDate(day: int)
    ensures Valid(DateOf(day)) && DayOf(DateOf(day)) == day
  {
    var y := YearFrom(day);
    NextYear(y);
    DateFromDay(y, 0, day - YearStart(y));
  }

  lemma SameMonth(y: int, m: int, d: int, n: int, e: int)
    requires 0 <= m < 12 && 0 <= n < 12 && 1 <= d <= MonthDays(y, m) && 1 <= e <= MonthDays(y, n)
    requires MonthStart(y, m) + d == MonthStart(y, n) + e
    ensures m == n && d == e
  {
    if m < n {
      MonthsApart(y, m, n);
    } else if n < m {
      MonthsApart(y, n, m);
    }
  }

  lemma InYear(c: Civil)
    requires Valid(c)
    ensures YearStart(c.year) <= DayOf(c) < YearStart(c.year + 1)
  {
    MonthStartNat(c.year, c.month - 1);
    MonthStarts(c.year);
    MonthsApart(c.year, c.month - 1, 12);
    NextYear(c.year);
  }

  lemma SameDay(c: Civil, e: Civil)
    requires Valid(c) && Valid(e) && DayOf(c) == DayOf(e)
    ensures c == e
  {
    InYear(c);
    InYear(e);
    SameYear(DayOf(c), c.year, e.year);
    SameMonth(c.year, c.month - 1, c.day, e.month - 1, e.day);
  }

  lemma DateOfDay(c: Civil)
    requires Valid(c)
    ensures DateOf(DayOf(c)) == c
  {
    DayOfDate(DayOf(c));
    SameDay(c, DateOf(DayOf(c)));
  }

  // ---------------------------------------------------------------- the Date constructor

  // Section 15.9.3.1: the years 0 to 99 stand for 1900 to 1999.
  function FullYear(y: int): int {
    if 0 <= y <= 99 then 1900 + y else y
  }

  function DayNamed(y: int, m: int, d: int): int {
    MakeDay(FullYear(y), m, d)
  }

  // Section 15.9.1.14: a Date reaches 100000000 days from 1970-01-01 either way.
  const LAST_DAY := 100000000

  predicate InTime(day: int) {
    -LAST_DAY <= day <= LAST_DAY
  }

  // None is an invalid date, whose parts are all NaN.
  function NewDate(y: int, m: int, d: int): Option<int> {
    var day := DayNamed(y, m, d);
    if InTime(day) then Some(day) else None
  }

  // Section 15.9.1.6, with Sunday as 0.
  function WeekDay(day: int): int {
    (day + 4) % 7
  }

  lemma FourCenturies(y: int)
    ensures YearStart(y + 400) == YearStart(y) + 146097 && (Leap(y + 400) <==> Leap(y))
  {
    hide YearStart;
    YearStartIs(y);
    YearStartIs(y + 400);
    Quarters(y - 1969);
    Centuries(y - 1901);
    Quarters(y);
    Centuries(y);
    FourHundreds(y - 1601);
    FourHundreds(y);
  }

  lemma Quarters(x: int)
    ensures (x + 400) / 4 == x / 4 + 100 && (x + 400) % 4 == x % 4
  {
  }

  lemma Centuries(x: int)
    ensures (x + 400) / 100 == x / 100 + 4 && (x + 400) % 100 == x % 100
  {
  }

  lemma FourHundreds(x: int)
    ensures (x + 400) / 400 == x / 400 + 1 && (x + 400) % 400 == x % 400
  {
  }

  lemma {:induction false} SameMonths(y: int, z: int, m: int)
    requires Leap(y) <==> Leap(z)
    ensures MonthStart(y, m) == MonthStart(z, m)
    decreases m
  {
    if m > 0 {
      SameMonths(y, z, m - 1);
    }
  }

  // The calendar repeats after 400 years, the days of the week with it, and 2000
  // began on a Saturday.
  lemma Repeats(y: int, m: int, d: int)
    ensures MakeDay(y + 400, m, d) == MakeDay(y, m, d) + 146097
    ensures WeekDay(MakeDay(y + 400, m, d)) == WeekDay(MakeDay(y, m, d))
    ensures WeekDay(MakeDay(2000, 0, 1)) == 6 && WeekDay(MakeDay(y, m, d + 1)) == (WeekDay(MakeDay(y, m, d)) + 1) % 7
  {
    hide YearStart, MonthStart, MakeDay, Leap;
    MakeDayIs(y, m, d);
    MakeDayIs(y, m, d + 1);
    MakeDayIs(y + 400, m, d);
    FourCenturies(y + m / 12);
    SameMonths(y + m / 12, y + 400 + m / 12, m % 12);
    Year2000();
  }

  lemma Year2000()
    ensures MakeDay(2000, 0, 1) == 10957
  {
    YearStartIs(2000);
  }

  // The days that lie in the years 0 to 99.
  predicate Early(day: int) {
    0 <= DateOf(day).year <= 99
  }

  lemma YearsInOrder(y: int, z: int)
    requires y <= z
    ensures YearStart(y) <= YearStart(z)
  {
    YearsApart(y, z);
  }

  lemma YearBelow(day: int, z: int)
    ensures DateOf(day).year < z <==> day < YearStart(z)
  {
    var y := YearFrom(day);
    if y < z {
      YearsInOrder(y + 1, z);
    } else {
      YearsInOrder(z, y);
    }
  }

  // The day named by the parts of a date, moved by some days, is moved by those days,
  // exactly when the date does not lie in the years 0 to 99.
  lemma Rebuilt(c: Civil, n: int)
    requires Valid(c)
    ensures DayNamed(c.year, c.month - 1, c.day + n) == DayOf(c) + n <==> !(0 <= c.year <= 99)
  {
    DaysLater(c.year, c.month - 1, c.day, n);
    if 0 <= c.year <= 99 {
      LaterYear(c.year, 1900 + c.year, c.month - 1, c.day + n);
    }
  }

  lemma DaysLater(y: int, m: int, d: int, n: int)
    ensures DayIn(y, m, d + n) == DayIn(y, m, d) + n
  {
  }

  lemma LaterYear(y: int, z: int, m: int, d: int)
    requires y < z
    ensures DayIn(y, m, d) < DayIn(z, m, d)
  {
    YearsApart(y, z);
    MonthYears(y, z, m);
  }

  lemma {:induction false} MonthYears(y: int, z: int, m: int)
    ensures MonthStart(y, m) <= MonthStart(z, m) + if m >= 2 then 1 else 0
    decreases m
  {
    if m > 0 {
      MonthYears(y, z, m - 1);
    }
  }
}
