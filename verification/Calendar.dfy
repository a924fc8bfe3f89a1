/** Two calendar algorithms: the parser's day count and the printer's inverse of it. */
module Calendar {

  datatype Date = Date(year: int, month: int, day: int)

  // ----- Counting days (timestamp parser) -----

  predicate IsLeap(year: int) { year % 4 == 0 && (year % 100 != 0 || year % 400 == 0) }

  function DaysInMonth(year: int, month: int): nat {
    if month in {1, 3, 5, 7, 8, 10, 12} then 31
    else if month in {4, 6, 9, 11} then 30
    else if month == 2 then (if IsLeap(year) then 29 else 28)
    else 0
  }

  function DaysBeforeYear(year: int): int {
    if year == 0 then 0
    else
      var completed := year - 1;
      year * 365 + completed / 4 - completed / 100 + completed / 400 + 1
  }

  /** Days of the year before the first of `month`. */
  function DaysBeforeMonth(year: int, month: int): nat
    decreases month
  {
    if month <= 1 then 0 else DaysBeforeMonth(year, month - 1) + DaysInMonth(year, month - 1)
  }

  predicate ValidDate(d: Date) {
    d.year >= 0 && 1 <= d.month <= 12 && 1 <= d.day <= DaysInMonth(d.year, d.month)
  }

  /** Days from 1970-01-01. */
  function UnixDays(d: Date): int {
    DaysBeforeYear(d.year) + DaysBeforeMonth(d.year, d.month) + (d.day - 1) - DaysBeforeYear(1970)
  }

  // ----- Recovering the date (timestamp printer) -----

  /** Division of machine integers truncates toward zero. */
  function TruncDiv(a: int, b: int): int
    requires b > 0
  {
    if a >= 0 then a / b else -((-a) / b)
  }

  function YearOfEra(dayOfEra: int): int {
    (dayOfEra - dayOfEra / 1_460 + dayOfEra / 36_524 - dayOfEra / 146_096) / 365
  }

  function CivilFromDays(days: int): Date {
    var z := days + 719_468;
    var era := TruncDiv(if z >= 0 then z else z - 146_096, 146_097);
    var dayOfEra := z - era * 146_097;
    var yearOfEra := YearOfEra(dayOfEra);
    var dayOfYear := dayOfEra - (365 * yearOfEra + yearOfEra / 4 - yearOfEra / 100);
    var monthPrime := (5 * dayOfYear + 2) / 153;
    var day := dayOfYear - (153 * monthPrime + 2) / 5 + 1;
    var month := monthPrime + (if monthPrime < 10 then 3 else -9);
    var year := yearOfEra + era * 400 + (if month <= 2 then 1 else 0);
    Date(year, month, day)
  }

  // ----- Agreement -----

  function YearStart(y: int): int { 365 * y + y / 4 - y / 100 }

  /** The March-based year `y` of an era ends with a leap day. */
  predicate EndsInLeapDay(y: int) { (y + 1) % 4 == 0 && ((y + 1) % 100 != 0 || y == 399) }

  /** A day of an era as centuries, four-year cycles and the day within the cycle. */
  lemma CycleOf(doe: int) returns (c: int, q: int, s: int)
    requires 0 <= doe < 146_096
    ensures doe == 36_524 * c + 1_461 * q + s && 0 <= c <= 3 && 0 <= q <= 24 && 0 <= s <= 1_460
    ensures doe / 36_524 == c && doe / 146_096 == 0
    ensures q == 24 ==> s <= 1_459
  {
    c := doe / 36_524;
    q, s := doe % 36_524 / 1_461, doe % 36_524 % 1_461;
  }

  /** The year formula picks the year of the cycle that holds the day. */
  lemma YearOfEraInCycle(doe: int, c: int, q: int, s: int, t: int)
    requires doe == 36_524 * c + 1_461 * q + s && 0 <= c <= 3 && 0 <= q <= 24 && 0 <= s <= 1_460
    requires doe / 36_524 == c && doe / 146_096 == 0
    requires t == if s == 1_460 then 3 else s / 365
    ensures YearOfEra(doe) == 100 * c + 4 * q + t
  {
    var carry := if 24 * c + q + s >= 1_460 then 1 else 0;
    CycleQuotient(c, q, s, carry);
    YearInCycle(s);
    YearQuotient(100 * c + 4 * q + t, s - carry - 365 * t);
  }

  lemma YearOfEraIsRight(doe: int)
    requires 0 <= doe <= 146_096
    ensures 0 <= YearOfEra(doe) <= 399
    ensures 0 <= doe - YearStart(YearOfEra(doe)) <= (if EndsInLeapDay(YearOfEra(doe)) then 365 else 364)
  {
    if doe == 146_096 {
      assert YearOfEra(doe) == 399;
    } else {
      hide YearOfEra, YearStart, EndsInLeapDay;
      var c, q, s := CycleOf(doe);
      var t := if s == 1_460 then 3 else s / 365;
      YearOfEraInCycle(doe, c, q, s, t);
      YearInCycle(s);
      YearOfCycle(c, q, t);
    }
  }

  lemma CycleQuotient(c: int, q: int, s: int, carry: int)
    requires 0 <= c <= 3 && 0 <= q <= 24 && 0 <= s <= 1_460
    requires carry == if 24 * c + q + s >= 1_460 then 1 else 0
    ensures (36_524 * c + 1_461 * q + s) / 1_460 == 25 * c + q + carry
  {
  }

  lemma YearQuotient(y: int, e: int)
    requires 0 <= e < 365
    ensures (365 * y + e) / 365 == y
  {
  }

  lemma YearInCycle(s: int)
    requires 0 <= s <= 1_460
    ensures var t := if s == 1_460 then 3 else s / 365;
            0 <= t <= 3 && 365 * t <= s <= 365 * t + (if t == 3 then 365 else 364)
            && (s >= 1_340 ==> t == 3)
  {
  }

  lemma YearOfCycle(c: int, q: int, t: int)
    requires 0 <= c <= 3 && 0 <= q <= 24 && 0 <= t <= 3
    ensures var y := 100 * c + 4 * q + t;
            && YearStart(y) == 36_524 * c + 1_461 * q + 365 * t
            && (EndsInLeapDay(y) <==> t == 3 && (q < 24 || c == 3))
  {
  }

  function LeapDay(year: int): int { if IsLeap(year) then 1 else 0 }

  /** Days from March first of year zero to March first of year `y`. */
  function MarchFirst(y: int): int { 365 * y + y / 4 - y / 100 + y / 400 }

  lemma MarchFirstOfEra(era: int, yoe: int)
    requires 0 <= yoe <= 399
    ensures MarchFirst(400 * era + yoe) == 146_097 * era + YearStart(yoe)
  {
    var y := 400 * era + yoe;
    assert y / 4 == 100 * era + yoe / 4;
    assert y / 100 == 4 * era + yoe / 100;
    assert y / 400 == era;
  }

  lemma EraKeepsRemainders(era: int, x: int)
    ensures (400 * era + x) % 4 == x % 4 && (400 * era + x) % 100 == x % 100 && (400 * era + x) % 400 == x % 400
  {
    SameRemainder4(100 * era, x);
    SameRemainder100(4 * era, x);
    SameRemainder400(era, x);
  }

  lemma SameRemainder4(a: int, x: int) ensures (4 * a + x) % 4 == x % 4 {}
  lemma SameRemainder100(a: int, x: int) ensures (100 * a + x) % 100 == x % 100 {}
  lemma SameRemainder400(a: int, x: int) ensures (400 * a + x) % 400 == x % 400 {}

  lemma LeapDayOfEra(era: int, yoe: int)
    requires 0 <= yoe <= 399
    ensures EndsInLeapDay(yoe) <==> IsLeap(400 * era + yoe + 1)
  {
    EraKeepsRemainders(era, yoe + 1);
  }

  lemma Previous4(y: int) ensures (y - 1) / 4 == y / 4 - (if y % 4 == 0 then 1 else 0) {}
  lemma Previous100(y: int) ensures (y - 1) / 100 == y / 100 - (if y % 100 == 0 then 1 else 0) {}
  lemma Previous400(y: int) ensures (y - 1) / 400 == y / 400 - (if y % 400 == 0 then 1 else 0) {}

  lemma Divides(y: int)
    ensures y % 400 == 0 ==> y % 100 == 0
    ensures y % 100 == 0 ==> y % 4 == 0
  {
    if y % 400 == 0 { SameRemainder100(4 * (y / 400), 0); }
    if y % 100 == 0 { SameRemainder4(25 * (y / 100), 0); }
  }

  /** Both day counts of a year start agree; January first is counted after the previous March. */
  lemma YearStarts(y: int)
    requires y >= -1
    ensures DaysBeforeYear(y + 1) == MarchFirst(y) + 366
    ensures y >= 0 ==> DaysBeforeYear(y) + LeapDay(y) == MarchFirst(y) + 1
  {
    Previous4(y);
    Previous100(y);
    Previous400(y);
    Divides(y);
  }

  function MonthTable(year: int, m: int): int
    requires 1 <= m <= 13
  {
    [0, 31, 59, 90, 120, 151, 181, 212, 243, 273, 304, 334, 365][m - 1] + (if m > 2 then LeapDay(year) else 0)
  }

  lemma {:induction false} DaysBeforeMonthTable(year: int, m: int)
    requires 1 <= m <= 13
    ensures DaysBeforeMonth(year, m) == MonthTable(year, m)
    decreases m
  {
    if m > 1 { DaysBeforeMonthTable(year, m - 1); }
  }

  /** Days from March first to the first of the `mp`-th month after March. */
  function MarchOffset(mp: int): int { (153 * mp + 2) / 5 }

  /** The month formula picks the month that holds the day, February reaching 29 only on a leap day. */
  lemma MonthOfDay(doy: int, leap: bool)
    requires 0 <= doy <= (if leap then 365 else 364)
    ensures var mp := (5 * doy + 2) / 153;
            && 0 <= mp <= 11
            && 0 <= doy - MarchOffset(mp)
            && doy - MarchOffset(mp) <
                 (if mp == 11 then (if leap then 29 else 28) else if mp in {1, 3, 6, 8} then 30 else 31)
  {
  }

  /** The date `doy` days after March first of year `y`. */
  function FromMarch(y: int, doy: int): Date {
    var mp := (5 * doy + 2) / 153;
    Date(if mp < 10 then y else y + 1, if mp < 10 then mp + 3 else mp - 9, doy - MarchOffset(mp) + 1)
  }

  lemma FromMarchCountsBack(y: int, doy: int)
    requires y >= -1 && 0 <= doy <= 364 + LeapDay(y + 1)
    requires y == -1 ==> doy >= 306
    ensures ValidDate(FromMarch(y, doy)) && UnixDays(FromMarch(y, doy)) == MarchFirst(y) + doy - 719_468
  {
    hide IsLeap, DaysBeforeYear, MarchFirst;
    var d := FromMarch(y, doy);
    MonthOfDay(doy, LeapDay(y + 1) == 1);
    YearStarts(y);
    DaysBeforeMonthTable(d.year, d.month);
    assert DaysBeforeYear(1970) == 719_528 by { Epoch(); }
  }

  lemma Epoch()
    ensures DaysBeforeYear(1970) == 719_528
  {
  }

  function Era(z: int): int { TruncDiv(if z >= 0 then z else z - 146_096, 146_097) }

  lemma EraSplits(z: int)
    ensures 0 <= z - 146_097 * Era(z) <= 146_096
  {
  }

  lemma EraOf(days: int) returns (era: int, doe: int)
    ensures 0 <= doe <= 146_096 && days + 719_468 == 146_097 * era + doe
    ensures var yoe := YearOfEra(doe);
            CivilFromDays(days) == FromMarch(400 * era + yoe, doe - YearStart(yoe))
  {
    hide YearOfEra, TruncDiv;
    era := Era(days + 719_468);
    doe := days + 719_468 - era * 146_097;
    EraSplits(days + 719_468);
    YearOfEraIsRight(doe);
    MonthOfDay(doe - YearStart(YearOfEra(doe)), EndsInLeapDay(YearOfEra(doe)));
  }

  /** The printed date is a real one and the parser counts it back to the same day. */
  lemma CivilDateCountsBack(days: int)
    requires days >= -719_528
    ensures ValidDate(CivilFromDays(days)) && UnixDays(CivilFromDays(days)) == days
  {
    hide CivilFromDays, FromMarch, YearOfEra, YearStart, MarchFirst, IsLeap;
    var era, doe := EraOf(days);
    var yoe := YearOfEra(doe);
    YearOfEraIsRight(doe);
    MarchFirstOfEra(era, yoe);
    LeapDayOfEra(era, yoe);
    var y := 400 * era + yoe;
    assert y >= -1 && (y == -1 ==> doe - YearStart(yoe) >= 306) by {
      assert era >= -1;
      if era == -1 { LastYear(doe); }
    }
    FromMarchCountsBack(y, doe - YearStart(yoe));
  }

  /** The sixty days before March of year zero lie in the last year of the era before it. */
  lemma LastYear(doe: int)
    requires 146_037 <= doe <= 146_096
    ensures YearOfEra(doe) == 399 && doe - YearStart(399) >= 306
  {
    YearOfEraIsRight(doe);
  }

  // ----- The count is injective -----

  predicate Before(a: Date, b: Date) {
    a.year < b.year || (a.year == b.year && (a.month < b.month || (a.month == b.month && a.day < b.day)))
  }

  lemma {:induction false} MonthsGrow(year: int, m: int, n: int)
    requires 1 <= m < n <= 13
    ensures DaysBeforeMonth(year, m) + DaysInMonth(year, m) <= DaysBeforeMonth(year, n)
    decreases n - m
  {
    if m + 1 < n { MonthsGrow(year, m + 1, n); }
  }

  lemma {:induction false} YearsGrow(a: int, b: int)
    requires 0 <= a < b
    ensures DaysBeforeYear(a) + 365 + LeapDay(a) <= DaysBeforeYear(b)
    decreases b - a
  {
    hide DaysBeforeYear, IsLeap;
    YearStarts(a);
    if a + 1 < b { YearsGrow(a + 1, b); }
  }

  /** Later dates count strictly higher. */
  lemma DaysFollowDates(a: Date, b: Date)
    requires ValidDate(a) && ValidDate(b) && Before(a, b)
    ensures UnixDays(a) < UnixDays(b)
  {
    hide DaysBeforeYear, DaysInMonth, IsLeap;
    if a.year < b.year {
      YearsGrow(a.year, b.year);
      MonthsGrow(a.year, a.month, 13);
      DaysBeforeMonthTable(a.year, 13);
      MonthsNonNegative(b);
    } else if a.month < b.month {
      MonthsGrow(a.year, a.month, b.month);
    }
  }

  lemma MonthsNonNegative(d: Date)
    ensures DaysBeforeMonth(d.year, d.month) >= 0
  {
  }

  /** The printer inverts the parser's count: same day, same date. */
  lemma CivilFromDaysInverts(d: Date)
    requires ValidDate(d)
    ensures CivilFromDays(UnixDays(d)) == d
  {
    hide CivilFromDays, UnixDays;
    assert UnixDays(d) >= -719_528 by { FirstDay(d); }
    CivilDateCountsBack(UnixDays(d));
    var e := CivilFromDays(UnixDays(d));
    if Before(e, d) { DaysFollowDates(e, d); }
    if Before(d, e) { DaysFollowDates(d, e); }
  }

  lemma FirstDay(d: Date)
    requires ValidDate(d)
    ensures UnixDays(d) >= -719_528
  {
    if d != Date(0, 1, 1) { DaysFollowDates(Date(0, 1, 1), d); }
  }

  // ----- Day by day -----

  /** The next day of the Gregorian calendar. */
  function NextDay(d: Date): Date {
    if d.day < DaysInMonth(d.year, d.month) then d.(day := d.day + 1)
    else if d.month < 12 then Date(d.year, d.month + 1, 1)
    else Date(d.year + 1, 1, 1)
  }

  /** The day count is the number of midnights since the first of January 1970. */
  lemma CountsDayByDay(d: Date)
    requires ValidDate(d)
    ensures ValidDate(NextDay(d)) && UnixDays(NextDay(d)) == UnixDays(d) + 1
    ensures UnixDays(Date(1970, 1, 1)) == 0
  {
    hide DaysBeforeYear;
    DaysBeforeMonthTable(d.year, 13);
    YearStarts(d.year);
  }
}
