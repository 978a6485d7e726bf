/**
 The proleptic Gregorian calendar as whole-number arithmetic: the conversions
 between civil dates and days since 1970-01-01 are exact inverses for every
 date and every day, before and after the epoch.
 */
module Calendar {

  // Division that drops the fraction, as the source's integer division does.
  function Truncated(a: int, b: int): int
    requires b > 0
  {
    if a >= 0 then a / b else -((-a) / b)
  }

  predicate IsLeapYear(year: int) {
    (year % 4 == 0 && year % 100 != 0) || year % 400 == 0
  }

  function DaysInMonth(year: int, month: int): int {
    if month in {1, 3, 5, 7, 8, 10, 12} then 31
    else if month in {4, 6, 9, 11} then 30
    else if month == 2 then (if IsLeapYear(year) then 29 else 28)
    else 0
  }

  predicate ValidDate(year: int, month: int, day: int) {
    1 <= month <= 12 && 1 <= day <= DaysInMonth(year, month)
  }

  function DaysFromCivil(year: int, month: int, day: int): int {
    var y := if month <= 2 then year - 1 else year;
    var era := Truncated(if y >= 0 then y else y - 399, 400);
    var yearOfEra := y - era * 400;
    var dayOfYear := (153 * (month + if month > 2 then -3 else 9) + 2) / 5 + day - 1;
    var dayOfEra := yearOfEra * 365 + yearOfEra / 4 - yearOfEra / 100 + dayOfYear;
    era * 146097 + dayOfEra - 719468
  }

  function CivilFromDays(days: int): (int, int, int) {
    var shifted := days + 719468;
    var era := Truncated(if shifted >= 0 then shifted else shifted - 146096, 146097);
    var dayOfEra := shifted - era * 146097;
    DateInEra(era, YearOfEra(dayOfEra), dayOfEra)
  }

  // The date of a day of an era, given the year of the era it is in.
  function DateInEra(era: int, yearOfEra: int, dayOfEra: int): (int, int, int) {
    var year := yearOfEra + era * 400;
    var dayOfYear := dayOfEra - (365 * yearOfEra + yearOfEra / 4 - yearOfEra / 100);
    var shiftedMonth := (5 * dayOfYear + 2) / 153;
    var day := dayOfYear - (153 * shiftedMonth + 2) / 5 + 1;
    var month := shiftedMonth + if shiftedMonth < 10 then 3 else -9;
    (year + if month <= 2 then 1 else 0, month, day)
  }

  function YearOfEra(dayOfEra: int): int {
    (dayOfEra - dayOfEra / 1460 + dayOfEra / 36524 - dayOfEra / 146096) / 365
  }

  // ----- years that start in March -----

  // Days from the start of the era to the start of one of its years.
  function YearStart(yearOfEra: int): int {
    365 * yearOfEra + yearOfEra / 4 - yearOfEra / 100
  }

  // A March year holds the leap day if the January it ends in is in a leap year.
  function YearLength(yearOfEra: int): int {
    if IsLeapYear(yearOfEra + 1) then 366 else 365
  }

  lemma EraIsFloor(y: int, days: int)
    ensures Truncated(if y >= 0 then y else y - 399, 400) == y / 400
    ensures Truncated(if days >= 0 then days else days - 146096, 146097) == days / 146097
  {
  }

  // A year of the era by century, four-year cycle and year within it.
  lemma YearStartByCycle(c: int, q: int, s: int)
    requires 0 <= c < 4 && 0 <= q < 25 && 0 <= s < 4
    ensures YearStart(100 * c + 4 * q + s) == 36524 * c + 1461 * q + 365 * s
    ensures IsLeapYear(100 * c + 4 * q + s + 1) <==> s == 3 && (q < 24 || c == 3)
  {
    var y := 100 * c + 4 * q + s;
    assert y / 4 == 25 * c + q;
    assert y / 100 == c;
  }

  lemma YearOfEraByCycle(c: int, q: int, s: int, dayOfYear: int)
    requires 0 <= c < 4 && 0 <= q < 25 && 0 <= s < 4
    requires 0 <= dayOfYear < (if s == 3 && (q < 24 || c == 3) then 366 else 365)
    ensures YearOfEra(36524 * c + 1461 * q + 365 * s + dayOfYear) == 100 * c + 4 * q + s
  {
    var d := 36524 * c + 1461 * q + 365 * s + dayOfYear;
    var last := c == 3 && q == 24 && s == 3 && dayOfYear == 365;
    var rest := 1461 * q + 365 * s + dayOfYear;
    assert rest <= 36524 && (rest == 36524 ==> last);
    assert d / 146096 == if last then 1 else 0;
    assert d / 36524 == if last then 4 else c;
    var t := 24 * c + q + 365 * s + dayOfYear;
    assert d == 1460 * (25 * c + q) + t && 0 <= t < 2920;
    var over := if t >= 1460 then 1 else 0;
    assert d / 1460 == 25 * c + q + over;
    var n := d - d / 1460 + d / 36524 - d / 146096;
    assert n == 365 * (100 * c + 4 * q + s) + (dayOfYear - over);
  }

  lemma YearOfEraCorrect(yearOfEra: int, dayOfYear: int)
    requires 0 <= yearOfEra < 400 && 0 <= dayOfYear < YearLength(yearOfEra)
    ensures YearOfEra(YearStart(yearOfEra) + dayOfYear) == yearOfEra
    ensures 0 <= YearStart(yearOfEra) + dayOfYear < 146097
  {
    var c, q, s := yearOfEra / 100, yearOfEra % 100 / 4, yearOfEra % 4;
    assert yearOfEra == 100 * c + 4 * q + s;
    YearStartByCycle(c, q, s);
    YearOfEraByCycle(c, q, s, dayOfYear);
  }

  lemma DayOfEraSplits(dayOfEra: int) returns (yearOfEra: int, dayOfYear: int)
    requires 0 <= dayOfEra < 146097
    ensures 0 <= yearOfEra < 400 && 0 <= dayOfYear < YearLength(yearOfEra)
    ensures dayOfEra == YearStart(yearOfEra) + dayOfYear
  {
    var c := if dayOfEra == 146096 then 3 else dayOfEra / 36524;
    var e := dayOfEra - 36524 * c;
    var q := if e / 1461 > 24 then 24 else e / 1461;
    var g := e - 1461 * q;
    var s := if g / 365 > 3 then 3 else g / 365;
    dayOfYear := g - 365 * s;
    yearOfEra := 100 * c + 4 * q + s;
    YearStartByCycle(c, q, s);
  }

  // ----- months -----

  // Days from 1 March to the first of a month counted from March.
  function MonthStart(m: int): int {
    (153 * m + 2) / 5
  }

  function MonthLength(m: int): int {
    if m in {1, 3, 6, 8} then 30 else if m == 11 then 29 else 31
  }

  lemma MonthOfDay(m: int, day: int)
    requires 0 <= m < 12 && 1 <= day <= MonthLength(m)
    ensures MonthIndex(MonthStart(m) + day - 1) == m
    ensures 0 <= MonthStart(m) + day - 1 < 366
    ensures MonthStart(m) + day - 1 == 365 <==> m == 11 && day == 29
  {
  }

  lemma DayOfYearSplits(dayOfYear: int)
    requires 0 <= dayOfYear < 366
    ensures var m := MonthIndex(dayOfYear);
            0 <= m < 12 && 1 <= dayOfYear - MonthStart(m) + 1 <= MonthLength(m)
  {
    var m := (5 * dayOfYear + 2) / 153;
    assert 0 <= m < 12;
  }

  // ----- the two conversions -----

  // The calendar year, month and day of a March year, month and day.
  function CivilOf(marchYear: int, m: int, day: int): (int, int, int) {
    (if m < 10 then marchYear else marchYear + 1, if m < 10 then m + 3 else m - 9, day)
  }

  lemma CivilOfValid(marchYear: int, m: int, day: int)
    requires 0 <= m < 12 && 1 <= day <= MonthLength(m)
    ensures var date := CivilOf(marchYear, m, day);
            ValidDate(date.0, date.1, date.2) <==> (m == 11 && day == 29 ==> IsLeapYear(marchYear + 1))
  {
  }

  lemma LeapInEra(marchYear: int)
    ensures IsLeapYear(marchYear + 1) <==> IsLeapYear(marchYear % 400 + 1)
  {
    SameResidues(marchYear / 400, marchYear % 400 + 1);
    assert marchYear + 1 == 400 * (marchYear / 400) + (marchYear % 400 + 1);
  }

  lemma SameResidues(era: int, k: int)
    ensures (400 * era + k) % 4 == k % 4
    ensures (400 * era + k) % 100 == k % 100
    ensures (400 * era + k) % 400 == k % 400
  {
    Residues(100 * era + k / 4, k % 4, 4 * era + k / 100, k % 100, era + k / 400, k % 400);
  }

  lemma Residues(q4: int, r4: int, q100: int, r100: int, q400: int, r400: int)
    requires 0 <= r4 < 4 && 0 <= r100 < 100 && 0 <= r400 < 400
    ensures (4 * q4 + r4) % 4 == r4
    ensures (100 * q100 + r100) % 100 == r100
    ensures (400 * q400 + r400) % 400 == r400
  {
  }

  lemma EraOf(era: int, yearOfEra: int, dayOfEra: int)
    requires 0 <= yearOfEra < 400 && 0 <= dayOfEra < 146097
    ensures (era * 400 + yearOfEra) / 400 == era && (era * 400 + yearOfEra) % 400 == yearOfEra
    ensures (era * 146097 + dayOfEra) / 146097 == era
  {
  }

  // The month that a day of a March year falls in.
  function MonthIndex(dayOfYear: int): int {
    (5 * dayOfYear + 2) / 153
  }

  lemma DateInEraIs(era: int, yearOfEra: int, dayOfYear: int)
    requires 0 <= dayOfYear < 366
    ensures var m := MonthIndex(dayOfYear);
            DateInEra(era, yearOfEra, YearStart(yearOfEra) + dayOfYear)
            == CivilOf(era * 400 + yearOfEra, m, dayOfYear - MonthStart(m) + 1)
  {
    DayOfYearSplits(dayOfYear);
  }

  lemma YearLengths(yearOfEra: int)
    ensures YearLength(yearOfEra) == if IsLeapYear(yearOfEra + 1) then 366 else 365
  {
  }

  // Both conversions in terms of an era, a March year of it and a day of that.
  lemma FromEra(era: int, yearOfEra: int, dayOfYear: int)
    requires 0 <= yearOfEra < 400 && 0 <= dayOfYear < YearLength(yearOfEra)
    ensures var m := MonthIndex(dayOfYear);
            CivilFromDays(era * 146097 + YearStart(yearOfEra) + dayOfYear - 719468)
            == CivilOf(era * 400 + yearOfEra, m, dayOfYear - MonthStart(m) + 1)
  {
    hide Truncated, YearOfEra, DateInEra, MonthIndex, MonthStart, CivilOf, YearStart, YearLength;
    var dayOfEra := YearStart(yearOfEra) + dayOfYear;
    YearLengths(yearOfEra);
    YearOfEraCorrect(yearOfEra, dayOfYear);
    EraIsFloor(0, era * 146097 + dayOfEra);
    EraOf(era, yearOfEra, dayOfEra);
    DateInEraIs(era, yearOfEra, dayOfYear);
  }

  lemma ToEra(era: int, yearOfEra: int, m: int, day: int)
    requires 0 <= yearOfEra < 400 && 0 <= m < 12
    ensures var date := CivilOf(era * 400 + yearOfEra, m, day);
            DaysFromCivil(date.0, date.1, date.2)
            == era * 146097 + YearStart(yearOfEra) + MonthStart(m) + day - 1 - 719468
  {
    EraIsFloor(era * 400 + yearOfEra, 0);
    EraOf(era, yearOfEra, 0);
    hide Truncated;
  }

  lemma BothConversions(era: int, yearOfEra: int, dayOfYear: int)
    requires 0 <= yearOfEra < 400 && 0 <= dayOfYear < YearLength(yearOfEra)
    ensures var days := era * 146097 + YearStart(yearOfEra) + dayOfYear - 719468;
            var m := MonthIndex(dayOfYear);
            var date := CivilOf(era * 400 + yearOfEra, m, dayOfYear - MonthStart(m) + 1);
            && CivilFromDays(days) == date
            && ValidDate(date.0, date.1, date.2)
            && DaysFromCivil(date.0, date.1, date.2) == days
  {
    hide *;
    FromEra(era, yearOfEra, dayOfYear);
    YearLengths(yearOfEra);
    DayOfYearSplits(dayOfYear);
    var m := MonthIndex(dayOfYear);
    var day := dayOfYear - MonthStart(m) + 1;
    MonthOfDay(m, day);
    EraOf(era, yearOfEra, 0);
    LeapInEra(era * 400 + yearOfEra);
    CivilOfValid(era * 400 + yearOfEra, m, day);
    ToEra(era, yearOfEra, m, day);
  }

  /** Every day count is the day count of exactly the date it converts to. */
  lemma DaysToCivilAndBack(days: int)
    ensures var date := CivilFromDays(days);
            && ValidDate(date.0, date.1, date.2)
            && DaysFromCivil(date.0, date.1, date.2) == days
  {
    hide *;
    var era, dayOfEra := (days + 719468) / 146097, (days + 719468) % 146097;
    var yearOfEra, dayOfYear := DayOfEraSplits(dayOfEra);
    BothConversions(era, yearOfEra, dayOfYear);
  }

  /** Every valid date converts back to itself. */
  lemma CivilToDaysAndBack(year: int, month: int, day: int)
    requires ValidDate(year, month, day)
    ensures CivilFromDays(DaysFromCivil(year, month, day)) == (year, month, day)
  {
    var marchYear := if month <= 2 then year - 1 else year;
    var m := month + if month > 2 then -3 else 9;
    assert CivilOf(marchYear, m, day) == (year, month, day);
    assert day <= MonthLength(m);
    MarchDateRoundTrip(marchYear, m, day);
  }

  lemma MarchDateRoundTrip(marchYear: int, m: int, day: int)
    requires 0 <= m < 12 && 1 <= day <= MonthLength(m)
    requires m == 11 && day == 29 ==> IsLeapYear(marchYear + 1)
    ensures var date := CivilOf(marchYear, m, day);
            CivilFromDays(DaysFromCivil(date.0, date.1, date.2)) == date
  {
    hide *;
    var dayOfYear := MonthStart(m) + day - 1;
    MonthOfDay(m, day);
    LeapInEra(marchYear);
    YearLengths(marchYear % 400);
    assert marchYear == marchYear / 400 * 400 + marchYear % 400;
    BothConversions(marchYear / 400, marchYear % 400, dayOfYear);
  }

  // ----- order -----

  predicate DateBefore(a: (int, int, int), b: (int, int, int)) {
    a.0 < b.0 || (a.0 == b.0 && (a.1 < b.1 || (a.1 == b.1 && a.2 < b.2)))
  }

  // Days to the start of a March year, counted without eras.
  function MarchYearStart(y: int): int {
    365 * y + y / 4 - y / 100 + y / 400
  }

  lemma DaysWithoutEras(year: int, month: int, day: int)
    ensures var y := if month <= 2 then year - 1 else year;
            var m := month + if month > 2 then -3 else 9;
            DaysFromCivil(year, month, day) == MarchYearStart(y) + MonthStart(m) + day - 1 - 719468
  {
    var y := if month <= 2 then year - 1 else year;
    EraIsFloor(y, 0);
    hide Truncated;
    var era, yearOfEra := y / 400, y % 400;
    assert y == 400 * era + yearOfEra;
    assert y / 4 == 100 * era + yearOfEra / 4;
    assert y / 100 == 4 * era + yearOfEra / 100;
  }

  lemma MarchYearStep(y: int)
    ensures MarchYearStart(y + 1) - MarchYearStart(y) == if IsLeapYear(y + 1) then 366 else 365
  {
    assert (y + 1) / 4 - y / 4 == if (y + 1) % 4 == 0 then 1 else 0;
    assert (y + 1) / 100 - y / 100 == if (y + 1) % 100 == 0 then 1 else 0;
    assert (y + 1) / 400 - y / 400 == if (y + 1) % 400 == 0 then 1 else 0;
    assert (y + 1) % 400 == 0 ==> (y + 1) % 100 == 0;
    assert (y + 1) % 100 == 0 ==> (y + 1) % 4 == 0;
  }

  lemma {:induction false} MarchYearsGrow(y: int, z: int)
    requires y <= z
    ensures MarchYearStart(y) + 365 * (z - y) <= MarchYearStart(z)
    decreases z - y
  {
    if y < z {
      hide MarchYearStart, IsLeapYear;
      MarchYearStep(z - 1);
      MarchYearsGrow(y, z - 1);
    }
  }

  /** Dates and day counts are in the same order. */
  lemma DaysInDateOrder(a: (int, int, int), b: (int, int, int))
    requires ValidDate(a.0, a.1, a.2) && ValidDate(b.0, b.1, b.2)
    ensures DateBefore(a, b) <==> DaysFromCivil(a.0, a.1, a.2) < DaysFromCivil(b.0, b.1, b.2)
  {
    if DateBefore(a, b) {
      EarlierDate(a, b);
    } else if a != b {
      EarlierDate(b, a);
    }
  }

  lemma EarlierDate(a: (int, int, int), b: (int, int, int))
    requires ValidDate(a.0, a.1, a.2) && ValidDate(b.0, b.1, b.2) && DateBefore(a, b)
    ensures DaysFromCivil(a.0, a.1, a.2) < DaysFromCivil(b.0, b.1, b.2)
  {
    var y, m := if a.1 <= 2 then a.0 - 1 else a.0, a.1 + if a.1 > 2 then -3 else 9;
    var z, n := if b.1 <= 2 then b.0 - 1 else b.0, b.1 + if b.1 > 2 then -3 else 9;
    MarchForm(a);
    MarchForm(b);
    hide DaysFromCivil, MarchYearStart, IsLeapYear, MonthStart, ValidDate, MonthLength;
    EarlierMarchDate(y, m, a.2, z, n, b.2);
  }

  lemma MarchForm(a: (int, int, int))
    requires ValidDate(a.0, a.1, a.2)
    ensures var y, m := if a.1 <= 2 then a.0 - 1 else a.0, a.1 + if a.1 > 2 then -3 else 9;
            && 0 <= m < 12 && 1 <= a.2 <= MonthLength(m)
            && (m == 11 && a.2 == 29 ==> IsLeapYear(y + 1))
            && DaysFromCivil(a.0, a.1, a.2) == MarchYearStart(y) + MonthStart(m) + a.2 - 1 - 719468
  {
    DaysWithoutEras(a.0, a.1, a.2);
    hide DaysFromCivil, MarchYearStart, MonthStart;
  }

  lemma EarlierMarchDate(y: int, m: int, day: int, z: int, n: int, otherDay: int)
    requires 0 <= m < 12 && 1 <= day <= MonthLength(m)
    requires 0 <= n < 12 && 1 <= otherDay <= MonthLength(n)
    requires m == 11 && day == 29 ==> IsLeapYear(y + 1)
    requires y < z || (y == z && (m < n || (m == n && day < otherDay)))
    ensures MarchYearStart(y) + MonthStart(m) + day < MarchYearStart(z) + MonthStart(n) + otherDay
  {
    MonthOfDay(m, day);
    MonthOfDay(n, otherDay);
    MarchYearStep(y);
    if y < z {
      MarchYearsGrow(y + 1, z);
    }
    hide MarchYearStart, IsLeapYear, MonthStart;
    if y == z && m < n {
      MonthsGrow(m, day, n, otherDay);
    }
  }

  lemma MonthsGrow(m: int, day: int, n: int, otherDay: int)
    requires 0 <= m < n < 12 && day <= MonthLength(m) && 1 <= otherDay
    ensures MonthStart(m) + day < MonthStart(n) + otherDay
  {
  }

  // ----- day by day -----

  // The date after a date, as a wall calendar has it.
  function NextDate(date: (int, int, int)): (int, int, int) {
    if date.2 < DaysInMonth(date.0, date.1) then (date.0, date.1, date.2 + 1)
    else if date.1 < 12 then (date.0, date.1 + 1, 1)
    else (date.0 + 1, 1, 1)
  }

  lemma NextIsNext(date: (int, int, int), between: (int, int, int))
    requires ValidDate(date.0, date.1, date.2) && ValidDate(between.0, between.1, between.2)
    ensures ValidDate(NextDate(date).0, NextDate(date).1, NextDate(date).2) && DateBefore(date, NextDate(date))
    ensures !(DateBefore(date, between) && DateBefore(between, NextDate(date)))
  {
    hide IsLeapYear;
  }

  lemma EpochIsZero()
    ensures DaysFromCivil(1970, 1, 1) == 0
  {
  }

  /**
   The day count is the count of days: it is zero at 1970-01-01, and goes up by
   one from each date to the next.
   */
  lemma DaysCountDays(date: (int, int, int))
    requires ValidDate(date.0, date.1, date.2)
    ensures DaysFromCivil(1970, 1, 1) == 0
    ensures var next := NextDate(date);
            DaysFromCivil(next.0, next.1, next.2) == DaysFromCivil(date.0, date.1, date.2) + 1
  {
    hide *;
    EpochIsZero();
    var next, tomorrow := NextDate(date), CivilFromDays(DaysFromCivil(date.0, date.1, date.2) + 1);
    DaysToCivilAndBack(DaysFromCivil(date.0, date.1, date.2) + 1);
    NextIsNext(date, tomorrow);
    DaysInDateOrder(date, tomorrow);
    DaysInDateOrder(date, next);
    DaysInDateOrder(tomorrow, next);
  }
}
