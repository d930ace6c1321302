/** Days since 1970-01-01 and the proleptic Gregorian calendar. */
module Calendar {

  datatype Date = Date(year: int, month: int, day: int)

  /** Division as the source language defines it: towards zero. */
  function TruncDiv(a: int, b: int): int
    requires b > 0
  {
    if a >= 0 then a / b else -((-a) / b)
  }

  /** The algorithm's shifted epoch, 0000-03-01. */
  const EPOCH_SHIFT := 719_468

  const MIN_I64 := -0x8000_0000_0000_0000
  const MAX_I64 := 0x7fff_ffff_ffff_ffff

  /** Day of the 400-year era; the conversion to unsigned needs it non-negative. */
  function EraOf(z: int): int {
    TruncDiv(if z >= 0 then z else z - 146_096, 146_097)
  }

  /** Year of the era, from the day of the era. */
  function EraYear(doe: nat): nat
    requires doe < 146_097
  {
    (doe - doe / 1460 + doe / 36_524 - doe / 146_096) / 365
  }

  /** The date of day `doy` of the year that starts on the first of March of year `y`. */
  function MarchDate(y: int, doy: nat): Date
    requires doy <= 365
  {
    var mp: nat := (5 * doy + 2) / 153;
    var monthStart: nat := (153 * mp + 2) / 5;
    var dayOfMonth: nat := doy - monthStart;
    var d: nat := dayOfMonth + 1;
    var m: nat := if mp < 10 then mp + 3 else mp - 9;
    Date(if m <= 2 then y + 1 else y, m, d)
  }

  /** Days of the era before its year `yoe`. */
  function EraDays(yoe: nat): nat {
    365 * yoe + yoe / 4 - yoe / 100
  }

  /** The date of day `doe` of an era. */
  function EraDate(era: int, doe: nat): Date
    requires doe < 146_097
  {
    YearOfEra(doe);
    var yoe: nat := EraYear(doe);
    var doy: nat := doe - EraDays(yoe);
    MarchDate(yoe + era * 400, doy)
  }

  /**
   The date of a day number. Every intermediate the source holds in an unsigned integer is a `nat`
   here and in the functions above, so each unsigned subtraction is proved not to underflow.
   */
  function CivilFromDays(days: int): Date {
    var z := days + EPOCH_SHIFT;
    var era := EraOf(z);
    EraIsFloor(z);
    var doe: nat := z - era * 146_097;
    EraDate(era, doe)
  }

  lemma EraIsFloor(z: int)
    ensures 0 <= z - EraOf(z) * 146_097 < 146_097
  {
  }

  /** The year-of-era formula undoes a split into centuries, leap cycles, years and days. */
  lemma YearFromParts(c: nat, q: nat, r: nat, k: nat)
    requires c < 4 && q < 25 && r < 4 && k <= 365
    requires k == 365 ==> r == 3 && (q < 24 || c == 3)
    ensures var doe := 36_524 * c + 1461 * q + 365 * r + k;
      && doe - doe / 1460 + doe / 36_524 - doe / 146_096 >= 0
      && (doe - doe / 1460 + doe / 36_524 - doe / 146_096) / 365 == 100 * c + 4 * q + r
  {
    var doe := 36_524 * c + 1461 * q + 365 * r + k;
    var rest := 24 * c + q + 365 * r + k;
    assert doe == 1460 * (25 * c + q) + rest;
    assert doe / 1460 == 25 * c + q + (if rest >= 1460 then 1 else 0);
    if doe == 146_096 {
      assert 100 * c + 4 * q + r == 399;
    } else {
      assert doe / 36_524 == c;
      assert doe / 146_096 == 0;
    }
  }

  /** Centuries, leap cycles, years and days of the era. */
  lemma EraYearParts(doe: nat) returns (c: nat, q: nat, r: nat, k: nat)
    requires doe < 146_097
    ensures c < 4 && q < 25 && r < 4 && k <= 365
    ensures k == 365 ==> r == 3 && (q < 24 || c == 3)
    ensures doe == 36_524 * c + 1461 * q + 365 * r + k
    ensures doe - doe / 1460 + doe / 36_524 - doe / 146_096 >= 0
    ensures (doe - doe / 1460 + doe / 36_524 - doe / 146_096) / 365 == 100 * c + 4 * q + r
  {
    c := if doe == 146_096 then 3 else doe / 36_524;
    var doc := doe - 36_524 * c;
    q := doc / 1461;
    var doq := doc - 1461 * q;
    r := if doq == 1460 then 3 else doq / 365;
    k := doq - 365 * r;
    YearFromParts(c, q, r, k);
  }

  /** A leap cycle ends with a leap year, unless it ends one of the first three centuries. */
  lemma LeapCycleEnd(c: nat, q: nat)
    requires c < 4 && q < 25 && (q < 24 || c == 3)
    ensures IsLeap(100 * c + 4 * q + 4)
  {
    var y := 100 * c + 4 * q + 4;
    assert y == 4 * (25 * c + q + 1);
    if q < 24 {
      assert y % 100 == 4 * q + 4;
    }
  }

  /** The year of the era is the one whose first day is the last at or before `doe`. */
  lemma YearOfEra(doe: nat)
    requires doe < 146_097
    ensures var yoe := EraYear(doe);
      yoe < 400 && EraDays(yoe) <= doe && doe - EraDays(yoe) <= 365
      && (doe - EraDays(yoe) == 365 ==> IsLeap(yoe + 1))
  {
    var c, q, r, k := EraYearParts(doe);
    var yoe := 100 * c + 4 * q + r;
    assert yoe / 4 == 25 * c + q && yoe / 100 == c;
    if k == 365 {
      LeapCycleEnd(c, q);
    }
  }

  /** Within the signed 64-bit range the shift is the only addition that can overflow. */
  lemma NoOverflow(days: int)
    requires MIN_I64 <= days <= MAX_I64 - EPOCH_SHIFT
    ensures var z := days + EPOCH_SHIFT;
      && MIN_I64 <= z <= MAX_I64
      && (z < 0 ==> MIN_I64 <= z - 146_096)
      && MIN_I64 <= EraOf(z) * 146_097 <= MAX_I64
      && MIN_I64 <= EraOf(z) * 400 <= CivilFromDays(days).year <= MAX_I64
  {
    EraIsFloor(days + EPOCH_SHIFT);
    YearOfEra(days + EPOCH_SHIFT - EraOf(days + EPOCH_SHIFT) * 146_097);
  }

  predicate IsLeap(y: int) {
    y % 4 == 0 && (y % 100 != 0 || y % 400 == 0)
  }

  function DaysInMonth(y: int, m: int): int {
    if m == 2 then (if IsLeap(y) then 29 else 28)
    else if m == 4 || m == 6 || m == 9 || m == 11 then 30
    else 31
  }

  predicate ValidDate(date: Date) {
    1 <= date.month <= 12 && 1 <= date.day <= DaysInMonth(date.year, date.month)
  }

  function NextDay(date: Date): Date {
    if date.day < DaysInMonth(date.year, date.month) then date.(day := date.day + 1)
    else if date.month < 12 then Date(date.year, date.month + 1, 1)
    else Date(date.year + 1, 1, 1)
  }

  predicate Earlier(a: Date, b: Date) {
    a.year < b.year || (a.year == b.year && (a.month < b.month || (a.month == b.month && a.day < b.day)))
  }

  /** Days from 0000-01-01 to the first of January of `y`. */
  function DaysBeforeYear(y: int): int {
    365 * y + (y + 3) / 4 - (y + 99) / 100 + (y + 399) / 400
  }

  function DaysBeforeMonth(y: int, m: nat): nat {
    if m <= 1 then 0 else DaysBeforeMonth(y, m - 1) + DaysInMonth(y, m - 1)
  }

  /** The day number of a date; 1970-01-01 is day 719528 of the calendar that starts at 0000-01-01. */
  function DaysFromCivil(date: Date): int
    requires ValidDate(date)
  {
    DaysBeforeYear(date.year) + DaysBeforeMonth(date.year, date.month) + date.day - 1 - 719_528
  }

  /** A quotient grows exactly at the multiples. */
  lemma LeapSteps(y: int)
    ensures y / 4 - (y - 1) / 4 == (if y % 4 == 0 then 1 else 0)
    ensures y / 100 - (y - 1) / 100 == (if y % 100 == 0 then 1 else 0)
    ensures y / 400 - (y - 1) / 400 == (if y % 400 == 0 then 1 else 0)
  {
  }

  lemma LeapCount(y: int)
    ensures y / 4 - (y - 1) / 4 - (y / 100 - (y - 1) / 100) + y / 400 - (y - 1) / 400 == (if IsLeap(y) then 1 else 0)
  {
    LeapSteps(y);
    Multiples(y);
  }

  lemma Multiples(y: int)
    ensures y % 100 == 0 ==> y % 4 == 0
    ensures y % 400 == 0 ==> y % 100 == 0
  {
  }

  lemma YearHasItsDays(y: int)
    ensures DaysBeforeYear(y + 1) == DaysBeforeYear(y) + DaysBeforeMonth(y, 12) + 31
  {
    MonthStarts(y);
    LeapCount(y);
    assert (y + 4) / 4 == y / 4 + 1 && (y + 3) / 4 == (y - 1) / 4 + 1;
    assert (y + 100) / 100 == y / 100 + 1 && (y + 99) / 100 == (y - 1) / 100 + 1;
    assert (y + 400) / 400 == y / 400 + 1 && (y + 399) / 400 == (y - 1) / 400 + 1;
  }

  lemma YearsGrow(a: int, b: int)
    requires a <= b
    ensures DaysBeforeYear(a) <= DaysBeforeYear(b)
  {
  }

  lemma MonthStarts(y: int)
    ensures var feb := if IsLeap(y) then 29 else 28;
      && DaysBeforeMonth(y, 1) == 0
      && DaysBeforeMonth(y, 2) == 31
      && DaysBeforeMonth(y, 3) == 31 + feb
      && DaysBeforeMonth(y, 4) == 62 + feb
      && DaysBeforeMonth(y, 5) == 92 + feb
      && DaysBeforeMonth(y, 6) == 123 + feb
      && DaysBeforeMonth(y, 7) == 153 + feb
      && DaysBeforeMonth(y, 8) == 184 + feb
      && DaysBeforeMonth(y, 9) == 215 + feb
      && DaysBeforeMonth(y, 10) == 245 + feb
      && DaysBeforeMonth(y, 11) == 276 + feb
      && DaysBeforeMonth(y, 12) == 306 + feb
  {
    assert DaysBeforeMonth(y, 3) == DaysBeforeMonth(y, 2) + DaysInMonth(y, 2);
    assert DaysBeforeMonth(y, 6) == DaysBeforeMonth(y, 5) + DaysInMonth(y, 5);
    assert DaysBeforeMonth(y, 9) == DaysBeforeMonth(y, 8) + DaysInMonth(y, 8);
  }

  lemma {:induction false} MonthsGrow(y: int, a: nat, b: nat)
    requires 1 <= a < b
    ensures DaysBeforeMonth(y, a) + DaysInMonth(y, a) <= DaysBeforeMonth(y, b)
  {
    if a + 1 < b {
      MonthsGrow(y, a, b - 1);
    }
  }

  lemma EarlierIsFewerDays(a: Date, b: Date)
    requires ValidDate(a) && ValidDate(b) && Earlier(a, b)
    ensures DaysFromCivil(a) < DaysFromCivil(b)
  {
    if a.year < b.year {
      YearsGrow(a.year + 1, b.year);
      YearHasItsDays(a.year);
      if a.month < 12 {
        MonthsGrow(a.year, a.month, 12);
      }
    } else if a.month < b.month {
      MonthsGrow(a.year, a.month, b.month);
    }
  }

  lemma NextDayCounts(date: Date)
    requires ValidDate(date)
    ensures ValidDate(NextDay(date))
    ensures DaysFromCivil(NextDay(date)) == DaysFromCivil(date) + 1
  {
    YearHasItsDays(date.year);
  }

  /** The month formula counts the months and days of a year that starts in March. */
  lemma MarchMonths(y: int, doy: nat)
    requires doy <= 365 && (doy == 365 ==> IsLeap(y + 1))
    ensures ValidDate(MarchDate(y, doy))
    ensures DaysFromCivil(MarchDate(y, doy)) == DaysFromCivil(Date(y, 3, 1)) + doy
  {
    MonthStarts(y);
    MonthStarts(y + 1);
    YearHasItsDays(y);
  }

  /** The first of March of a year given by its era and its year of the era. */
  lemma MarchOfEra(era: int, yoe: nat)
    requires yoe < 400
    ensures DaysFromCivil(Date(yoe + era * 400, 3, 1)) + EPOCH_SHIFT
         == era * 146_097 + EraDays(yoe)
    ensures IsLeap(yoe + era * 400 + 1) <==> IsLeap(yoe + 1)
  {
    var y := yoe + era * 400;
    MonthStarts(y);
    LeapCount(y);
    assert (y + 3) / 4 == (y - 1) / 4 + 1
      && (y + 99) / 100 == (y - 1) / 100 + 1 && (y + 399) / 400 == (y - 1) / 400 + 1;
    assert y / 4 == yoe / 4 + era * 100;
    assert y / 100 == yoe / 100 + era * 4;
    assert y / 400 == era;
    SameLeap(era, yoe + 1);
  }

  lemma SameLeap(era: int, y: int)
    ensures IsLeap(y + era * 400) <==> IsLeap(y)
  {
    var x := y + era * 400;
    assert x / 4 == y / 4 + era * 100;
    assert x / 100 == y / 100 + era * 4;
    assert x / 400 == y / 400 + era;
    assert x % 4 == y % 4 && x % 100 == y % 100 && x % 400 == y % 400;
  }

  lemma MarchFirst(y: int)
    ensures ValidDate(Date(y, 3, 1))
  {
  }

  /** The date computed from an era and a day of the era. */
  lemma EraDateIsExact(era: int, doe: nat)
    requires doe < 146_097
    ensures ValidDate(EraDate(era, doe))
    ensures DaysFromCivil(EraDate(era, doe)) == era * 146_097 + doe - EPOCH_SHIFT
  {
    hide EraYear, EraDays, IsLeap, ValidDate, DaysFromCivil, MarchDate;
    var yoe := EraYear(doe);
    YearOfEra(doe);
    MarchFirst(yoe + era * 400);
    MarchOfEra(era, yoe);
    MarchMonths(yoe + era * 400, doe - EraDays(yoe));
  }

  lemma CivilParts(days: int) returns (era: int, doe: nat)
    ensures doe < 146_097 && era * 146_097 + doe == days + EPOCH_SHIFT
    ensures CivilFromDays(days) == EraDate(era, doe)
  {
    era := EraOf(days + EPOCH_SHIFT);
    EraIsFloor(days + EPOCH_SHIFT);
    doe := days + EPOCH_SHIFT - era * 146_097;
  }

  /** `CivilFromDays` yields a date of the calendar, and it is the one with that day number. */
  lemma CivilIsExact(days: int)
    ensures ValidDate(CivilFromDays(days))
    ensures DaysFromCivil(CivilFromDays(days)) == days
  {
    var era, doe := CivilParts(days);
    EraDateIsExact(era, doe);
  }

  /** The other direction: every calendar date is the date of its own day number. */
  lemma CivilInverts(date: Date)
    requires ValidDate(date)
    ensures CivilFromDays(DaysFromCivil(date)) == date
  {
    var other := CivilFromDays(DaysFromCivil(date));
    CivilIsExact(DaysFromCivil(date));
    if Earlier(date, other) {
      EarlierIsFewerDays(date, other);
    } else if Earlier(other, date) {
      EarlierIsFewerDays(other, date);
    }
  }

  lemma DateSteps(days: int, date: Date)
    requires ValidDate(date) && DaysFromCivil(date) == days
    ensures CivilFromDays(days + 1) == NextDay(date)
  {
    NextDayCounts(date);
    hide DaysFromCivil, CivilFromDays, NextDay;
    CivilInverts(NextDay(date));
  }

  /** One day later is the next calendar day. */
  lemma CivilSteps(days: int)
    ensures CivilFromDays(days + 1) == NextDay(CivilFromDays(days))
  {
    CivilIsExact(days);
    hide DaysFromCivil, CivilFromDays, NextDay;
    DateSteps(days, CivilFromDays(days));
  }

  lemma CivilIsMonotone(a: int, b: int)
    requires a < b
    ensures Earlier(CivilFromDays(a), CivilFromDays(b))
  {
    CivilIsExact(a);
    CivilIsExact(b);
    if Earlier(CivilFromDays(b), CivilFromDays(a)) {
      EarlierIsFewerDays(CivilFromDays(b), CivilFromDays(a));
    }
  }
}
