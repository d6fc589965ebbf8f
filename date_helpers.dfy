/**
 * The date helpers: the week number used to group quiz attempts (`getWeekNumber`) and the
 * "MM:SS" clock string (`formatTime`).
 *
 * Dates are (year, month 1..12, day of month) in the proleptic Gregorian calendar, as a JavaScript
 * `Date` reports them through `getFullYear`, `getMonth() + 1` and `getDate`. Instants are replaced by
 * day numbers: day 0 is 1 January of year 0, which was a Saturday. Milliseconds never appear: the
 * source only ever subtracts two UTC midnights, an exact multiple of 86400000.
 */
module DateHelpers {
  import opened Wrappers
  import opened Text

  predicate IsLeapYear(y: int) {
    y % 4 == 0 && (y % 100 != 0 || y % 400 == 0)
  }

  function DaysInMonth(y: int, m: int): int
    requires 1 <= m <= 12
  {
    if m == 2 then (if IsLeapYear(y) then 29 else 28)
    else if m == 4 || m == 6 || m == 9 || m == 11 then 30
    else 31
  }

  predicate ValidDate(y: int, m: int, d: int) {
    1 <= m <= 12 && 1 <= d <= DaysInMonth(y, m)
  }

  datatype Date = Date(year: int, month: int, day: int)

  /** A date a JavaScript `Date` can report: the month and the day exist. */
  type CalendarDate = d: Date | ValidDate(d.year, d.month, d.day) witness Date(2000, 1, 1)

  /**
   * What `new Date()` gives the core: the instant in milliseconds (`Date.now()`) and the local calendar
   * date at that instant. The two are not related to each other here: time zones are not modelled.
   */
  datatype Instant = Instant(millis: int, today: CalendarDate)

  /** The day number of 1 January of year `y`. */
  function YearStart(y: int): int {
    365 * y + (y + 3) / 4 - (y + 99) / 100 + (y + 399) / 400
  }

  /** Moving `y` up by one raises `(y + 3) / 4` by one exactly when 4 divides `y`. */
  lemma NextQuarter(y: int)
    ensures (y + 4) / 4 == (y + 3) / 4 + (if y % 4 == 0 then 1 else 0)
  {
    var q, r := (y + 3) / 4, (y + 3) % 4;
    assert y + 4 == 4 * q + r + 1;
  }

  /** Likewise `(y + 99) / 100` rises exactly when 100 divides `y`. */
  lemma NextCentury(y: int)
    ensures (y + 100) / 100 == (y + 99) / 100 + (if y % 100 == 0 then 1 else 0)
  {
    var q, r := (y + 99) / 100, (y + 99) % 100;
    assert y + 100 == 100 * q + r + 1;
  }

  /** Likewise `(y + 399) / 400` rises exactly when 400 divides `y`. */
  lemma NextQuadricentury(y: int)
    ensures (y + 400) / 400 == (y + 399) / 400 + (if y % 400 == 0 then 1 else 0)
  {
    var q, r := (y + 399) / 400, (y + 399) % 400;
    assert y + 400 == 400 * q + r + 1;
  }

  /** Consecutive years are 365 days apart, or 366 after a leap year. */
  lemma YearLength(y: int)
    ensures YearStart(y + 1) - YearStart(y) == if IsLeapYear(y) then 366 else 365
  {
    assert YearStart(y + 1) - YearStart(y)
        == 365 + ((y + 4) / 4 - (y + 3) / 4) - ((y + 100) / 100 - (y + 99) / 100) + ((y + 400) / 400 - (y + 399) / 400);
    NextQuarter(y);
    NextCentury(y);
    NextQuadricentury(y);
    if y % 400 == 0 {
      QuadricenturyIsCentury(y);
    }
    if y % 100 == 0 {
      CenturyIsQuarter(y);
    }
  }

  /** A multiple of 100 is a multiple of 4. */
  lemma CenturyIsQuarter(y: int)
    requires y % 100 == 0
    ensures y % 4 == 0
  {
    var q := y / 100;
    assert y == 4 * (25 * q) + 0;
  }

  /** A multiple of 400 is a multiple of 100. */
  lemma QuadricenturyIsCentury(y: int)
    requires y % 400 == 0
    ensures y % 100 == 0
  {
    var q := y / 400;
    assert y == 100 * (4 * q) + 0;
  }

  function DaysBeforeMonth(y: int, m: int): int
    requires 1 <= m <= 12
  {
    [0, 31, 59, 90, 120, 151, 181, 212, 243, 273, 304, 334][m - 1]
      + (if IsLeapYear(y) && m > 2 then 1 else 0)
  }

  /** The month table agrees with the month lengths: each month starts where the previous one ends. */
  lemma MonthsAreContiguous(y: int, m: int)
    requires 1 <= m <= 12
    ensures m < 12 ==> DaysBeforeMonth(y, m + 1) == DaysBeforeMonth(y, m) + DaysInMonth(y, m)
    ensures m == 12 ==> DaysBeforeMonth(y, m) + DaysInMonth(y, m) == YearStart(y + 1) - YearStart(y)
  {
    YearLength(y);
  }

  /**
   * The day number of a date in the proleptic Gregorian calendar, day 0 being 1 January of year 0:
   * `Date.UTC(y, m - 1, d) / 86400000` shifted, for a year `Date.UTC` takes as given. `Date.UTC` reads
   * a year from 0 to 99 as 1900 plus that year; this function does not.
   */
  function DayNumber(y: int, m: int, d: int): (n: int)
    requires ValidDate(y, m, d)
    ensures YearStart(y) <= n < YearStart(y + 1)
  {
    YearLength(y);
    YearStart(y) + DaysBeforeMonth(y, m) + d - 1
  }

  /** `getUTCDay()`: 0 for Sunday through 6 for Saturday. */
  function UtcDay(n: int): int {
    (n + 6) % 7
  }

  /** `getUTCDay() || 7`: 1 for Monday through 7 for Sunday. */
  function IsoDay(n: int): (r: int)
    ensures 1 <= r <= 7 && r - 1 == (n + 5) % 7
  {
    var w := UtcDay(n);
    if w == 0 then 7 else w
  }

  /** `getUTCFullYear()` of day `t`, given a year `hint` that is at most one year off. */
  function UtcFullYear(t: int, hint: int): (r: int)
    requires YearStart(hint - 1) <= t < YearStart(hint + 2)
    ensures YearStart(r) <= t < YearStart(r + 1)
  {
    if t < YearStart(hint) then hint - 1 else if t >= YearStart(hint + 1) then hint + 1 else hint
  }

  /** `Math.ceil(a / b)` for a positive divisor. */
  function CeilDiv(a: int, b: int): int
    requires b > 0
  {
    -((-a) / b)
  }

  lemma CeilDivSeventh(k: int)
    requires k >= 0
    ensures CeilDiv(k + 1, 7) == k / 7 + 1
  {
    var q, r := k / 7, k % 7;
    assert -k - 1 == 7 * (-q - 1) + (6 - r);
  }

  /**
   * `getWeekNumber(date)`: move to the Thursday of the date's Monday-to-Sunday week (Sunday counting as
   * day 7), then count weeks from 1 January of that Thursday's year. The result is always in 1..53.
   * Both `Date.UTC` calls are taken at face value: years 0 to 99 are not moved to 1900 to 1999.
   */
  function GetWeekNumber(y: int, m: int, d: int): (w: int)
    requires ValidDate(y, m, d)
    ensures 1 <= w <= 53
  {
    var n := DayNumber(y, m, d);
    var thursday := n + 4 - IsoDay(n);
    YearLength(y - 1); YearLength(y); YearLength(y + 1);
    var ty := UtcFullYear(thursday, y);
    YearLength(ty);
    CeilDivSeventh(thursday - YearStart(ty));
    CeilDiv(thursday - YearStart(ty) + 1, 7)
  }

  // ---------------------------------------------------------------------------------------------
  // ISO 8601 week numbering, stated independently: week 1 of ISO year Y is the Monday-to-Sunday
  // week that contains 4 January of Y; ISO year Y runs up to the Monday of week 1 of Y + 1.

  /** The Monday of the Monday-to-Sunday week that contains day `n`. */
  function MondayOf(n: int): int {
    n - (IsoDay(n) - 1)
  }

  /** `MondayOf(n)` is a Monday, at most six days before `n`. */
  lemma MondayOfFacts(n: int)
    ensures n - 6 <= MondayOf(n) <= n
    ensures MondayOf(n) + 5 == 7 * ((n + 5) / 7)
    ensures IsoDay(MondayOf(n)) == 1
  {
    var q, r := (n + 5) / 7, (n + 5) % 7;
    assert n + 5 == 7 * q + r;
    assert MondayOf(n) + 5 == 7 * q;
    assert (MondayOf(n) + 5) % 7 == 0;
  }

  function Week1Monday(year: int): int {
    MondayOf(YearStart(year) + 3)
  }

  predicate InIsoYear(n: int, year: int) {
    Week1Monday(year) <= n < Week1Monday(year + 1)
  }

  function IsoWeek(n: int, year: int): int {
    (n - Week1Monday(year)) / 7 + 1
  }

  /** Week 1 starts on a Monday within three days of 1 January. */
  lemma Week1MondayFacts(year: int)
    ensures IsoDay(Week1Monday(year)) == 1
    ensures Week1Monday(year) + 5 == 7 * ((YearStart(year) + 8) / 7)
    ensures YearStart(year) - 3 <= Week1Monday(year) <= YearStart(year) + 3
  {
    MondayOfFacts(YearStart(year) + 3);
  }

  /** Week 1 of the next year starts 52 or 53 weeks later. */
  lemma Week1MondayStep(year: int)
    ensures Week1Monday(year) + 364 <= Week1Monday(year + 1)
  {
    YearLength(year);
    Week1MondayFacts(year);
    Week1MondayFacts(year + 1);
    var a, b := Week1Monday(year), Week1Monday(year + 1);
    var qa, qb := (YearStart(year) + 8) / 7, (YearStart(year + 1) + 8) / 7;
    WholeWeeksApart(a, b, qa, qb, 359);
  }

  /** Two Mondays at least `gap` days apart are at least the next multiple of seven apart. */
  lemma WholeWeeksApart(a: int, b: int, qa: int, qb: int, gap: int)
    requires a + 5 == 7 * qa && b + 5 == 7 * qb
    requires b - a >= gap
    ensures b - a == 7 * (qb - qa)
    ensures b - a >= 7 * ((gap + 6) / 7)
  {
  }

  /** A function that never decreases from one integer to the next never decreases at all. */
  lemma {:induction false} MonotoneBySteps(f: int -> int, a: int, b: int)
    requires forall x :: f(x) <= f(x + 1)
    requires a <= b
    ensures f(a) <= f(b)
    decreases b - a
  {
    if a < b {
      MonotoneBySteps(f, a + 1, b);
    }
  }

  lemma Week1MondayMonotone(a: int, b: int)
    requires a <= b
    ensures Week1Monday(a) <= Week1Monday(b)
    ensures a < b ==> Week1Monday(a + 1) <= Week1Monday(b)
  {
    forall x ensures Week1Monday(x) <= Week1Monday(x + 1) {
      Week1MondayStep(x);
    }
    MonotoneBySteps(Week1Monday, a, b);
    if a < b {
      MonotoneBySteps(Week1Monday, a + 1, b);
    }
  }

  /**
   * The arithmetic core of the agreement with ISO 8601, over plain integers: `monday` is the Monday of
   * day `n`, its Thursday lies in the year [j, jNext), and w, wNext are the Mondays of week 1 of that
   * year and of the next one.
   */
  lemma ThursdayArithmetic(n: int, monday: int, qm: int, j: int, jNext: int, w: int, qw: int, wNext: int, qwn: int)
    requires monday + 5 == 7 * qm && n - 6 <= monday <= n
    requires j <= monday + 3 < jNext
    requires w + 5 == 7 * qw && j - 3 <= w <= j + 3
    requires wNext + 5 == 7 * qwn && jNext - 3 <= wNext
    ensures w <= n < wNext
    ensures monday + 3 - j >= 0 && (monday + 3 - j) / 7 == (n - w) / 7
  {
    var q := qm - qw;
    assert monday - w == 7 * q;
    assert q >= 0;
    assert monday + 3 - j == 7 * q + (w + 3 - j);
    assert n - w == 7 * q + (n - monday);
  }

  /** `getWeekNumber` in terms of the Thursday `MondayOf(n) + 3` of the date's week and that Thursday's year. */
  lemma WeekNumberFormula(y: int, m: int, d: int)
    requires ValidDate(y, m, d)
    ensures var t := MondayOf(DayNumber(y, m, d)) + 3;
      YearStart(y - 1) <= t < YearStart(y + 2)
      && GetWeekNumber(y, m, d) == CeilDiv(t - YearStart(UtcFullYear(t, y)) + 1, 7)
  {
    YearLength(y - 1); YearLength(y); YearLength(y + 1);
  }

  /** The year of the Thursday of the date's week, and the week number counted from its 1 January. */
  lemma ThursdayYear(y: int, m: int, d: int) returns (ty: int)
    requires ValidDate(y, m, d)
    ensures var t := MondayOf(DayNumber(y, m, d)) + 3;
      YearStart(ty) <= t < YearStart(ty + 1)
      && GetWeekNumber(y, m, d) == CeilDiv(t - YearStart(ty) + 1, 7)
  {
    WeekNumberFormula(y, m, d);
    ty := UtcFullYear(MondayOf(DayNumber(y, m, d)) + 3, y);
  }

  /** A day whose week's Thursday falls in year `ty` lies in ISO year `ty`, in the week counted from that Thursday. */
  lemma ThursdayDecidesIsoYear(n: int, ty: int)
    requires YearStart(ty) <= MondayOf(n) + 3 < YearStart(ty + 1)
    ensures InIsoYear(n, ty)
    ensures CeilDiv(MondayOf(n) + 3 - YearStart(ty) + 1, 7) == IsoWeek(n, ty)
  {
    var monday := MondayOf(n);
    var j, jNext := YearStart(ty), YearStart(ty + 1);
    MondayOfFacts(n);
    Week1MondayFacts(ty);
    Week1MondayFacts(ty + 1);
    ThursdayArithmetic(n, monday, (n + 5) / 7, j, jNext, Week1Monday(ty), (j + 8) / 7, Week1Monday(ty + 1), (jNext + 8) / 7);
    CeilDivSeventh(monday + 3 - j);
  }

  /** The Thursday's year is the ISO year of the date, and the week counts agree. */
  lemma WeekNumberInThursdayYear(y: int, m: int, d: int) returns (ty: int)
    requires ValidDate(y, m, d)
    ensures InIsoYear(DayNumber(y, m, d), ty)
    ensures GetWeekNumber(y, m, d) == IsoWeek(DayNumber(y, m, d), ty)
  {
    ty := ThursdayYear(y, m, d);
    ThursdayDecidesIsoYear(DayNumber(y, m, d), ty);
  }

  /** `getWeekNumber` agrees with the ISO 8601 week number, whatever the date's ISO year is. */
  lemma WeekNumberIsIso(y: int, m: int, d: int, year: int)
    requires ValidDate(y, m, d)
    requires InIsoYear(DayNumber(y, m, d), year)
    ensures GetWeekNumber(y, m, d) == IsoWeek(DayNumber(y, m, d), year)
  {
    var ty := WeekNumberInThursdayYear(y, m, d);
    if year < ty {
      Week1MondayMonotone(year, ty);
    } else if ty < year {
      Week1MondayMonotone(ty, year);
    }
  }

  /** 4 January is always in week 1. */
  lemma FourthOfJanuaryIsWeekOne(y: int)
    ensures ValidDate(y, 1, 4) && GetWeekNumber(y, 1, 4) == 1
  {
    YearLength(y);
    Week1MondayFacts(y);
    Week1MondayFacts(y + 1);
    WeekNumberIsIso(y, 1, 4, y);
  }

  /** Over plain integers: a day less than a week after Monday `n1` is in the same ISO week as `n1`. */
  lemma SameWeekArithmetic(n1: int, q1: int, n2: int, w: int, qw: int, wNext: int, qwn: int)
    requires n1 + 5 == 7 * q1 && w + 5 == 7 * qw && wNext + 5 == 7 * qwn
    requires w <= n1 < wNext && 0 <= n2 - n1 < 7
    ensures w <= n2 < wNext && (n2 - w) / 7 == (n1 - w) / 7
  {
    assert n1 - w == 7 * (q1 - qw);
    assert wNext - n1 == 7 * (qwn - q1);
  }

  /** The seven days from a Monday to the following Sunday share one week number. */
  lemma SameWeekMondayToSunday(y1: int, m1: int, d1: int, y2: int, m2: int, d2: int)
    requires ValidDate(y1, m1, d1) && ValidDate(y2, m2, d2)
    requires IsoDay(DayNumber(y1, m1, d1)) == 1
    requires 0 <= DayNumber(y2, m2, d2) - DayNumber(y1, m1, d1) < 7
    ensures GetWeekNumber(y1, m1, d1) == GetWeekNumber(y2, m2, d2)
  {
    var n1, n2 := DayNumber(y1, m1, d1), DayNumber(y2, m2, d2);
    var ty := WeekNumberInThursdayYear(y1, m1, d1);
    SameIsoWeek(n1, n2, ty);
    WeekNumberIsIso(y2, m2, d2, ty);
  }

  /** The six days after a Monday lie in that Monday's ISO year and week. */
  lemma SameIsoWeek(n1: int, n2: int, ty: int)
    requires InIsoYear(n1, ty) && IsoDay(n1) == 1 && 0 <= n2 - n1 < 7
    ensures InIsoYear(n2, ty) && IsoWeek(n2, ty) == IsoWeek(n1, ty)
  {
    Week1MondayFacts(ty);
    Week1MondayFacts(ty + 1);
    assert (n1 + 5) % 7 == 0;
    SameWeekArithmetic(n1, (n1 + 5) / 7, n2, Week1Monday(ty), (YearStart(ty) + 8) / 7,
      Week1Monday(ty + 1), (YearStart(ty + 1) + 8) / 7);
  }

  /**
   * Only the number is returned, not the ISO year: a late-December date that belongs to week 1 of the
   * next ISO year gets 1, the same number as the first week of January.
   */
  lemma LateDecemberIsWeekOne(y: int, d: int)
    requires ValidDate(y, 12, d)
    requires DayNumber(y, 12, d) >= Week1Monday(y + 1)
    ensures GetWeekNumber(y, 12, d) == 1 == GetWeekNumber(y + 1, 1, 4)
  {
    YearLength(y + 1);
    Week1MondayFacts(y + 1);
    Week1MondayFacts(y + 2);
    WeekNumberIsIso(y, 12, d, y + 1);
    FourthOfJanuaryIsWeekOne(y + 1);
  }

  /** An early-January date that still belongs to the previous ISO year gets week 52 or 53. */
  lemma EarlyJanuaryInPreviousYear(y: int, d: int)
    requires ValidDate(y, 1, d)
    requires DayNumber(y, 1, d) < Week1Monday(y)
    ensures GetWeekNumber(y, 1, d) == 52 || GetWeekNumber(y, 1, d) == 53
  {
    YearLength(y - 1);
    Week1MondayFacts(y - 1);
    Week1MondayFacts(y);
    WeekNumberIsIso(y, 1, d, y - 1);
  }

  /** `getWeekNumber` applied to a calendar date. */
  function WeekOf(date: CalendarDate): (w: int)
    ensures 1 <= w <= 53
  {
    GetWeekNumber(date.year, date.month, date.day)
  }

  /** 1 January 2021 was a Friday, in ISO week 53 of 2020. */
  lemma NewYear2021IsWeek53()
    ensures GetWeekNumber(2021, 1, 1) == 53
  {
    assert YearStart(2020) == 737790 && YearStart(2021) == 738156 && YearStart(2022) == 738521;
    assert DayNumber(2021, 1, 1) == 738156 && IsoDay(738156) == 5;
    assert CeilDiv(738155 - 737790 + 1, 7) == 53;
  }

  /** 30 December 2024 was a Monday, the first day of ISO week 1 of 2025. */
  lemma LateDecember2024IsWeek1()
    ensures GetWeekNumber(2024, 12, 30) == 1
  {
    assert YearStart(2023) == 738886 && YearStart(2024) == 739251 && YearStart(2025) == 739617;
    assert YearStart(2026) == 739982;
    assert DayNumber(2024, 12, 30) == 739615 && IsoDay(739615) == 1;
  }

  /** 15 October 2026 is a Thursday in ISO week 42. */
  lemma MidOctober2026IsWeek42()
    ensures GetWeekNumber(2026, 10, 15) == 42
  {
    assert YearStart(2025) == 739617 && YearStart(2026) == 739982 && YearStart(2027) == 740347;
    assert YearStart(2028) == 740712;
    assert DayNumber(2026, 10, 15) == 740269 && IsoDay(740269) == 4;
  }

  // ---------------------------------------------------------------------------------------------
  // formatTime

  /** The JavaScript remainder `a % b` for a positive divisor: it takes the sign of `a`. */
  function JsRemainder(a: int, b: int): int
    requires b > 0
  {
    if a >= 0 then a % b else -((-a) % b)
  }

  /** `formatTime(seconds)`: minutes and seconds, each padded to two digits, joined by ':'. */
  function FormatTime(seconds: int): string {
    var minutes := seconds / 60;
    var rest := JsRemainder(seconds, 60);
    PadStart2(IntString(minutes)) + ":" + PadStart2(IntString(rest))
  }

  /** Reads an "M..M:SS" clock string back into seconds. */
  function ParseClock(s: string): Option<int> {
    if |s| >= 4 && s[|s| - 3] == ':' && AllDigits(s[..|s| - 3], 10) && AllDigits(s[|s| - 2..], 10)
    then Some(ValueOf(s[..|s| - 3], 10) * 60 + ValueOf(s[|s| - 2..], 10))
    else None
  }

  /** A zero-padded decimal still denotes its number. */
  lemma PaddedValue(n: nat)
    ensures AllDigits(PadStart2(DecimalString(n)), 10)
    ensures ValueOf(PadStart2(DecimalString(n)), 10) == n
  {
    DecimalRoundTrip(n);
    if |DecimalString(n)| == 1 {
      LeadingZero(DecimalString(n), 10);
    }
  }

  lemma ShortDecimal(r: nat)
    requires r < 100
    ensures |DecimalString(r)| <= 2
  {
    if r >= 10 {
      assert DecimalString(r) == DecimalString(r / 10) + [DigitChar(r % 10)];
    }
  }

  /** Reading "mm:ss" back, for digit strings mm of two or more and ss of exactly two characters. */
  lemma ParseClockOf(mm: string, ss: string)
    requires |mm| >= 2 && |ss| == 2 && AllDigits(mm, 10) && AllDigits(ss, 10)
    ensures var s := mm + ":" + ss;
      s[..|s| - 3] == mm && s[|s| - 2..] == ss && s[|s| - 3] == ':'
      && ParseClock(s) == Some(ValueOf(mm, 10) * 60 + ValueOf(ss, 10))
  {
    var s := mm + ":" + ss;
    assert s[..|s| - 3] == mm;
    assert s[|s| - 2..] == ss;
  }

  lemma FormatTimeParts(seconds: nat)
    ensures FormatTime(seconds) == PadStart2(DecimalString(seconds / 60)) + ":" + PadStart2(DecimalString(seconds % 60))
  {
  }

  /** For a non-negative number of seconds the seconds field is exactly two digits denoting `seconds % 60`. */
  lemma FormatTimeShape(seconds: nat)
    ensures var s := FormatTime(seconds);
      |s| >= 5 && s[|s| - 3] == ':' && AllDigits(s[|s| - 2..], 10) && ValueOf(s[|s| - 2..], 10) == seconds % 60
  {
    var mm, ss := PadStart2(DecimalString(seconds / 60)), PadStart2(DecimalString(seconds % 60));
    ShortDecimal(seconds % 60);
    PaddedValue(seconds % 60);
    PaddedValue(seconds / 60);
    ParseClockOf(mm, ss);
    FormatTimeParts(seconds);
  }

  /** The two padded fields of a non-negative number of seconds read back as that number. */
  lemma PaddedClockRoundTrip(seconds: nat)
    ensures ParseClock(PadStart2(DecimalString(seconds / 60)) + ":" + PadStart2(DecimalString(seconds % 60))) == Some(seconds)
  {
    var minutes, rest := seconds / 60, seconds % 60;
    ShortDecimal(rest);
    PaddedValue(minutes);
    PaddedValue(rest);
    ParseClockOf(PadStart2(DecimalString(minutes)), PadStart2(DecimalString(rest)));
  }

  /** For a non-negative number of seconds, reading the clock string back gives the number of seconds. */
  lemma FormatTimeRoundTrip(seconds: nat)
    ensures ParseClock(FormatTime(seconds)) == Some(seconds)
  {
    FormatTimeParts(seconds);
    PaddedClockRoundTrip(seconds);
  }
}
