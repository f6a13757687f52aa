/** The civil calendar of boards/v3/firmware/Time.cpp: `breakTime` and `makeTime`.

    The reference is `Instant`, the number of seconds from 1970-01-01 00:00:00 to a date, built
    from day counts. `BreakTime` and `MakeTime` are the two loops of the source, with its integer
    widths; both are proved against `Instant`.
 */
module Calendar {
  import opened Machine

  const SECS_PER_DAY := 86400

  datatype TimeElements = TimeElements(
    second: Byte, minute: Byte, hour: Byte, wday: Byte, day: Byte, month: Byte, year: Byte)

  // ----- reference calendar

  /** Years are offsets from 1970. */
  predicate Leap(y: nat) {
    (1970 + y) % 4 == 0 && ((1970 + y) % 100 != 0 || (1970 + y) % 400 == 0)
  }

  function YearLength(y: nat): nat {
    if Leap(y) then 366 else 365
  }

  function MonthLength(y: nat, m: nat): (n: nat)
    requires 1 <= m <= 12
    ensures 28 <= n <= 31
  {
    if m == 2 then (if Leap(y) then 29 else 28)
    else [31, 28, 31, 30, 31, 30, 31, 31, 30, 31, 30, 31][m - 1]
  }

  function DaysBeforeYear(y: nat): nat {
    if y == 0 then 0 else DaysBeforeYear(y - 1) + YearLength(y - 1)
  }

  /** Months 0 and 13 are in the domain because `makeTime` accepts them. */
  function DaysBeforeMonth(y: nat, m: nat): nat
    requires m <= 13
  {
    if m <= 1 then 0 else DaysBeforeMonth(y, m - 1) + MonthLength(y, m - 1)
  }

  function DayNumber(y: nat, m: nat, d: int): int
    requires m <= 13
  {
    DaysBeforeYear(y) + DaysBeforeMonth(y, m) + d - 1
  }

  function SecondOfDay(tm: TimeElements): nat {
    3600 * tm.hour + 60 * tm.minute + tm.second
  }

  /** Seconds since the epoch, as an unbounded integer. */
  function Instant(tm: TimeElements): int
    requires tm.month <= 13
  {
    SECS_PER_DAY * DayNumber(tm.year, tm.month, tm.day) + SecondOfDay(tm)
  }

  predicate ValidDate(tm: TimeElements) {
    && 1 <= tm.month <= 12
    && 1 <= tm.day <= MonthLength(tm.year, tm.month)
    && tm.hour < 24 && tm.minute < 60 && tm.second < 60
  }

  function DayOfWeek(t: nat): nat {
    (t / SECS_PER_DAY + 4) % 7 + 1
  }

  /** `tm` is the civil date of instant `t`. */
  predicate IsBreakdown(t: nat, tm: TimeElements) {
    ValidDate(tm) && Instant(tm) == t && tm.wday == DayOfWeek(t)
  }

  // ----- facts about day counts

  lemma {:induction false} DaysBeforeYearMonotone(a: nat, b: nat)
    requires a <= b
    ensures DaysBeforeYear(a) + 365 * (b - a) <= DaysBeforeYear(b)
  {
    if a < b {
      DaysBeforeYearMonotone(a, b - 1);
    }
  }

  lemma {:induction false} DaysBeforeMonthMonotone(y: nat, a: nat, b: nat)
    requires a <= b <= 13
    ensures DaysBeforeMonth(y, a) <= DaysBeforeMonth(y, b)
  {
    if a < b {
      DaysBeforeMonthMonotone(y, a, b - 1);
    }
  }

  /** The twelve month lengths add up to the year. */
  lemma MonthsFillYear(y: nat)
    ensures DaysBeforeMonth(y, 13) == YearLength(y)
    ensures DaysBeforeMonth(y, 12) == YearLength(y) - 31
  {
    assert DaysBeforeMonth(y, 2) == 31;
    assert DaysBeforeMonth(y, 3) == 31 + MonthLength(y, 2);
    assert DaysBeforeMonth(y, 4) == 62 + MonthLength(y, 2);
    assert DaysBeforeMonth(y, 5) == 92 + MonthLength(y, 2);
    assert DaysBeforeMonth(y, 6) == 123 + MonthLength(y, 2);
    assert DaysBeforeMonth(y, 7) == 153 + MonthLength(y, 2);
    assert DaysBeforeMonth(y, 8) == 184 + MonthLength(y, 2);
    assert DaysBeforeMonth(y, 9) == 215 + MonthLength(y, 2);
    assert DaysBeforeMonth(y, 10) == 245 + MonthLength(y, 2);
    assert DaysBeforeMonth(y, 11) == 276 + MonthLength(y, 2);
  }

  lemma DayWithinYear(tm: TimeElements)
    requires ValidDate(tm)
    ensures 0 <= DaysBeforeMonth(tm.year, tm.month) + tm.day - 1 < YearLength(tm.year)
    ensures 0 <= Instant(tm)
  {
    DaysBeforeMonthMonotone(tm.year, tm.month + 1, 13);
    MonthsFillYear(tm.year);
  }

  /** Days of the year before a month, without a table: the months alternate between 31 and 30 days with the step of
      367/12, and February is one or two days short. */
  function DayOfYear(m: nat, leap: bool): int {
    (367 * m - 362) / 12 - (if m <= 2 then 0 else if leap then 1 else 2)
  }

  /** The month table adds up to the closed formula. */
  lemma DaysBeforeMonthClosed(y: nat, m: nat)
    requires 1 <= m <= 13
    ensures DaysBeforeMonth(y, m) == DayOfYear(m, Leap(y))
  {
    hide Leap;
    MonthsFillYear(y);
    assert DaysBeforeMonth(y, 2) == 31;
    assert DaysBeforeMonth(y, 4) == 62 + MonthLength(y, 2);
    assert DaysBeforeMonth(y, 6) == 123 + MonthLength(y, 2);
    assert DaysBeforeMonth(y, 8) == 184 + MonthLength(y, 2);
    assert DaysBeforeMonth(y, 10) == 245 + MonthLength(y, 2);
  }

  /** Section 4.16 (Seconds Since the Epoch) of POSIX.1-2017 Base Definitions, with tm_year equal to
      `tm.year + 70` and tm_yday by the closed formula; month 0 counts as January. */
  function PosixSeconds(tm: TimeElements): int
    requires tm.month <= 13
  {
    var tmYear := tm.year + 70;
    var yday := DayOfYear(if tm.month == 0 then 1 else tm.month, Leap(tm.year)) + tm.day - 1;
    tm.second + tm.minute * 60 + tm.hour * 3600 + yday * 86400 + (tmYear - 70) * 31536000
    + ((tmYear - 69) / 4) * 86400 - ((tmYear - 1) / 100) * 86400 + ((tmYear + 299) / 400) * 86400
  }

  lemma Carries(n: nat)
    requires n > 0
    ensures n / 4 == (n - 1) / 4 + (if n % 4 == 0 then 1 else 0)
    ensures n / 100 == (n - 1) / 100 + (if n % 100 == 0 then 1 else 0)
    ensures n / 400 == (n - 1) / 400 + (if n % 400 == 0 then 1 else 0)
  {
  }

  lemma Fours(y: nat)
    ensures (1970 + y) % 4 == 0 <==> (y + 2) % 4 == 0
    ensures (y + 70) % 4 == (y + 2) % 4
  {
  }

  lemma Hundreds(y: nat)
    ensures (1970 + y) % 100 == 0 <==> (y + 70) % 100 == 0
    ensures (y + 370) % 100 == (y + 70) % 100
  {
  }

  lemma FourHundreds(y: nat)
    ensures (1970 + y) % 400 == 0 <==> (y + 370) % 400 == 0
  {
  }

  lemma Multiples(n: nat)
    ensures n % 400 == 0 ==> n % 100 == 0
    ensures n % 100 == 0 ==> n % 4 == 0
  {
    if n % 100 == 0 {
      assert n == 4 * (25 * (n / 100));
    }
    if n % 400 == 0 {
      assert n == 100 * (4 * (n / 400));
    }
  }

  function ClosedDays(y: nat): int {
    365 * y + (y + 1) / 4 - (y + 69) / 100 + (y + 369) / 400
  }

  lemma ClosedDaysStep(y: nat)
    ensures ClosedDays(y + 1) == ClosedDays(y) + YearLength(y)
  {
    Fours(y);
    Hundreds(y);
    FourHundreds(y);
    Multiples(y + 70);
    Multiples(y + 370);
    Carries(y + 2);
    Carries(y + 70);
    Carries(y + 370);
  }

  lemma {:induction false} DaysBeforeYearClosed(y: nat)
    ensures DaysBeforeYear(y) == ClosedDays(y)
  {
    if y > 0 {
      DaysBeforeYearClosed(y - 1);
      ClosedDaysStep(y - 1);
    }
  }

  lemma InstantIsPosix(tm: TimeElements)
    requires tm.month <= 13
    ensures Instant(tm) == PosixSeconds(tm)
  {
    DaysBeforeYearClosed(tm.year);
    DaysBeforeMonthClosed(tm.year, if tm.month == 0 then 1 else tm.month);
  }

  /** The epoch is a Thursday, the fifth day of a week that begins on Sunday; the weekday is the same all day, and the
      next day's is the next. */
  lemma WeekdaysFollow(day: nat, second: nat)
    requires second < 86400
    ensures DayOfWeek(0) == 5
    ensures 1 <= DayOfWeek(86400 * day) <= 7
    ensures DayOfWeek(86400 * day + second) == DayOfWeek(86400 * day)
    ensures DayOfWeek(86400 * (day + 1)) == if DayOfWeek(86400 * day) == 7 then 1 else DayOfWeek(86400 * day) + 1
  {
    assert (86400 * day + second) / 86400 == day;
    assert 86400 * (day + 1) / 86400 == day + 1;
  }

  // ----- order and uniqueness

  predicate Earlier(a: TimeElements, b: TimeElements) {
    || a.year < b.year
    || (a.year == b.year
        && (|| a.month < b.month
            || (a.month == b.month
                && (|| a.day < b.day
                    || (a.day == b.day
                        && (|| a.hour < b.hour
                            || (a.hour == b.hour
                                && (a.minute < b.minute || (a.minute == b.minute && a.second < b.second)))))))))
  }

  lemma EarlierIsLess(a: TimeElements, b: TimeElements)
    requires ValidDate(a) && ValidDate(b) && Earlier(a, b)
    ensures Instant(a) < Instant(b)
  {
    var da, db := DayNumber(a.year, a.month, a.day), DayNumber(b.year, b.month, b.day);
    DayWithinYear(a);
    DayWithinYear(b);
    if a.year < b.year {
      DaysBeforeYearMonotone(a.year + 1, b.year);
      assert da < db;
    } else if a.month < b.month {
      DaysBeforeMonthMonotone(a.year, a.month + 1, b.month);
      assert da < db;
    }
  }

  /** `Instant` is strictly increasing in the lexicographic order of the six fields, both ways. */
  lemma InstantOrder(a: TimeElements, b: TimeElements)
    requires ValidDate(a) && ValidDate(b)
    ensures Instant(a) < Instant(b) <==> Earlier(a, b)
  {
    if Earlier(a, b) {
      EarlierIsLess(a, b);
    } else if Earlier(b, a) {
      EarlierIsLess(b, a);
    }
  }

  lemma BreakdownUnique(t: nat, a: TimeElements, b: TimeElements)
    requires IsBreakdown(t, a) && IsBreakdown(t, b)
    ensures a == b
  {
    InstantOrder(a, b);
    InstantOrder(b, a);
  }

  // ----- every 32-bit instant has a civil date

  function YearOfDay(d: nat): (y: nat)
    ensures DaysBeforeYear(y) <= d < DaysBeforeYear(y + 1)
  {
    if d == 0 then 0
    else
      var y := YearOfDay(d - 1);
      if d < DaysBeforeYear(y + 1) then y else y + 1
  }

  /** The last month, no later than `m`, that starts on or before day `r` of the year. */
  function MonthOfDay(y: nat, r: nat, m: nat): (k: nat)
    requires 1 <= m <= 12 && r < DaysBeforeMonth(y, m + 1)
    ensures 1 <= k <= m && DaysBeforeMonth(y, k) <= r < DaysBeforeMonth(y, k + 1)
  {
    if DaysBeforeMonth(y, m) <= r then m else MonthOfDay(y, r, m - 1)
  }

  lemma YearFitsByte(d: nat, y: nat)
    requires d <= 49710 && DaysBeforeYear(y) <= d
    ensures y <= 136
    ensures DaysBeforeYear(y + 1) <= 50076
  {
    DaysBeforeYearMonotone(0, y);
  }

  /** Dividing by 60, 60 and 24 in turn splits an instant into its day and its time of day. */
  lemma SplitSeconds(t: nat)
    ensures t / 60 / 60 / 24 == t / SECS_PER_DAY
    ensures t == SECS_PER_DAY * (t / 60 / 60 / 24) + 3600 * (t / 60 / 60 % 24) + 60 * (t / 60 % 60) + t % 60
  {
    var minutes := t / 60;
    var hours := minutes / 60;
    var days := hours / 24;
    assert t == 60 * minutes + t % 60;
    assert minutes == 60 * hours + minutes % 60;
    assert hours == 24 * days + hours % 24;
  }

  /** Year, month and day of the month of a day number. */
  function DateOfDay(d: nat): (date: (nat, nat, nat))
    requires d <= 49710
    ensures date.0 <= 136 && 1 <= date.1 <= 12 && 1 <= date.2 <= MonthLength(date.0, date.1)
    ensures DayNumber(date.0, date.1, date.2) == d
  {
    var y := YearOfDay(d);
    YearFitsByte(d, y);
    MonthsFillYear(y);
    var r := d - DaysBeforeYear(y);
    var m := MonthOfDay(y, r, 12);
    (y, m, r - DaysBeforeMonth(y, m) + 1)
  }

  function Breakdown(t: Word): (tm: TimeElements)
    ensures IsBreakdown(t, tm)
    ensures tm.year <= 136
  {
    SplitSeconds(t);
    var d := t / 60 / 60 / 24;
    assert d <= 49710;
    var date := DateOfDay(d);
    TimeElements(t % 60, t / 60 % 60, t / 60 / 60 % 24, DayOfWeek(t), date.2, date.1, date.0)
  }

  /** The other direction: a valid date whose instant fits 32 bits is recovered from that instant. */
  lemma BreakdownOfInstant(tm: TimeElements)
    requires ValidDate(tm) && Instant(tm) < WORD32
    ensures 0 <= Instant(tm)
    ensures tm.wday == DayOfWeek(Instant(tm)) ==> Breakdown(Instant(tm)) == tm
    ensures Breakdown(Instant(tm)).(wday := tm.wday) == tm
  {
    DayWithinYear(tm);
    var t: Word := Instant(tm);
    BreakdownUnique(t, tm.(wday := DayOfWeek(t)), Breakdown(t));
  }

  // ----- the loops of the source

  /** C's cast to `unsigned`, 16 bits wide on AVR and 32 bits on ARM. */
  function Unsigned(x: Word, avr: bool): Word {
    if avr then x % WORD16 else x
  }

  /** `breakTime`. The year is 8 bits wide and the counts of days 32: each assignment to a `Byte`
      or a `Word` carries the obligation that it does not overflow. */
  method BreakTime(t: Word, avr: bool) returns (tm: TimeElements)
    ensures IsBreakdown(t, tm)
  {
    SplitSeconds(t);
    var time: Word := t;
    var second := time % 60;
    time := time / 60;
    var minute := time % 60;
    time := time / 60;
    var hour := time % 24;
    time := time / 24;
    assert time <= 49710;
    var wday := (time + 4) % 7 + 1;
    var year, dayOfYear := SplitYear(time, avr);
    var month, day := SplitMonth(year, dayOfYear);
    tm := TimeElements(second, minute, hour, wday, day, month, year);
  }

  /** The year loop of `breakTime`; its test also advances the day count. */
  method SplitYear(d: Word, avr: bool) returns (year: Byte, dayOfYear: Word)
    requires d <= 49710
    ensures d == DaysBeforeYear(year) + dayOfYear
    ensures dayOfYear < YearLength(year)
  {
    hide Leap;
    year := 0;
    var days: Word := 0;
    days := days + YearLength(year);
    while Unsigned(days, avr) <= d
      invariant days == DaysBeforeYear(year + 1)
      invariant DaysBeforeYear(year) <= d
      invariant days <= 50076
      decreases 60000 - days
    {
      YearFitsByte(d, year + 1);
      year := year + 1;
      days := days + YearLength(year);
    }
    assert Unsigned(days, avr) == days;
    days := days - YearLength(year);
    dayOfYear := d - days;
  }

  /** The month loop of `breakTime`; it always leaves by its `break`. */
  method SplitMonth(year: Byte, dayOfYear: Word) returns (month: Byte, day: Byte)
    requires dayOfYear < YearLength(year)
    ensures 1 <= month <= 12 && 1 <= day <= MonthLength(year, month)
    ensures dayOfYear == DaysBeforeMonth(year, month) + day - 1
  {
    MonthsFillYear(year);
    var time := dayOfYear;
    month := 0;
    ghost var broke := false;
    while month < 12
      invariant 0 <= month <= 12
      invariant 0 <= time && DaysBeforeMonth(year, month + 1) + time == dayOfYear
    {
      var monthLength := MonthLength(year, month + 1);
      if time >= monthLength {
        time := time - monthLength;
      } else {
        broke := true;
        break;
      }
      month := month + 1;
    }
    assert broke;
    month, day := month + 1, time + 1;
  }

  lemma WordUnchanged(x: Word)
    ensures x % WORD32 == x
  {
  }

  lemma AddWraps(a: int, b: int)
    ensures (a % WORD32 + b) % WORD32 == (a + b) % WORD32
  {
  }

  /** Adding to a 32-bit accumulator whose true, unbounded value is `total`. */
  method Accumulate(acc: Word, ghost total: int, b: int) returns (r: Word)
    requires acc == total % WORD32
    ensures r == (total + b) % WORD32
  {
    AddWraps(total, b);
    r := (acc + b) % WORD32;
  }

  /** `makeTime`. Months above 13 would index past the month table, so they are excluded; every other
      tuple of bytes is accepted, and the 32-bit accumulator wraps. */
  method MakeTime(tm: TimeElements) returns (t: Word)
    requires tm.month <= 13
    ensures t == Instant(tm) % WORD32
  {
    ghost var days := DaysBeforeYear(tm.year) + DaysBeforeMonth(tm.year, tm.month) + tm.day - 1;
    var seconds := AddYears(tm.year);
    seconds := AddMonths(seconds, SECS_PER_DAY * DaysBeforeYear(tm.year), tm.year, tm.month);
    seconds := Accumulate(seconds, SECS_PER_DAY * (days - tm.day + 1), (tm.day - 1) * SECS_PER_DAY);
    seconds := Accumulate(seconds, SECS_PER_DAY * days, tm.hour * 3600);
    seconds := Accumulate(seconds, SECS_PER_DAY * days + tm.hour * 3600, tm.minute * 60);
    t := Accumulate(seconds, SECS_PER_DAY * days + tm.hour * 3600 + tm.minute * 60, tm.second);
  }

  /** The year loop of `makeTime`: 365 days a year, plus a day for each leap year. */
  method AddYears(year: Byte) returns (seconds: Word)
    ensures seconds == SECS_PER_DAY * DaysBeforeYear(year) % WORD32
  {
    seconds := year * (SECS_PER_DAY * 365) % WORD32;
    var i := 0;
    while i < year
      invariant 0 <= i <= year
      invariant seconds == SECS_PER_DAY * (365 * (year - i) + DaysBeforeYear(i)) % WORD32
    {
      if Leap(i) {
        seconds := Accumulate(seconds, SECS_PER_DAY * (365 * (year - i) + DaysBeforeYear(i)), SECS_PER_DAY);
      }
      i := i + 1;
    }
  }

  /** The month loop of `makeTime`. */
  method AddMonths(start: Word, ghost total: int, year: Byte, month: Byte) returns (seconds: Word)
    requires month <= 13
    requires start == total % WORD32
    ensures seconds == (total + SECS_PER_DAY * DaysBeforeMonth(year, month)) % WORD32
  {
    seconds := start;
    var i := 1;
    while i < month
      invariant 1 <= i && (i <= month || i == 1)
      invariant seconds == (total + SECS_PER_DAY * DaysBeforeMonth(year, i)) % WORD32
    {
      var length := if i == 2 && Leap(year) then 29
                    else [31, 28, 31, 30, 31, 30, 31, 31, 30, 31, 30, 31][i - 1];
      seconds := Accumulate(seconds, total + SECS_PER_DAY * DaysBeforeMonth(year, i), SECS_PER_DAY * length);
      i := i + 1;
    }
  }

  /** `makeTime(breakTime(t)) == t` for every 32-bit `t`, on either integer width. */
  method BreakThenMake(t: Word, avr: bool) returns (r: Word)
    ensures r == t
  {
    var tm := BreakTime(t, avr);
    r := MakeTime(tm);
    WordUnchanged(t);
  }

  /** `breakTime(makeTime(tm))` gives back the six date fields of every valid date that fits 32 bits. */
  method MakeThenBreak(tm: TimeElements, avr: bool) returns (r: TimeElements)
    requires ValidDate(tm) && Instant(tm) < WORD32
    ensures r.(wday := tm.wday) == tm
  {
    var t := MakeTime(tm);
    DayWithinYear(tm);
    WordUnchanged(Instant(tm));
    r := BreakTime(t, avr);
    BreakdownUnique(t, r, tm.(wday := DayOfWeek(t)));
  }

  /** `makeTime` puts valid dates that fit 32 bits in their order: of two results the smaller is the earlier date's, and
      equal results mean equal dates. */
  method MakeTimeInOrder(a: TimeElements, b: TimeElements) returns (s: Word, t: Word)
    requires ValidDate(a) && ValidDate(b) && Instant(a) < WORD32 && Instant(b) < WORD32
    ensures s < t <==> Earlier(a, b)
    ensures s == t <==> a.(wday := b.wday) == b
  {
    s := MakeTime(a);
    t := MakeTime(b);
    DayWithinYear(a);
    DayWithinYear(b);
    WordUnchanged(Instant(a));
    WordUnchanged(Instant(b));
    InstantOrder(a, b);
    InstantOrder(b, a);
  }
}
