/** The MCP79412 real-time clock driver of boards/v3/firmware/MCP79412RTC.cpp and the date commands of
    boards/v3/firmware/Wagman.cpp, over the chip's register file.

    Registers 0..6 hold the time in BCD; some of their bits belong to the hardware: OSCON and VBAT in
    the weekday register, the leap-year bit in the month register.
 */
module Rtc {
  import opened Machine
  import opened Calendar

  // ----- bytes and bits; a bit is named by its weight

  const ST := 128
  const HR1224 := 64
  const OSCON := 32
  const VBAT := 16
  const VBATEN := 8
  const LP := 32

  const DAY_REG := 0x03
  const YEAR_REG := 0x06
  const PWRDWN_TS_REG := 0x18
  const REGISTERS := 0x20

  predicate Weight(w: int) {
    w == 8 || w == 16 || w == 32 || w == 64 || w == 128
  }

  predicate HasBit(x: Byte, w: int)
    requires Weight(w)
  {
    if w == 8 then x / 8 % 2 == 1
    else if w == 16 then x / 16 % 2 == 1
    else if w == 32 then x / 32 % 2 == 1
    else if w == 64 then x / 64 % 2 == 1
    else x / 128 % 2 == 1
  }

  function Clear(x: Byte, w: int): Byte
    requires Weight(w)
  {
    if HasBit(x, w) then x - w else x
  }

  function With(x: Byte, w: int, on: bool): Byte
    requires Weight(w)
  {
    if on then (if HasBit(x, w) then x else x + w) else Clear(x, w)
  }

  function DecToBcd(n: Byte): Byte {
    (n + 6 * (n / 10)) % 256
  }

  function BcdToDec(n: Byte): Byte {
    (n - 6 * (n / 16)) % 256
  }

  lemma BcdDigits(n: Byte)
    requires n < 160
    ensures DecToBcd(n) == 16 * (n / 10) + n % 10
  {
  }

  /** The byte codec is faithful exactly below 160, where the encoding still fits eight bits. */
  lemma BcdRoundTrip(n: Byte)
    ensures BcdToDec(DecToBcd(n)) == n <==> n < 160
    ensures n >= 160 ==> BcdToDec(DecToBcd(n)) == n - 160
  {
    var q, r := n / 10, n % 10;
    assert n == 10 * q + r;
    if n < 160 {
      BcdDigits(n);
      assert (16 * q + r) / 16 == q;
    } else {
      assert DecToBcd(n) == 16 * (q - 16) + r;
      assert (16 * (q - 16) + r) / 16 == q - 16;
    }
  }

  /** Setting a clear bit and masking it off again. */
  lemma MaskOff(x: Byte, w: int, on: bool)
    requires Weight(w) && x < w
    ensures !HasBit(x, w) && Clear(x, w) == x && Clear(With(x, w, on), w) == x
    ensures With(x, w, true) == x + w
  {
    assert !HasBit(x, w);
    assert HasBit(x + w, w);
  }

  // ----- the register image of a time

  /** What `write` leaves in registers 0..6. */
  function Encode(tm: TimeElements): (regs: seq<Byte>)
    ensures |regs| == 7
  {
    [With(DecToBcd(tm.second), ST, true), DecToBcd(tm.minute), DecToBcd(tm.hour),
     With(tm.wday, VBATEN, true), DecToBcd(tm.day), DecToBcd(tm.month), DecToBcd((tm.year - 30) % 256)]
  }

  /** Two decimal digits, one in each half of a byte. */
  function TwoDigits(n: Byte): (x: Byte)
    requires n < 100
    ensures n < 13 ==> x < 32
  {
    16 * (n / 10) + n % 10
  }

  predicate Digits(x: int, n: int) {
    0 <= n < 100 && x == TwoDigits(n)
  }

  /** What the chip shows when it runs: seconds with the oscillator bit, minutes, hours on a 24-hour dial, the weekday
      with the battery bit, day, month and year of the century, in this order. */
  predicate Shows(regs: seq<Byte>, year: int, month: int, day: int, wday: int, hour: int, minute: int, second: int)
    requires |regs| >= 7
  {
    && Digits(regs[0] as int - 128, second) && Digits(regs[1], minute) && Digits(regs[2], hour)
    && regs[3] == 8 + wday
    && Digits(regs[4], day) && Digits(regs[5], month) && Digits(regs[6], year - 2000)
  }

  /** Dates of the century are written as the chip shows them; both control bits are set. */
  lemma EncodeShows(tm: TimeElements)
    requires ValidDate(tm) && tm.wday < 8 && 30 <= tm.year <= 129
    ensures Shows(Encode(tm), 1970 + tm.year, tm.month, tm.day, tm.wday, tm.hour, tm.minute, tm.second)
  {
    hide With, DecToBcd, Digits, MonthLength;
    SecondsRegister(tm.second);
    BcdShows(tm.minute);
    BcdShows(tm.hour);
    BcdShows(tm.day);
    BcdShows(tm.month);
    BcdShows(tm.year - 30);
    MaskOff(tm.wday, VBATEN, true);
  }

  lemma BcdShows(n: Byte)
    requires n < 100
    ensures Digits(DecToBcd(n), n)
  {
    BcdDigits(n);
  }

  lemma SecondsRegister(second: Byte)
    requires second < 60
    ensures Digits(With(DecToBcd(second), ST, true) as int - 128, second)
  {
    hide HasBit, With, DecToBcd;
    BcdDigits(second);
    MaskOff(DecToBcd(second), ST, true);
  }

  /** The chip runs, on battery too, from every date on. */
  lemma EncodeStarts(tm: TimeElements)
    ensures HasBit(Encode(tm)[0], ST) && HasBit(Encode(tm)[3], VBATEN)
  {
    hide DecToBcd;
    WithSets(DecToBcd(tm.second), ST);
    WithSets(tm.wday, VBATEN);
  }

  lemma WithSets(x: Byte, w: int)
    requires w == ST || w == VBATEN
    ensures HasBit(With(x, w, true), w)
  {
    if !HasBit(x, w) {
      assert x + w < 256;
    }
  }

  /** What `read` makes of registers 0..6. */
  function Decode(regs: seq<Byte>): TimeElements
    requires |regs| >= 7
  {
    TimeElements(BcdToDec(Clear(regs[0], ST)), BcdToDec(regs[1]), BcdToDec(Clear(regs[2], HR1224)),
                 Clear(Clear(Clear(regs[3], OSCON), VBAT), VBATEN), BcdToDec(regs[4]),
                 BcdToDec(Clear(regs[5], LP)), (BcdToDec(regs[6]) + 30) % 256)
  }

  /** The chip drives its own status bits. */
  function HardwareBits(regs: seq<Byte>, oscon: bool, vbat: bool, leap: bool): (r: seq<Byte>)
    requires |regs| >= 7
    ensures |r| == |regs|
  {
    regs[3 := With(With(regs[3], OSCON, oscon), VBAT, vbat)][5 := With(regs[5], LP, leap)]
  }

  lemma WeekdaySurvives(d: Byte, oscon: bool, vbat: bool)
    requires d < 8
    ensures Clear(Clear(Clear(With(With(With(d, VBATEN, true), OSCON, oscon), VBAT, vbat), OSCON), VBAT), VBATEN) == d
  {
    var a := d + 8;
    assert With(d, VBATEN, true) == a;
    var b := if oscon then a + 32 else a;
    assert With(a, OSCON, oscon) == b;
    var c := if vbat then b + 16 else b;
    assert With(b, VBAT, vbat) == c;
    assert Clear(c, OSCON) == if vbat then a + 16 else a;
    assert Clear(Clear(c, OSCON), VBAT) == a;
  }

  /** A BCD field survives a flag bit above it. */
  lemma FieldSurvives(n: Byte, w: int, on: bool)
    requires Weight(w) && n < 160 && 16 * (n / 10) + 15 < w
    ensures BcdToDec(Clear(With(DecToBcd(n), w, on), w)) == n && BcdToDec(Clear(DecToBcd(n), w)) == n
  {
    hide HasBit, With, Clear;
    BcdDigits(n);
    MaskOff(DecToBcd(n), w, on);
    BcdRoundTrip(n);
  }

  /** Reading back a written date, whatever the hardware does with its bits. Years before 2000 come
      back 96 years late: the 8-bit subtraction wraps and the codec loses 160. */
  lemma DecodeEncode(tm: TimeElements, oscon: bool, vbat: bool, leap: bool)
    requires ValidDate(tm) && tm.wday < 8 && tm.year <= 136
    ensures Decode(HardwareBits(Encode(tm), oscon, vbat, leap))
        == tm.(year := if tm.year >= 30 then tm.year else tm.year + 96)
  {
    hide HasBit, With, Clear, BcdToDec, DecToBcd;
    FieldSurvives(tm.second, ST, true);
    BcdRoundTrip(tm.minute);
    FieldSurvives(tm.hour, HR1224, true);
    WeekdaySurvives(tm.wday, oscon, vbat);
    BcdRoundTrip(tm.day);
    FieldSurvives(tm.month, LP, leap);
    BcdRoundTrip((tm.year - 30) % 256);
  }

  /** The date 96 years later is valid, still fits 32 bits and is a different instant. */
  lemma LaterByNinetySixYears(tm: TimeElements)
    requires ValidDate(tm) && tm.year < 30
    ensures ValidDate(tm.(year := tm.year + 96))
    ensures Instant(tm) < Instant(tm.(year := tm.year + 96)) < WORD32
  {
    var late := tm.(year := tm.year + 96);
    Fours(tm.year);
    Fours(late.year);
    assert Leap(tm.year) ==> Leap(late.year);
    EarlierIsLess(tm, late);
    DayWithinYear(late);
    DaysBeforeYearClosed(late.year);
  }

  /** RTC round trip, exactly: `get` after `set(t)` returns `t` if and only if `t` is not before 2000. */
  lemma SetGetExact(t: Word, oscon: bool, vbat: bool, leap: bool)
    ensures var back := Decode(HardwareBits(Encode(Breakdown(t)), oscon, vbat, leap));
            && 1 <= back.month <= 12
            && (Instant(back) % WORD32 == t <==> t >= 946684800)
            && (t >= 946684800 ==> back == Breakdown(t))
  {
    var tm := Breakdown(t);
    DecodeEncode(tm, oscon, vbat, leap);
    WordUnchanged(t);
    StartOf2000(tm);
    if tm.year < 30 {
      LaterByNinetySixYears(tm);
      WordUnchanged(Instant(tm.(year := tm.year + 96)));
    }
  }

  lemma StartOfYear(tm: TimeElements)
    requires tm.month == 1 && tm.day == 1 && SecondOfDay(tm) == 0
    ensures ValidDate(tm) && Instant(tm) == SECS_PER_DAY * ClosedDays(tm.year)
  {
    hide DaysBeforeYear;
    DaysBeforeYearClosed(tm.year);
  }

  lemma DaysTo2000(y: nat)
    requires y == 30
    ensures ClosedDays(y) == 10957
  {
  }

  lemma ComparedTo2000(tm: TimeElements, y2k: TimeElements)
    requires ValidDate(tm)
    requires y2k.year == 30 && y2k.month == 1 && y2k.day == 1 && SecondOfDay(y2k) == 0
    ensures Instant(tm) >= 946684800 <==> tm.year >= 30
  {
    hide Instant, MonthLength, ClosedDays;
    StartOfYear(y2k);
    DaysTo2000(y2k.year);
    InstantOrder(tm, y2k);
  }

  lemma StartOf2000(tm: TimeElements)
    requires ValidDate(tm)
    ensures Instant(tm) >= 946684800 <==> tm.year >= 30
  {
    hide Instant, ValidDate;
    ComparedTo2000(tm, TimeElements(0, 0, 0, 0, 1, 1, 30));
  }

  lemma ComparedTo2100(tm: TimeElements, next: TimeElements)
    requires ValidDate(tm)
    requires next.year == 130 && next.month == 1 && next.day == 1 && SecondOfDay(next) == 0
    ensures Instant(tm) < 4102444800 <==> tm.year <= 129
  {
    hide Instant, MonthLength, ClosedDays, Earlier;
    StartOfYear(next);
    DaysTo2100(next.year);
    InstantOrder(tm, next);
    EarlierThanYear(tm, next);
  }

  lemma EndOf2099(tm: TimeElements)
    requires ValidDate(tm)
    ensures Instant(tm) < 4102444800 <==> tm.year <= 129
  {
    hide Instant, ValidDate;
    ComparedTo2100(tm, TimeElements(0, 0, 0, 0, 1, 1, 130));
  }

  lemma EarlierThanYear(tm: TimeElements, next: TimeElements)
    requires ValidDate(tm) && next.month == 1 && next.day == 1 && SecondOfDay(next) == 0
    ensures Earlier(tm, next) <==> tm.year < next.year
  {
    hide MonthLength;
  }

  lemma DaysTo2100(y: nat)
    requires y == 130
    ensures ClosedDays(y) == 47482
  {
  }

  // ----- outage reconstruction

  /** A power-fail time stamp: minute, hour, day and month, but no year. */
  datatype Stamp = Stamp(minute: Byte, hour: Byte, day: Byte, month: Byte)

  predicate InRange(s: Stamp) {
    s.minute < 60 && s.hour < 24 && 1 <= s.day <= 31 && 1 <= s.month <= 12
  }

  function StampIn(s: Stamp, year: Byte): TimeElements {
    TimeElements(0, s.minute, s.hour, 0, s.day, s.month, year)
  }

  function ReadStamp(regs: seq<Byte>, at: nat): Stamp
    requires at + 4 <= |regs|
  {
    Stamp(BcdToDec(regs[at]), BcdToDec(Clear(regs[at + 1], HR1224)), BcdToDec(regs[at + 2]),
          BcdToDec(regs[at + 3] % 32))
  }

  /** How the chip stores a stamp: BCD fields, with the day of the week above the month. */
  function StampImage(s: Stamp, weekday: Byte): seq<Byte>
    requires InRange(s) && weekday < 8
  {
    [TwoDigits(s.minute), TwoDigits(s.hour), TwoDigits(s.day), 32 * weekday + TwoDigits(s.month)]
  }

  lemma LowBits(weekday: Byte, month: Byte)
    requires month < 32
    ensures (32 * weekday + month) % 32 == month
  {
  }

  lemma StampRoundTrip(s: Stamp, weekday: Byte)
    requires InRange(s) && weekday < 8
    ensures ReadStamp(StampImage(s, weekday), 0) == s
  {
    hide HasBit, With, Clear, BcdToDec, DecToBcd, TwoDigits;
    BcdRoundTrip(s.minute);
    FieldSurvives(s.hour, HR1224, true);
    BcdRoundTrip(s.day);
    BcdRoundTrip(s.month);
    BcdShows(s.minute);
    BcdShows(s.hour);
    BcdShows(s.day);
    BcdShows(s.month);
    LowBits(weekday, TwoDigits(s.month));
  }

  /** Seconds of a stamp placed in a year, before any wrap. */
  function StampInstant(s: Stamp, year: Byte): int
    requires s.month <= 13
  {
    Instant(StampIn(s, year))
  }

  /** Even 31 February lies within the year. */
  lemma StampDay(s: Stamp, year: Byte)
    requires InRange(s)
    ensures 0 <= DaysBeforeMonth(year, s.month) + s.day - 1 < YearLength(year)
  {
    hide Leap;
    MonthsFillYear(year);
    DaysBeforeMonthMonotone(year, s.month, 12);
  }

  lemma DaysUpTo2100(year: Byte)
    requires year <= 129
    ensures DaysBeforeYear(year + 1) == DaysBeforeYear(year) + YearLength(year) <= 47482
  {
    hide Leap;
    DaysBeforeYearMonotone(year + 1, 130);
    DaysBeforeYearClosed(130);
  }

  lemma StampWithinYear(s: Stamp, year: Byte)
    requires InRange(s) && year <= 129
    ensures SECS_PER_DAY * DaysBeforeYear(year) <= StampInstant(s, year)
        < SECS_PER_DAY * DaysBeforeYear(year + 1) <= 4102444800
  {
    hide YearLength, DaysBeforeYear, DaysBeforeMonth;
    StampDay(s, year);
    DaysUpTo2100(year);
  }

  /** Months of a leap year start at most one day later than those of a common year. */
  lemma {:induction false} MonthShift(a: nat, b: nat, m: nat)
    requires m <= 12
    ensures DaysBeforeMonth(b, m) - DaysBeforeMonth(a, m)
        == if m <= 2 then 0 else YearLength(b) - YearLength(a)
  {
    if m >= 2 {
      MonthShift(a, b, m - 1);
    }
  }

  /** Moving a stamp to the previous year moves it by 365 or 366 days. */
  lemma PreviousYear(s: Stamp, year: Byte)
    requires InRange(s) && year >= 1
    ensures 365 * SECS_PER_DAY <= StampInstant(s, year) - StampInstant(s, year - 1) <= 366 * SECS_PER_DAY
  {
    MonthShift(year - 1, year, s.month);
  }

  /** The reconstructed power-down time. */
  function GuessDown(dn: Stamp, up: Stamp, year: Byte): int
    requires dn.month <= 13 && up.month <= 13 && year >= 1
  {
    if StampInstant(dn, year) > StampInstant(up, year) then StampInstant(dn, year - 1) else StampInstant(dn, year)
  }

  /** The reported outage is not negative and shorter than 366 days, over the year roll-over and on
      29 February too. */
  lemma OutageSane(dn: Stamp, up: Stamp, year: Byte)
    requires InRange(dn) && InRange(up) && 30 <= year <= 129
    ensures 0 <= GuessDown(dn, up, year) <= StampInstant(up, year) < WORD32
    ensures StampInstant(up, year) - GuessDown(dn, up, year) < 366 * SECS_PER_DAY
  {
    hide StampInstant, InRange, Leap;
    StampWithinYear(dn, year);
    StampWithinYear(up, year);
    StampWithinYear(dn, year - 1);
    PreviousYear(dn, year);
  }

  function StampOf(tm: TimeElements): Stamp {
    Stamp(tm.minute, tm.hour, tm.day, tm.month)
  }

  /** The guess is the truth exactly when the outage began in the year it ended, or in the year before
      at a date and time of year later than those of its end. */
  lemma OutageExact(down: TimeElements, up: TimeElements)
    requires ValidDate(down) && ValidDate(up) && 30 <= up.year <= 129
    requires down.second == 0 && up.second == 0
    requires Instant(down) <= Instant(up)
    ensures StampInstant(StampOf(up), up.year) == Instant(up)
    ensures GuessDown(StampOf(down), StampOf(up), up.year) == Instant(down) <==>
        || down.year == up.year
        || (down.year + 1 == up.year && Instant(down.(year := up.year)) > Instant(up))
  {
    hide Instant, Leap, DaysBeforeYear;
    InstantOrder(up, down);
    StampOfDate(up, up.year);
    StampOfDate(down, up.year);
    StampOfDate(down, up.year - 1);
    if down.year < up.year {
      PreviousYear(StampOf(down), up.year);
      if down.year + 1 < up.year {
        YearBetween(down, up);
        StampWithinYear(StampOf(down), up.year - 1);
        BeforeNextYear(down, up.year - 1);
      }
    }
  }

  lemma BeforeNextYear(tm: TimeElements, year: nat)
    requires ValidDate(tm) && tm.year < year
    ensures Instant(tm) < SECS_PER_DAY * DaysBeforeYear(year)
  {
    hide Leap;
    DayWithinYear(tm);
    DaysBeforeYearMonotone(tm.year + 1, year);
  }

  /** In particular every outage shorter than 365 days that ends in the current year comes back exactly,
      to the minute. */
  lemma OutageRecovered(down: TimeElements, up: TimeElements)
    requires ValidDate(down) && ValidDate(up) && 30 <= up.year <= 129
    requires down.second == 0 && up.second == 0
    requires Instant(down) <= Instant(up) < Instant(down) + 365 * SECS_PER_DAY
    ensures StampInstant(StampOf(up), up.year) == Instant(up)
    ensures GuessDown(StampOf(down), StampOf(up), up.year) == Instant(down)
  {
    hide Instant, Leap;
    OutageExact(down, up);
    InstantOrder(up, down);
    if down.year + 1 < up.year {
      YearBetween(down, up);
      assert false;
    }
    if down.year < up.year {
      StampOfDate(down, down.year);
      StampOfDate(down, up.year);
      PreviousYear(StampOf(down), up.year);
    }
  }

  lemma StampOfDate(tm: TimeElements, year: Byte)
    requires ValidDate(tm) && tm.second == 0
    ensures InRange(StampOf(tm))
    ensures StampInstant(StampOf(tm), year) == Instant(tm.(year := year))
  {
  }

  lemma YearBetween(down: TimeElements, up: TimeElements)
    requires ValidDate(down) && ValidDate(up) && down.year + 1 < up.year
    ensures Instant(up) > Instant(down) + 365 * SECS_PER_DAY
  {
    hide Leap;
    DayWithinYear(down);
    DayWithinYear(up);
    DaysBeforeYearMonotone(down.year + 1, up.year);
  }

  // ----- the driver

  class Driver {
    const regs: array<Byte>
    /** Whether the chip acknowledges on the bus. */
    var present: bool
    /** `Wagman::wireEnabled`. */
    var wireEnabled: bool

    ghost predicate Valid()
      reads this
    {
      regs.Length == REGISTERS
    }

    constructor ()
      ensures Valid() && fresh(regs) && present && wireEnabled
    {
      regs := new Byte[REGISTERS];
      present, wireEnabled := true, true;
    }

    /** `write`: the seven registers in one transaction with the oscillator stopped, then the seconds. */
    method Write(tm: TimeElements)
      requires Valid()
      modifies regs
      ensures regs[..] == if present then Encode(tm) + old(regs[7..]) else old(regs[..])
    {
      if present {
        regs[0] := 0;
        regs[1] := DecToBcd(tm.minute);
        regs[2] := DecToBcd(tm.hour);
        regs[3] := With(tm.wday, VBATEN, true);
        regs[4] := DecToBcd(tm.day);
        regs[5] := DecToBcd(tm.month);
        regs[6] := DecToBcd((tm.year - 30) % 256);
        regs[0] := With(DecToBcd(tm.second), ST, true);
      }
    }

    /** `read`; None is the source's `false`. */
    method Read() returns (tm: Option<TimeElements>)
      requires Valid()
      ensures tm == if present then Some(Decode(regs[..])) else None
    {
      if !present {
        return None;
      }
      var second := BcdToDec(Clear(regs[0], ST));
      var minute := BcdToDec(regs[1]);
      var hour := BcdToDec(Clear(regs[2], HR1224));
      var wday := Clear(Clear(Clear(regs[3], OSCON), VBAT), VBATEN);
      var day := BcdToDec(regs[4]);
      var month := BcdToDec(Clear(regs[5], LP));
      var year := (BcdToDec(regs[6]) + 30) % 256;
      tm := Some(TimeElements(second, minute, hour, wday, day, month, year));
    }

    method Set(t: Word)
      requires Valid()
      modifies regs
      ensures regs[..] == if present then Encode(Breakdown(t)) + old(regs[7..]) else old(regs[..])
      ensures present ==> HasBit(regs[0], ST) && HasBit(regs[3], VBATEN)
      ensures present && 946684800 <= t < 4102444800 ==>
          var tm := Breakdown(t);
          Shows(regs[..], 1970 + tm.year, tm.month, tm.day, DayOfWeek(t), tm.hour, tm.minute, tm.second)
    {
      hide Encode, Shows, HasBit, Instant, Breakdown, IsBreakdown, DayOfWeek;
      var tm := BreakTime(t, true);
      BreakdownUnique(t, tm, Breakdown(t));
      Write(tm);
      if present {
        assert regs[..][..7] == Encode(tm);
        WrittenImage(regs[..], t, tm);
      }
    }

    /** `get`. A month register outside 0..13 would send `makeTime` past its table. */
    method Get() returns (t: Word)
      requires Valid()
      requires present ==> Decode(regs[..]).month <= 13
      ensures t == if present then Instant(Decode(regs[..])) % WORD32 else 0
    {
      var tm := Read();
      if tm.Some? {
        t := MakeTime(tm.value);
      } else {
        t := 0;
      }
    }

    /** The chip updates the bits it owns. */
    method Hardware(oscon: bool, vbat: bool, leap: bool)
      requires Valid()
      modifies regs
      ensures regs[..] == HardwareBits(old(regs[..]), oscon, vbat, leap)
    {
      regs[3] := With(With(regs[3], OSCON, oscon), VBAT, vbat);
      regs[5] := With(regs[5], LP, leap);
    }

    /** Writing the weekday register with VBAT clear makes the chip clear both time stamps. */
    method RamWriteDay(value: Byte)
      requires Valid()
      modifies regs
      ensures regs[..] == if HasBit(value, VBAT) then old(regs[..])[DAY_REG := value]
          else old(regs[..])[DAY_REG := value][..PWRDWN_TS_REG] + seq(8, _ => 0)
    {
      regs[DAY_REG] := value;
      if !HasBit(value, VBAT) {
        for i := PWRDWN_TS_REG to REGISTERS
          invariant regs[..PWRDWN_TS_REG] == old(regs[..])[DAY_REG := value][..PWRDWN_TS_REG]
          invariant forall j :: PWRDWN_TS_REG <= j < i ==> regs[j] == 0
        {
          regs[i] := 0;
        }
      }
    }

    /** `powerFail`: reports an outage once, with the reconstructed times, and clears the flag. */
    method PowerFail() returns (failed: bool, powerDown: Word, powerUp: Word)
      requires Valid()
      requires HasBit(regs[DAY_REG], VBAT) ==> StampsReadable(regs[..])
      modifies regs
      ensures failed == HasBit(old(regs[DAY_REG]), VBAT)
      ensures !failed ==> regs[..] == old(regs[..])
      ensures failed ==> OutageReport(old(regs[..]), powerDown, powerUp)
      ensures failed ==> !HasBit(regs[DAY_REG], VBAT)
      ensures failed ==> regs[..] == old(regs[..])[DAY_REG := regs[DAY_REG]][..PWRDWN_TS_REG] + seq(8, _ => 0)
    {
      hide BcdToDec, Instant, InRange;
      var day := regs[DAY_REG];
      var year := (BcdToDec(regs[YEAR_REG]) + 30) % 256;
      powerDown, powerUp := 0, 0;
      if !HasBit(day, VBAT) {
        return false, powerDown, powerUp;
      }
      ghost var was := regs[..];
      var dn := StampIn(ReadStampRegisters(0x18), year);
      var up := StampIn(ReadStampRegisters(0x1C), year);
      powerDown := MakeTime(dn);
      powerUp := MakeTime(up);
      MaskOnce(day, VBAT);
      RamWriteDay(Clear(day, VBAT));
      if powerDown > powerUp {
        dn := dn.(year := (dn.year - 1) % 256);
        powerDown := MakeTime(dn);
      }
      failed := true;
      ReportHolds(was, powerDown, powerUp);
    }

    function ReadStampRegisters(at: nat): Stamp
      requires Valid() && at + 4 <= REGISTERS
      reads this, regs
      ensures ReadStampRegisters(at) == ReadStamp(regs[..], at)
    {
      Stamp(BcdToDec(regs[at]), BcdToDec(Clear(regs[at + 1], HR1224)), BcdToDec(regs[at + 2]),
            BcdToDec(regs[at + 3] % 32))
    }

    // ----- Wagman's date commands

    /** `Wagman::setDateTime`. */
    method SetDateTime(dt: DateTime)
      requires Valid() && dt.month <= 13
      modifies regs
      ensures wireEnabled && present && Storable(FromDateTime(dt)) ==>
          regs[..] == Encode(WithWeekday(FromDateTime(dt))) + old(regs[7..])
      ensures wireEnabled && present && Storable(FromDateTime(dt)) && 2000 <= dt.year <= 2099 ==>
          var wday := DayOfWeek(Instant(FromDateTime(dt)));
          Shows(regs[..], dt.year, dt.month, dt.day, wday, dt.hour, dt.minute, dt.second)
      ensures !wireEnabled || !present ==> regs[..] == old(regs[..])
    {
      hide Shows, Encode, Instant, Storable, DayOfWeek, ValidDate;
      if wireEnabled {
        var tm := FromDateTime(dt);
        var t := MakeTime(tm);
        Set(t);
        if Storable(tm) {
          StoredDate(dt, t);
        }
      }
    }

    /** `Wagman::getDateTime`; the source leaves the fields undefined when the chip is absent. */
    method GetDateTime() returns (dt: DateTime)
      requires Valid()
      ensures !wireEnabled ==> dt == DateTime(0, 0, 0, 0, 0, 0)
      ensures wireEnabled && present ==>
          var tm := Decode(regs[..]);
          dt == DateTime(tm.year + 1970, tm.month, tm.day, tm.hour, tm.minute, tm.second)
    {
      dt := DateTime(0, 0, 0, 0, 0, 0);
      if wireEnabled {
        var tm := Read();
        if tm.Some? {
          dt := DateTime(tm.value.year + 1970, tm.value.month, tm.value.day, tm.value.hour, tm.value.minute,
                         tm.value.second);
        }
      }
    }
  }

  /** Registers that begin with the image of the date of `t`. */
  lemma WrittenImage(regs: seq<Byte>, t: Word, tm: TimeElements)
    requires IsBreakdown(t, tm) && |regs| >= 7 && regs[..7] == Encode(tm)
    ensures HasBit(regs[0], ST) && HasBit(regs[3], VBATEN)
    ensures 946684800 <= t < 4102444800 ==>
        Shows(regs, 1970 + tm.year, tm.month, tm.day, DayOfWeek(t), tm.hour, tm.minute, tm.second)
  {
    hide Encode, Shows, HasBit, Instant, MonthLength;
    EncodeStarts(tm);
    SameRegisters(regs, Encode(tm), tm);
    if 946684800 <= t < 4102444800 {
      StartOf2000(tm);
      EndOf2099(tm);
      EncodeShows(tm);
    }
  }

  /** What the first seven registers show does not depend on the others. */
  lemma SameRegisters(regs: seq<Byte>, first: seq<Byte>, tm: TimeElements)
    requires |regs| >= 7 && |first| == 7 && regs[..7] == first
    ensures forall i :: 0 <= i < 7 ==> regs[i] == first[i]
    ensures Shows(first, 1970 + tm.year, tm.month, tm.day, tm.wday, tm.hour, tm.minute, tm.second) ==>
        Shows(regs, 1970 + tm.year, tm.month, tm.day, tm.wday, tm.hour, tm.minute, tm.second)
  {
    forall i | 0 <= i < 7
      ensures regs[i] == first[i]
    {
      assert regs[..7][i] == regs[i];
    }
  }

  /** In-range stamps and a year of 2000..2099 in BCD. */
  predicate Sensible(regs: seq<Byte>)
    requires |regs| == REGISTERS
  {
    && BcdToDec(regs[YEAR_REG]) <= 99
    && InRange(ReadStamp(regs, 0x18)) && InRange(ReadStamp(regs, 0x1C))
  }

  /** Neither stamp sends `makeTime` past its month table. */
  predicate StampsReadable(regs: seq<Byte>)
    requires |regs| == REGISTERS
  {
    ReadStamp(regs, 0x18).month <= 13 && ReadStamp(regs, 0x1C).month <= 13
  }

  function YearIn(regs: seq<Byte>): Byte
    requires |regs| == REGISTERS
  {
    (BcdToDec(regs[YEAR_REG]) + 30) % 256
  }

  /** The times reported for sensible registers are the reconstruction, unwrapped, in order, and less than
      366 days apart. */
  predicate OutageReport(regs: seq<Byte>, powerDown: int, powerUp: int)
    requires |regs| == REGISTERS && StampsReadable(regs)
  {
    Sensible(regs) ==>
      var year := YearIn(regs);
      && year >= 1
      && powerUp == StampInstant(ReadStamp(regs, 0x1C), year)
      && powerDown == GuessDown(ReadStamp(regs, 0x18), ReadStamp(regs, 0x1C), year)
      && powerDown <= powerUp < powerDown + 366 * SECS_PER_DAY
  }

  lemma MaskOnce(x: Byte, w: int)
    requires Weight(w)
    ensures !HasBit(Clear(x, w), w)
  {
  }

  /** None of the 32-bit sums of `powerFail` wraps. */
  lemma ReportHolds(regs: seq<Byte>, powerDown: int, powerUp: int)
    requires |regs| == REGISTERS && StampsReadable(regs)
    requires powerUp == StampInstant(ReadStamp(regs, 0x1C), YearIn(regs)) % WORD32
    requires powerDown ==
        var dn := StampInstant(ReadStamp(regs, 0x18), YearIn(regs)) % WORD32;
        if dn > powerUp then StampInstant(ReadStamp(regs, 0x18), (YearIn(regs) - 1) % 256) % WORD32 else dn
    ensures OutageReport(regs, powerDown, powerUp)
  {
    hide ReadStamp, StampInstant, BcdToDec, InRange, DaysBeforeYear;
    if Sensible(regs) {
      var dn, up, year := ReadStamp(regs, 0x18), ReadStamp(regs, 0x1C), YearIn(regs);
      StampWithinYear(dn, year);
      StampWithinYear(up, year);
      StampWithinYear(dn, year - 1);
      OutageSane(dn, up, year);
      WordUnchanged(StampInstant(dn, year));
      WordUnchanged(StampInstant(up, year));
      WordUnchanged(StampInstant(dn, year - 1));
    }
  }

  datatype DateTime = DateTime(year: Short, month: Byte, day: Byte, hour: Byte, minute: Byte, second: Byte)

  function FromDateTime(dt: DateTime): TimeElements {
    TimeElements(dt.second, dt.minute, dt.hour, 0, dt.day, dt.month, (dt.year - 1970) % 256)
  }

  predicate Storable(tm: TimeElements) {
    ValidDate(tm) && 0 <= Instant(tm) < WORD32
  }

  function WithWeekday(tm: TimeElements): TimeElements
    requires Storable(tm)
  {
    tm.(wday := DayOfWeek(Instant(tm)))
  }

  /** The date that `setDateTime` stores by way of its instant. */
  lemma StoredDate(dt: DateTime, t: Word)
    requires Storable(FromDateTime(dt)) && t == Instant(FromDateTime(dt)) % WORD32
    ensures t == Instant(FromDateTime(dt)) && Breakdown(t) == WithWeekday(FromDateTime(dt))
    ensures 2000 <= dt.year <= 2099 ==>
        && 946684800 <= t < 4102444800
        && var tm := Breakdown(t);
           && 1970 + tm.year == dt.year && tm.month == dt.month && tm.day == dt.day
           && tm.hour == dt.hour && tm.minute == dt.minute && tm.second == dt.second
  {
    hide Instant, DayOfWeek, Breakdown, IsBreakdown, MonthLength;
    var tm := FromDateTime(dt);
    WordUnchanged(Instant(tm));
    StoredBreakdown(tm);
    StartOf2000(tm);
    EndOf2099(tm);
  }

  lemma StoredBreakdown(tm: TimeElements)
    requires Storable(tm)
    ensures Breakdown(Instant(tm)) == WithWeekday(tm)
  {
    hide Breakdown, DaysBeforeYear, DaysBeforeMonth, MonthLength, DayOfWeek;
    var t: Word := Instant(tm);
    BreakdownUnique(t, Breakdown(t), WithWeekday(tm));
  }

  /** `set` then `get` on an unticked clock, with any hardware bits: every time from 2000 on comes back,
      and no earlier one does. */
  method SetThenGet(t: Word, oscon: bool, vbat: bool, leap: bool) returns (r: Word)
    ensures r == t <==> t >= 946684800
  {
    var rtc := new Driver();
    rtc.Set(t);
    assert rtc.regs[..][..7] == Encode(Breakdown(t));
    ReadBack(rtc.regs[..], Breakdown(t), oscon, vbat, leap);
    rtc.Hardware(oscon, vbat, leap);
    SetGetExact(t, oscon, vbat, leap);
    r := rtc.Get();
  }

  /** Registers past the first seven play no part, and the hardware bits are masked. */
  lemma ReadBack(regs: seq<Byte>, tm: TimeElements, oscon: bool, vbat: bool, leap: bool)
    requires |regs| >= 7 && regs[..7] == Encode(tm)
    requires ValidDate(tm) && tm.wday < 8 && tm.year <= 136
    ensures Decode(HardwareBits(regs, oscon, vbat, leap))
        == Decode(HardwareBits(Encode(tm), oscon, vbat, leap))
        == tm.(year := if tm.year >= 30 then tm.year else tm.year + 96)
  {
    hide Encode, With, Clear, BcdToDec;
    DecodeEncode(tm, oscon, vbat, leap);
    forall i | 0 <= i < 7
      ensures regs[i] == Encode(tm)[i]
    {
      assert regs[..7][i] == regs[i];
    }
  }

  /** `setDateTime` then `getDateTime` returns every valid date from 2000 to the end of 32-bit time. */
  method SetThenGetDate(dt: DateTime, oscon: bool, vbat: bool, leap: bool) returns (r: DateTime)
    requires 2000 <= dt.year <= 2106 && Storable(FromDateTime(dt))
    ensures r == dt
  {
    hide Encode, Decode, Instant, HardwareBits;
    var rtc := new Driver();
    rtc.SetDateTime(dt);
    ghost var tm := WithWeekday(FromDateTime(dt));
    assert rtc.regs[..][..7] == Encode(tm);
    ReadBack(rtc.regs[..], tm, oscon, vbat, leap);
    rtc.Hardware(oscon, vbat, leap);
    r := rtc.GetDateTime();
  }
}
