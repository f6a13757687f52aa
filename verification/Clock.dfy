/** The software clock of boards/v3/firmware/Time.cpp: the one-entry breakdown cache and the
    millisecond accumulator behind `now`.

    The code sees a 32-bit millisecond counter. The ghost fields remember true, unbounded
    milliseconds, so that the invariant can say what `sysTime` is worth after any number of calls.
 */
module Clock {
  import opened Machine
  import opened Calendar
  import opened Timer

  datatype Status = NotSet | NeedsSync | Set

  /** `at(k)` is the true millisecond at which a call samples `millis()` for the k-th time: time does
      not run backwards, and one turn of the catch-up loop takes less than a second. */
  ghost predicate Steady(at: nat -> nat, k: nat) {
    at(k) <= at(k + 1) < at(k) + 1000
  }

  /** One turn of the catch-up loop advances the seconds by one and the counter by 1000, both wrapping. */
  lemma CatchUpTurn(base: int, n: nat, prev: nat)
    ensures ((base + n) % WORD32 + 1) % WORD32 == (base + (n + 1)) % WORD32
    ensures (Millis(prev) + 1000) % WORD32 == Millis(prev + 1000)
  {
    AddWraps(base + n, 1);
    AddWraps(prev, 1000);
  }

  lemma WholeSeconds(ms: nat, n: nat)
    requires 1000 * n <= ms < 1000 * n + 1000
    ensures ms / 1000 == n
  {
  }

  lemma SkipPeriods(earlier: nat, later: nat)
    requires earlier <= later
    ensures var start := earlier + WORD32 * ((later - earlier) / WORD32);
            start <= later < start + WORD32 && Millis(start) == Millis(earlier)
  {
  }

  class TimeService {
    var tm: TimeElements
    var cacheTime: Word
    var syncInterval: Word
    var sysTime: Word
    var prevMillis: Word
    var nextSyncTime: Word
    var status: Status

    /** The last time set, shifted by later adjustments, and the true millisecond when it was set. */
    ghost var baseTime: int
    ghost var baseMillis: nat
    /** True millisecond of the last sample of `millis()`. */
    ghost var sampled: nat

    /** Whole seconds that have truly passed since the clock was set. */
    ghost function Elapsed(): nat
      requires baseMillis <= sampled
      reads this`baseMillis, this`sampled
    {
      (sampled - baseMillis) / 1000
    }

    ghost predicate Valid()
      reads this`baseMillis, this`sampled, this`prevMillis, this`baseTime, this`sysTime
    {
      && baseMillis <= sampled
      && prevMillis == Millis(baseMillis + 1000 * Elapsed())
      && sysTime == (baseTime + Elapsed()) % WORD32
    }

    /** The cache holds the breakdown of the time it is labelled with. */
    ghost predicate Coherent()
      reads this`cacheTime, this`tm
    {
      IsBreakdown(cacheTime, tm)
    }

    /** Static initialisation: every variable zero except the sync interval. */
    constructor ()
      ensures Valid() && status == NotSet
      ensures tm == TimeElements(0, 0, 0, 0, 0, 0, 0) && cacheTime == 0
      ensures baseTime == 0 && baseMillis == 0 && sampled == 0 && sysTime == 0
    {
      tm := TimeElements(0, 0, 0, 0, 0, 0, 0);
      cacheTime, syncInterval, sysTime, prevMillis, nextSyncTime, status := 0, 300, 0, 0, 0, NotSet;
      baseTime, baseMillis, sampled := 0, 0, 0;
    }

    // ----- the cache

    /** `refreshCache`: afterwards the cache is right for `t` exactly when it was coherent or held
        another time. */
    method RefreshCache(t: Word)
      modifies this`tm, this`cacheTime
      ensures cacheTime == t
      ensures t == old(cacheTime) ==> tm == old(tm)
      ensures tm == Breakdown(t) <==> old(Coherent()) || t != old(cacheTime)
      ensures Coherent() <==> old(Coherent()) || t != old(cacheTime)
    {
      if t != cacheTime {
        tm := BreakTime(t, true);
        cacheTime := t;
        BreakdownUnique(t, tm, Breakdown(t));
      } else if tm == Breakdown(t) {
      } else if Coherent() {
        BreakdownUnique(t, tm, Breakdown(t));
      }
    }

    method Hour(t: Word) returns (h: Byte)
      modifies this`tm, this`cacheTime
      ensures old(Coherent()) || t != old(cacheTime) ==> Coherent() && h == Breakdown(t).hour
    {
      RefreshCache(t);
      h := tm.hour;
    }

    method HourFormat12(t: Word) returns (h: Byte)
      modifies this`tm, this`cacheTime
      ensures old(Coherent()) || t != old(cacheTime) ==>
          Coherent() && 1 <= h <= 12 && Breakdown(t).hour in {h - 12, h, h + 12}
    {
      RefreshCache(t);
      h := if tm.hour == 0 then 12 else if tm.hour > 12 then tm.hour - 12 else tm.hour;
    }

    method IsPM(t: Word) returns (pm: bool)
      modifies this`tm, this`cacheTime
      ensures old(Coherent()) || t != old(cacheTime) ==> Coherent() && (pm <==> 12 <= Breakdown(t).hour)
    {
      var h := Hour(t);
      pm := h >= 12;
    }

    method IsAM(t: Word) returns (am: bool)
      modifies this`tm, this`cacheTime
      ensures old(Coherent()) || t != old(cacheTime) ==> Coherent() && (am <==> Breakdown(t).hour < 12)
    {
      var pm := IsPM(t);
      am := !pm;
    }

    method Minute(t: Word) returns (m: Byte)
      modifies this`tm, this`cacheTime
      ensures old(Coherent()) || t != old(cacheTime) ==> Coherent() && m == Breakdown(t).minute
    {
      RefreshCache(t);
      m := tm.minute;
    }

    method Second(t: Word) returns (s: Byte)
      modifies this`tm, this`cacheTime
      ensures old(Coherent()) || t != old(cacheTime) ==> Coherent() && s == Breakdown(t).second
    {
      RefreshCache(t);
      s := tm.second;
    }

    method Day(t: Word) returns (d: Byte)
      modifies this`tm, this`cacheTime
      ensures old(Coherent()) || t != old(cacheTime) ==> Coherent() && d == Breakdown(t).day
    {
      RefreshCache(t);
      d := tm.day;
    }

    method Weekday(t: Word) returns (d: Byte)
      modifies this`tm, this`cacheTime
      ensures old(Coherent()) || t != old(cacheTime) ==> Coherent() && d == Breakdown(t).wday == DayOfWeek(t)
    {
      RefreshCache(t);
      d := tm.wday;
    }

    method Month(t: Word) returns (m: Byte)
      modifies this`tm, this`cacheTime
      ensures old(Coherent()) || t != old(cacheTime) ==> Coherent() && m == Breakdown(t).month
    {
      RefreshCache(t);
      m := tm.month;
    }

    method Year(t: Word) returns (y: int)
      modifies this`tm, this`cacheTime
      ensures old(Coherent()) || t != old(cacheTime) ==> Coherent() && y == Breakdown(t).year + 1970
    {
      RefreshCache(t);
      y := tm.year + 1970;
    }

    // ----- the running clock

    /** `setTime(time_t)` at true millisecond `at`. */
    method SetTime(t: Word, ghost at: nat, millis: Word)
      requires millis == Millis(at) && sampled <= at
      modifies this`sysTime, this`nextSyncTime, this`status, this`prevMillis,
               this`baseTime, this`baseMillis, this`sampled
      ensures Valid() && status == Set
      ensures baseTime == t && baseMillis == at && sampled == at && sysTime == t
      ensures nextSyncTime == (t + syncInterval) % WORD32
    {
      sysTime := t;
      nextSyncTime := (t + syncInterval) % WORD32;
      status := Set;
      prevMillis := millis;
      baseTime, baseMillis, sampled := t, at, at;
    }

    /** `adjustTime`. */
    method AdjustTime(adjustment: int)
      requires Valid()
      modifies this`sysTime, this`baseTime
      ensures Valid() && baseTime == old(baseTime) + adjustment
    {
      AddWraps(baseTime + Elapsed(), adjustment);
      sysTime := (sysTime + adjustment) % WORD32;
      baseTime := baseTime + adjustment;
    }

    /** The six-field `setTime`. It overwrites the cached fields but not their label, so a coherent cache
        stays coherent exactly when the six fields are the cached ones. */
    method SetTimeFields(hr: int, min: int, sec: int, dy: int, mnth: int, yr: int, ghost at: nat, millis: Word)
      requires millis == Millis(at) && sampled <= at
      requires mnth % 256 <= 13
      modifies this
      ensures Valid() && cacheTime == old(cacheTime)
      ensures tm == TimeElements(sec % 256, min % 256, hr % 256, old(tm).wday, dy % 256, mnth % 256,
                                 (if yr > 99 then yr - 1970 else yr + 30) % 256)
      ensures sysTime == Instant(tm) % WORD32
      ensures old(Coherent()) ==> (Coherent() <==> tm == old(tm))
    {
      ghost var before := tm;
      var y := if yr > 99 then yr - 1970 else yr + 30;
      tm := TimeElements(sec % 256, min % 256, hr % 256, tm.wday, dy % 256, mnth % 256, y % 256);
      if IsBreakdown(cacheTime, before) && IsBreakdown(cacheTime, tm) {
        BreakdownUnique(cacheTime, before, tm);
      }
      var t := MakeTime(tm);
      SetTime(t, at, millis);
    }

    /** Whole periods of the 32-bit counter that pass unseen before a sample at true millisecond `m`. */
    ghost function Missed(m: nat): nat
      requires baseMillis <= sampled <= m
      reads this`baseMillis, this`sampled
    {
      (m - (baseMillis + 1000 * Elapsed())) / WORD32
    }

    /** The catch-up loop of `now`, which samples the counter once per test. `n` is the number of whole seconds counted
        since the clock was set. */
    method CatchUpLoop(at: nat -> nat, ghost n: nat) returns (k: nat)
      requires forall j: nat :: Steady(at, j)
      requires baseMillis + 1000 * n <= at(0) < baseMillis + 1000 * n + WORD32
      requires prevMillis == Millis(baseMillis + 1000 * n) && sysTime == (baseTime + n) % WORD32
      modifies this`sysTime, this`prevMillis, this`sampled
      ensures Valid() && sampled == at(k) && at(0) <= at(k)
    {
      hide Timer.Elapsed, Millis;
      var i: nat := 0;
      ghost var m := n;
      while Timer.Elapsed(at(i), prevMillis) >= 1000
        invariant prevMillis == Millis(baseMillis + 1000 * m) && sysTime == (baseTime + m) % WORD32
        invariant baseMillis + 1000 * m <= at(i) < baseMillis + 1000 * m + WORD32 && at(0) <= at(i)
        decreases at(i) - 1000 * m
      {
        ElapsedIsTrue(at(i), baseMillis + 1000 * m);
        assert Steady(at, i);
        CatchUpTurn(baseTime, m, baseMillis + 1000 * m);
        sysTime := (sysTime + 1) % WORD32;
        prevMillis := (prevMillis + 1000) % WORD32;
        m := m + 1;
        i := i + 1;
      }
      ElapsedIsTrue(at(i), baseMillis + 1000 * m);
      k := i;
      sampled := at(i);
      WholeSeconds(sampled - baseMillis, m);
    }

    /** A period of the counter that passes between two samples is lost, as if the clock had been set that much
        later. */
    method CatchUp(at: nat -> nat) returns (k: nat)
      requires Valid() && sampled <= at(0)
      requires forall j: nat :: Steady(at, j)
      modifies this`sysTime, this`prevMillis, this`sampled, this`baseMillis
      ensures Valid() && sampled == at(k) && at(0) <= at(k)
      ensures baseMillis == old(baseMillis) + WORD32 * old(Missed(at(0)))
    {
      ghost var n := Elapsed();
      SkipPeriods(baseMillis + 1000 * n, at(0));
      baseMillis := baseMillis + WORD32 * Missed(at(0));
      k := CatchUpLoop(at, n);
    }

    /** What the catch-up loop makes of a sample at true millisecond `m`: the time set plus the whole seconds that truly
        passed since, less the counter periods lost before the first sample at `first`, modulo 2^32. */
    ghost function CaughtUp(first: nat, m: nat): Word
      requires baseMillis <= sampled <= first <= m
      reads this`baseMillis, this`sampled, this`baseTime
    {
      (baseTime + (m - baseMillis - WORD32 * Missed(first)) / 1000) % WORD32
    }

    /** `now`: catches up, and synchronises if the next sync is due then. `provider` is the sync provider's answer, or
        None when none is registered; `caught` numbers the last sample of the loop and `last` that of the call. No
        counter period is lost when calls are less than 2^32 - 1000 ms apart. */
    method Now(at: nat -> nat, provider: Option<Word>) returns (t: Word, last: nat, ghost caught: nat)
      requires Valid() && sampled <= at(0)
      requires forall j: nat :: Steady(at, j)
      modifies this`sysTime, this`prevMillis, this`sampled, this`nextSyncTime, this`status,
               this`baseTime, this`baseMillis
      ensures Valid() && at(0) <= at(caught) <= sampled == at(last) && t == sysTime
      ensures old(at(0) < sampled + WORD32 - 1000 ==> Missed(at(0)) == 0)
      ensures var soFar := old(CaughtUp(at(0), at(caught)));
              if old(nextSyncTime) > soFar || provider.None? then
                && t == soFar && last == caught
                && status == old(status) && nextSyncTime == old(nextSyncTime)
              else if provider.value == 0 then
                && t == soFar && last == caught
                && status == (if old(status) == NotSet then NotSet else NeedsSync)
                && nextSyncTime == (soFar + syncInterval) % WORD32
              else
                && t == provider.value == baseTime && last == caught + 1 && baseMillis == at(last)
                && status == Set && nextSyncTime == (t + syncInterval) % WORD32
      ensures last == caught ==>
          baseTime == old(baseTime) && baseMillis == old(baseMillis) + WORD32 * old(Missed(at(0)))
    {
      last := CatchUp(at);
      caught := last;
      if nextSyncTime <= sysTime {
        if provider.Some? {
          if provider.value != 0 {
            assert Steady(at, last);
            last := last + 1;
            SetTime(provider.value, at(last), Millis(at(last)));
          } else {
            nextSyncTime := (sysTime + syncInterval) % WORD32;
            status := if status == NotSet then NotSet else NeedsSync;
          }
        }
      }
      t := sysTime;
    }
  }

  // ----- whole runs

  /** The time at true millisecond `m`, if it was `t` at `start`. */
  function Exact(t: int, start: nat, m: nat): Word
    requires start <= m
  {
    (t + (m - start) / 1000) % WORD32
  }

  /** One reading at a single true millisecond `m`, less than 2^32 - 1000 ms after the last. */
  method ReadAt(clock: TimeService, m: nat) returns (t: Word)
    requires clock.Valid() && clock.sampled <= m < clock.sampled + WORD32 - 1000
    modifies clock
    ensures clock.Valid() && clock.sampled == m
    ensures clock.baseTime == old(clock.baseTime) && clock.baseMillis == old(clock.baseMillis)
    ensures clock.baseMillis <= m && t == Exact(clock.baseTime, clock.baseMillis, m)
  {
    hide Millis;
    var at := Constantly(m);
    ConstantIsSteady(m);
    var last: nat;
    ghost var caught: nat;
    t, last, caught := clock.Now(at, None);
  }

  function Constantly(m: nat): (at: nat -> nat)
    ensures forall k: nat :: at(k) == m
  {
    (k: nat) => m
  }

  lemma ConstantIsSteady(m: nat)
    ensures forall j: nat :: Steady(Constantly(m), j)
  {
  }

  /** No drift over a whole run: set the clock at true millisecond `start`, then read it at any
      non-decreasing times, less than 2^32 - 1000 ms apart. Every reading is exact. */
  method ReadAlongRun(t: Word, start: nat, times: seq<nat>) returns (readings: seq<Word>)
    requires times != [] ==> start <= times[0] < start + WORD32 - 1000
    requires forall i :: 0 < i < |times| ==> times[i - 1] <= times[i] < times[i - 1] + WORD32 - 1000
    ensures |readings| == |times|
    ensures forall i :: 0 <= i < |times| ==>
        start <= times[i] && readings[i] == Exact(t, start, times[i])
  {
    hide *;
    var clock := new TimeService();
    clock.SetTime(t, start, Millis(start));
    readings := [];
    for i := 0 to |times|
      invariant clock.Valid() && clock.baseTime == t && clock.baseMillis == start
      invariant clock.sampled == (if i == 0 then start else times[i - 1]) && start <= clock.sampled
      invariant |readings| == i
      invariant forall j :: 0 <= j < i ==>
          start <= times[j] && readings[j] == Exact(t, start, times[j])
    {
      var r := ReadAt(clock, times[i]);
      readings := readings + [r];
    }
  }

  datatype Part =
    | Hours | DialHours | Morning | Afternoon | Minutes | Seconds
    | DayOfMonth | WeekDay | MonthOfYear | FullYear

  /** What the accessor of a part means; the two flags count as 1 and 0. */
  function Meaning(part: Part, date: TimeElements): int {
    match part
    case Hours => date.hour
    case DialHours => if date.hour % 12 == 0 then 12 else date.hour % 12
    case Morning => if date.hour < 12 then 1 else 0
    case Afternoon => if date.hour < 12 then 0 else 1
    case Minutes => date.minute
    case Seconds => date.second
    case DayOfMonth => date.day
    case WeekDay => date.wday
    case MonthOfYear => date.month
    case FullYear => 1970 + date.year
  }

  /** The calls that keep the cache: the accessors, `setTime(time_t)`, `adjustTime` and `now`. `after` and
      `samples` are the times since the last sample of the counter. */
  datatype Call =
    | Ask(part: Part, t: Word)
    | SetTo(newTime: Word, after: nat)
    | Adjust(adjustment: int)
    | AskNow(samples: nat -> nat, provider: Option<Word>)

  /** The three ways to ask for the hour. */
  method HourAccessor(clock: TimeService, part: Part, t: Word) returns (answer: int)
    requires clock.Coherent() && part in {DialHours, Morning, Afternoon}
    modifies clock`tm, clock`cacheTime
    ensures clock.Coherent() && answer == Meaning(part, Breakdown(t))
  {
    hide IsBreakdown, Breakdown;
    if part == DialHours {
      answer := clock.HourFormat12(t);
    } else {
      var b: bool;
      if part == Morning {
        b := clock.IsAM(t);
      } else {
        b := clock.IsPM(t);
      }
      answer := if b then 1 else 0;
    }
  }

  method Accessor(clock: TimeService, part: Part, t: Word) returns (answer: int)
    requires clock.Coherent()
    modifies clock`tm, clock`cacheTime
    ensures clock.Coherent() && answer == Meaning(part, Breakdown(t))
  {
    hide IsBreakdown, Breakdown;
    match part
    case Hours => answer := clock.Hour(t);
    case Minutes => answer := clock.Minute(t);
    case Seconds => answer := clock.Second(t);
    case DayOfMonth => answer := clock.Day(t);
    case WeekDay => answer := clock.Weekday(t);
    case MonthOfYear => answer := clock.Month(t);
    case FullYear => answer := clock.Year(t);
    case _ => answer := HourAccessor(clock, part, t);
  }

  /** `now`, its samples counted from true millisecond `time`; the result `end` is the last of them. */
  method NowFrom(clock: TimeService, time: nat, samples: nat -> nat, provider: Option<Word>) returns (t: Word, end: nat)
    requires clock.Valid() && clock.sampled <= time && forall j: nat :: Steady(samples, j)
    modifies clock`sysTime, clock`prevMillis, clock`sampled, clock`nextSyncTime, clock`status,
             clock`baseTime, clock`baseMillis
    ensures clock.Valid() && clock.sampled == end
  {
    hide Millis;
    var at := Shifted(samples, time);
    ShiftedIsSteady(samples, time);
    var last: nat;
    ghost var caught: nat;
    t, last, caught := clock.Now(at, provider);
    end := at(last);
  }

  function Shifted(samples: nat -> nat, time: nat): (at: nat -> nat)
    ensures forall k: nat :: at(k) == time + samples(k)
  {
    (k: nat) => time + samples(k)
  }

  lemma ShiftedIsSteady(samples: nat -> nat, time: nat)
    requires forall j: nat :: Steady(samples, j)
    ensures forall j: nat :: Steady(Shifted(samples, time), j)
  {
    forall j: nat
      ensures Steady(Shifted(samples, time), j)
    {
      assert Steady(samples, j);
    }
  }

  /** Cache agreement over any sequence of these calls: from a cache that holds the breakdown of its label, it does so
      throughout, and every accessor answers with its part of the civil date of its argument. */
  method CacheAlongRun(clock: TimeService, start: nat, calls: seq<Call>) returns (answers: seq<int>)
    requires clock.Valid() && clock.Coherent() && clock.sampled <= start
    requires forall i :: 0 <= i < |calls| && calls[i].AskNow? ==> forall j: nat :: Steady(calls[i].samples, j)
    modifies clock
    ensures clock.Valid() && clock.Coherent() && |answers| == |calls|
    ensures forall i :: 0 <= i < |calls| && calls[i].Ask? ==>
        answers[i] == Meaning(calls[i].part, Breakdown(calls[i].t))
  {
    hide *;
    answers := [];
    var time := start;
    for n := 0 to |calls|
      invariant clock.Valid() && clock.Coherent() && clock.sampled <= time && |answers| == n
      invariant forall i :: 0 <= i < n && calls[i].Ask? ==>
          answers[i] == Meaning(calls[i].part, Breakdown(calls[i].t))
    {
      var answer := 0;
      match calls[n] {
        case Ask(part, t) => answer := Accessor(clock, part, t);
        case SetTo(t, after) =>
          time := time + after;
          clock.SetTime(t, time, Millis(time));
        case Adjust(adjustment) => clock.AdjustTime(adjustment);
        case AskNow(samples, provider) => answer, time := NowFrom(clock, time, samples, provider);
      }
      answers := answers + [answer];
    }
  }

  /** The all-zero initial cache is labelled 0 but is not the date of instant 0: `month(0)` is 0. */
  method FirstMonth() returns (m: Byte)
    ensures m == 0 && Breakdown(0).month != 0
  {
    var clock := new TimeService();
    assert !clock.Coherent();
    clock.RefreshCache(0);
    m := clock.tm.month;
  }
}
