/** boards/v3/firmware/Timer.cpp: timers on the wrapping millisecond counter. */
module Timer {
  import opened Machine

  /** `millis()` at a true, unbounded millisecond count. */
  function Millis(clock: nat): Word {
    clock % WORD32
  }

  /** `Timer::elapsed`. */
  function Elapsed(clock: nat, start: Word): Word {
    (Millis(clock) - start) % WORD32
  }

  /** A timer measures true time modulo 2^32, across any number of wraps of the counter. */
  lemma ElapsedIsTrue(clock: nat, reset: nat)
    requires reset <= clock
    ensures Elapsed(clock, Millis(reset)) == (clock - reset) % WORD32
    ensures clock - reset < WORD32 ==> Elapsed(clock, Millis(reset)) == clock - reset
  {
    var a, b := clock / WORD32, reset / WORD32;
    assert clock - reset == WORD32 * (a - b) + (Millis(clock) - Millis(reset));
  }

  /** `Timer::exceeds`. */
  predicate Exceeds(clock: nat, start: Word, limit: Word) {
    Elapsed(clock, start) > limit
  }
}
