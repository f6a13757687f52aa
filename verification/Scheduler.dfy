/** The delay test of the LUFA task scheduler (Scheduler.c): a comparison of 16-bit tick values. The true, unbounded
    tick count tells what it measures. */
module Scheduler {
  import opened Machine

  const MAX_DELAYCTR_COUNT := 65535

  /** The test of `Scheduler_HasDelayElapsed`. */
  predicate Due(delay: Short, tick: Short, counter: Short) {
    if tick >= counter then tick - counter >= delay
    else MAX_DELAYCTR_COUNT - counter + tick >= delay
  }

  /** Wraps of the 16-bit counter up to a true tick. */
  function Wraps(t: nat): nat {
    t / WORD16
  }

  /** The test measures true time modulo 2^16, less one tick when the counter reads below its last reset. */
  lemma DueInTrueTime(delay: Short, now: nat, last: nat)
    requires last <= now
    ensures var below := now % WORD16 < last % WORD16;
            Due(delay, now % WORD16, last % WORD16) <==> (now - last) % WORD16 - (if below then 1 else 0) >= delay
  {
    var a, b := now / WORD16, last / WORD16;
    assert now - last == WORD16 * (a - b) + (now % WORD16 - last % WORD16);
  }

  /** Within one period of the counter, reading below means exactly that it wrapped. */
  lemma WrappedOnce(now: nat, last: nat)
    requires last <= now < last + WORD16
    ensures (now - last) % WORD16 == now - last
    ensures Wraps(now) == Wraps(last) + (if now % WORD16 < last % WORD16 then 1 else 0)
  {
    var a, b := now / WORD16, last / WORD16;
    assert now == WORD16 * a + now % WORD16 && last == WORD16 * b + last % WORD16;
  }

  /** `Scheduler_HasDelayElapsed` at true tick `now`, with a counter last reset at true tick `last`. However rarely
      it is polled it never fires early; polled within a period of the counter it fires at most a tick late. */
  method HasDelayElapsed(delay: Short, tick: Short, counter: Short, ghost now: nat, ghost last: nat)
    returns (elapsed: bool, newCounter: Short)
    requires last <= now && tick == now % WORD16 && counter == last % WORD16
    ensures elapsed ==> now - last >= delay
    ensures delay < now - last < WORD16 ==> elapsed
    ensures elapsed <==> (now - last) % WORD16 - (if tick < counter then 1 else 0) >= delay
    ensures newCounter == if elapsed then tick else counter
  {
    DueInTrueTime(delay, now, last);
    elapsed, newCounter := false, counter;
    if tick >= counter {
      if tick - counter >= delay {
        elapsed, newCounter := true, tick;
      }
    } else {
      if MAX_DELAYCTR_COUNT - counter + tick >= delay {
        elapsed, newCounter := true, tick;
      }
    }
  }

  lemma WrapStep(t: nat)
    requires t > 0
    ensures Wraps(t - 1) <= Wraps(t) <= Wraps(t - 1) + 1
  {
  }

  /** Drift law: polled once per tick from a reset at true tick `start`, the n-th firing comes exactly n delays plus one
      tick for every counter wrap after the reset; and by the last poll the next firing is not yet due. */
  method PollEveryTick(delay: Short, start: nat, ticks: nat) returns (fired: nat, last: nat)
    requires 1 <= delay <= 65534
    ensures start <= last <= start + ticks
    ensures last - start == fired * delay + (Wraps(last) - Wraps(start))
    ensures start + ticks - last - (Wraps(start + ticks) - Wraps(last)) < delay
  {
    fired, last := 0, start;
    var counter: Short := start % WORD16;
    var now := start;
    while now < start + ticks
      invariant start <= last <= now <= start + ticks && counter == last % WORD16
      invariant Wraps(last) <= Wraps(now) <= Wraps(last) + 1
      invariant last - start == fired * delay + (Wraps(last) - Wraps(start))
      invariant now - last - (Wraps(now) - Wraps(last)) < delay
    {
      hide Wraps;
      WrapStep(now + 1);
      now := now + 1;
      WrappedOnce(now, last);
      var elapsed;
      elapsed, counter := HasDelayElapsed(delay, now % WORD16, counter, now, last);
      if elapsed {
        assert (fired + 1) * delay == fired * delay + delay;
        fired, last := fired + 1, now;
      }
    }
  }

  /** With the largest delay the test can fire only from a counter of zero, so it may never fire again. */
  lemma LargestDelay(counter: Short)
    ensures (exists tick: Short :: Due(65535, tick, counter)) <==> counter == 0
  {
    if counter == 0 {
      assert Due(65535, 65535, 0);
    }
  }
}
