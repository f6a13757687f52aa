/** What the timers of a port do, on the true clock and event by event: exactly when a started port is given up, when an
    unmanaged one switches media and when a stopping one is killed, from a start or a stop on. The statements look only
    at the events; a timer appears only in the lemmas that lead to them. */
module SupervisorTiming {
  import opened Machine
  import opened Timer
  import opened Supervisor
  import opened SupervisorRuns

  /** Everything but commands. */
  predicate Passive(e: Event) {
    e.Tick? || e.Poll? || e.Ping? || e.Pulse?
  }

  predicate AllPassive(es: seq<Event>) {
    forall i :: 0 <= i < |es| ==> Passive(es[i])
  }

  /** Nothing but the time has changed. */
  predicate OnlyTime(c: Core, d: Core) {
    d == c.(rail := c.rail.(clock := d.rail.clock))
  }

  // ----- heartbeats

  /** A heartbeat reaches the port: an external one at once, one on the line when a poll finds eight pulses. */
  predicate Beats(e: Event, pulses: Byte) {
    e.Ping? || (e.Poll? && pulses >= 8)
  }

  function PulsesAfter(e: Event, pulses: Byte): Byte {
    if e.Pulse? then (pulses + 1) % 256 else if e.Poll? && pulses >= 8 then 0 else pulses
  }

  /** The time since the last heartbeat, after one more event. */
  function SinceBeat(e: Event, pulses: Byte, since: nat): nat {
    if e.Tick? then since + e.ms else if Beats(e, pulses) then 0 else since
  }

  /** Whenever the port is polled, the last heartbeat is at most an hour old, as the 32-bit counter shows it. */
  predicate Attended(es: seq<Event>, pulses: Byte, since: nat)
    decreases |es|
  {
    es == [] ||
      var s := SinceBeat(es[0], pulses, since);
      (es[0].Poll? ==> s % WORD32 <= 3600000) && Attended(es[1..], PulsesAfter(es[0], pulses), s)
  }

  /** Heartbeats are never more than an hour apart in true time. */
  predicate Frequent(es: seq<Event>, pulses: Byte, since: nat)
    decreases |es|
  {
    since <= 3600000 && (es == [] || Frequent(es[1..], PulsesAfter(es[0], pulses), SinceBeat(es[0], pulses, since)))
  }

  lemma {:induction false} FrequentIsAttended(es: seq<Event>, pulses: Byte, since: nat)
    requires Frequent(es, pulses, since)
    ensures Attended(es, pulses, since)
    decreases |es|
  {
    if es != [] {
      FrequentIsAttended(es[1..], PulsesAfter(es[0], pulses), SinceBeat(es[0], pulses, since));
    }
  }

  /** Started under management with a watched heartbeat, last reset `since` ms ago. */
  predicate Watched(p: Port, since: nat) {
    && p.core.phase == Started && p.core.managed && p.watchHeartbeat
    && since <= p.core.rail.clock && p.timers.heartbeat == Millis(p.core.rail.clock - since)
  }

  /** The heartbeat and fault updates of a poll. */
  lemma WatchedPrelude(p: Port, milliamps: Short, since: nat)
    requires Watched(p, since)
    ensures var a := UpdateFault(UpdateHeartbeat(p), milliamps);
            && a.core == p.core && Watched(a, SinceBeat(Poll(milliamps), p.pulses, since))
            && a.pulses == PulsesAfter(Poll(milliamps), p.pulses)
  {
  }

  lemma WatchedUpdate(p: Port, since: nat)
    requires Watched(p, since)
    ensures var q := UpdateManaged(p);
            && q.pulses == p.pulses
            && if since % WORD32 > 3600000 then q.core.history.failed == p.core.history.failed + 1
               else q.core == p.core && Watched(q, since)
  {
    ElapsedIsTrue(p.core.rail.clock, p.core.rail.clock - since);
    hide Elapsed, Millis;
  }

  /** One event: the port is given up exactly by a poll more than an hour after the last heartbeat. */
  lemma WatchedEvent(p: Port, e: Event, since: nat)
    requires Watched(p, since) && Passive(e)
    ensures var (q, s) := (Apply(p, e), SinceBeat(e, p.pulses, since));
            && q.pulses == PulsesAfter(e, p.pulses)
            && if e.Poll? && s % WORD32 > 3600000 then q.core.history.failed == p.core.history.failed + 1
               else OnlyTime(p.core, q.core) && Watched(q, s)
  {
    match e
    case Poll(milliamps) =>
      hide UpdateFault, UpdateHeartbeat, UpdateManaged, SinceBeat, Millis;
      WatchedPrelude(p, milliamps, since);
      WatchedUpdate(UpdateFault(UpdateHeartbeat(p), milliamps), SinceBeat(e, p.pulses, since));
    case _ =>
      hide Update, Disable;
  }

  lemma {:induction false} WatchedRun(p: Port, es: seq<Event>, since: nat)
    requires Watched(p, since) && AllPassive(es)
    ensures Attended(es, p.pulses, since) <==> Run(p, es).core.history.failed == p.core.history.failed
    ensures Attended(es, p.pulses, since) ==> OnlyTime(p.core, Run(p, es).core)
    decreases |es|
  {
    if es != [] {
      hide Apply, Watched, SinceBeat, PulsesAfter;
      var (e, q) := (es[0], Apply(p, es[0]));
      WatchedEvent(p, e, since);
      var s := SinceBeat(e, p.pulses, since);
      if e.Poll? && s % WORD32 > 3600000 {
        RunGrows(q, es[1..]);
      } else {
        WatchedRun(q, es[1..], s);
      }
    }
  }

  /** A managed port whose heartbeat is not watched runs on. */
  lemma UnwatchedEvent(p: Port, e: Event)
    requires p.core.phase == Started && p.core.managed && !p.watchHeartbeat && Passive(e)
    ensures OnlyTime(p.core, Apply(p, e).core) && !Apply(p, e).watchHeartbeat
  {
    match e
    case Poll(milliamps) =>
      hide UpdateFault, UpdateHeartbeat, Exceeds;
      UnwatchedPrelude(p, milliamps);
    case _ =>
      hide Update, Disable;
  }

  lemma UnwatchedPrelude(p: Port, milliamps: Short)
    requires p.core.phase == Started
    ensures var a := UpdateFault(UpdateHeartbeat(p), milliamps);
            a.core == p.core && a.watchHeartbeat == p.watchHeartbeat
  {
    hide LevelOf;
  }

  lemma {:induction false} UnwatchedRun(p: Port, es: seq<Event>)
    requires p.core.phase == Started && p.core.managed && !p.watchHeartbeat && AllPassive(es)
    ensures OnlyTime(p.core, Run(p, es).core)
    decreases |es|
  {
    if es != [] {
      hide Apply;
      UnwatchedEvent(p, es[0]);
      UnwatchedRun(Apply(p, es[0]), es[1..]);
    }
  }

  lemma StartedState(p: Port, bootTime: Word)
    requires p.core.phase == Stopped
    ensures var a := Start(p, bootTime);
            && a.core.phase == Started && a.core.managed == (p.core.failures < 1024)
            && a.core.rail.powered && a.core.rail.journal == On
            && a.core.history.failed == p.core.history.failed && a.core.history.switched == p.core.history.switched
            && a.timers.heartbeat == a.timers.state == Millis(a.core.rail.clock)
            && a.pulses == p.pulses && a.watchHeartbeat == p.watchHeartbeat
  {
    hide Switch, Book;
  }

  /** From a managed start on, without commands: the port is given up if and only if its heartbeat is watched and some
      poll finds the last one, or the start, more than an hour ago. Until then it stays started, with power, its journal
      ON and its failures uncounted. */
  lemma HeartbeatExact(p: Port, bootTime: Word, es: seq<Event>)
    requires p.core.phase == Stopped && p.core.failures < 1024 && AllPassive(es)
    ensures var (q, kept) := (Run(Start(p, bootTime), es).core, !p.watchHeartbeat || Attended(es, p.pulses, 0));
            && (q.history.failed == p.core.history.failed <==> kept)
            && (kept ==> q.phase == Started && q.rail.powered && q.rail.journal == On)
  {
    hide Start, Run, Attended, Millis;
    StartedState(p, bootTime);
    var a := Start(p, bootTime);
    if p.watchHeartbeat {
      WatchedRun(a, es, 0);
    } else {
      UnwatchedRun(a, es);
    }
  }

  /** In particular a port that sends heartbeats at most an hour apart is never given up. */
  lemma HeartbeatsKeepRunning(p: Port, bootTime: Word, es: seq<Event>)
    requires p.core.phase == Stopped && p.core.failures < 1024 && AllPassive(es)
    requires Frequent(es, p.pulses, 0)
    ensures var q := Run(Start(p, bootTime), es).core;
            && q.phase == Started && q.rail.powered && q.history.failed == p.core.history.failed
  {
    hide Start, Run, Attended, Frequent;
    FrequentIsAttended(es, p.pulses, 0);
    HeartbeatExact(p, bootTime, es);
  }

  // ----- stopping and switching

  function Passed(e: Event, since: nat): nat {
    if e.Tick? then since + e.ms else since
  }

  /** No poll comes later than the limit, as the 32-bit counter shows it. */
  predicate PolledWithin(es: seq<Event>, since: nat, limit: Word)
    decreases |es|
  {
    es == [] || ((es[0].Poll? ==> since % WORD32 <= limit) && PolledWithin(es[1..], Passed(es[0], since), limit))
  }

  /** In its state since `since` ms. */
  predicate InState(p: Port, since: nat) {
    since <= p.core.rail.clock && p.timers.state == Millis(p.core.rail.clock - since)
  }

  lemma KillEffect(p: Port)
    requires p.core.phase != Disabled
    ensures var q := Kill(p);
            && q.core.phase == Stopped && !q.core.rail.powered && q.stopTimeout == p.stopTimeout
            && |p.core.rail.moments| < |q.core.rail.moments|
  {
    hide Switch;
  }

  lemma StoppingUpdate(p: Port, since: nat)
    requires p.core.phase == Stopping && InState(p, since)
    ensures var q := UpdateStopping(p);
            if since % WORD32 > p.stopTimeout then
              && q.core.phase == Stopped && !q.core.rail.powered && q.stopTimeout == 60000
              && |p.core.rail.moments| < |q.core.rail.moments|
            else q.core == p.core && InState(q, since) && q.stopTimeout == p.stopTimeout
  {
    ElapsedIsTrue(p.core.rail.clock, p.core.rail.clock - since);
    hide Elapsed, Millis, Kill, MessageSent;
    var b := MessageSent(p).(stopTimeout := DEFAULT_STOP_TIMEOUT);
    if since % WORD32 > p.stopTimeout {
      assert UpdateStopping(p) == Kill(b);
      hide UpdateStopping;
      KillEffect(b);
    } else {
      assert UpdateStopping(p) == MessageSent(p);
    }
  }

  /** One event: the port is killed exactly by a poll later than its stop timeout, which is then the default again. */
  lemma StoppingEvent(p: Port, e: Event, since: nat)
    requires p.core.phase == Stopping && InState(p, since) && Passive(e)
    ensures var q := Apply(p, e);
            if e.Poll? && since % WORD32 > p.stopTimeout then
              && q.core.phase == Stopped && !q.core.rail.powered && q.stopTimeout == 60000
              && |p.core.rail.moments| < |q.core.rail.moments|
            else OnlyTime(p.core, q.core) && InState(q, Passed(e, since)) && q.stopTimeout == p.stopTimeout
  {
    match e
    case Poll(milliamps) => StoppingPollExact(p, milliamps, since);
    case _ =>
      hide Update, Disable;
  }

  lemma StoppingPollExact(p: Port, milliamps: Short, since: nat)
    requires p.core.phase == Stopping && InState(p, since)
    ensures var q := Apply(p, Poll(milliamps));
            if since % WORD32 > p.stopTimeout then
              && q.core.phase == Stopped && !q.core.rail.powered && q.stopTimeout == 60000
              && |p.core.rail.moments| < |q.core.rail.moments|
            else q.core == p.core && InState(q, since) && q.stopTimeout == p.stopTimeout
  {
    hide UpdateFault, UpdateHeartbeat, UpdateStopping, Millis;
    StoppingPrelude(p, milliamps);
    StoppingUpdate(UpdateFault(UpdateHeartbeat(p), milliamps), since);
  }

  lemma {:induction false} StoppingRun(p: Port, es: seq<Event>, since: nat)
    requires p.core.phase == Stopping && InState(p, since) && AllPassive(es)
    ensures PolledWithin(es, since, p.stopTimeout) <==> |Run(p, es).core.rail.moments| == |p.core.rail.moments|
    ensures PolledWithin(es, since, p.stopTimeout) ==> OnlyTime(p.core, Run(p, es).core)
    decreases |es|
  {
    if es != [] {
      hide Apply, InState;
      var (e, q) := (es[0], Apply(p, es[0]));
      StoppingEvent(p, e, since);
      if e.Poll? && since % WORD32 > p.stopTimeout {
        RunGrows(q, es[1..]);
      } else {
        StoppingRun(q, es[1..], Passed(e, since));
      }
    }
  }

  /** From a stop on, without commands: the relay is left alone if and only if no poll comes later than the stop
      timeout, heartbeats or not; until then the port keeps its power. */
  lemma StopExact(p: Port, es: seq<Event>)
    requires p.core.phase == Started && AllPassive(es)
    ensures var (q, kept) := (Run(Stop(p), es).core, PolledWithin(es, 0, p.stopTimeout));
            && (|q.rail.moments| == |p.core.rail.moments| <==> kept)
            && (kept ==> q.phase == Stopping && q.rail.powered == p.core.rail.powered)
  {
    hide Run, PolledWithin, Millis;
    StoppingRun(Stop(p), es, 0);
  }

  lemma UnmanagedUpdate(p: Port, since: nat)
    requires p.core.phase == Started && !p.core.managed && InState(p, since)
    ensures var q := UpdateUnmanaged(p);
            if since % WORD32 > 14400000 then q.core.history.switched == p.core.history.switched + 1
            else q == p
  {
    ElapsedIsTrue(p.core.rail.clock, p.core.rail.clock - since);
    hide Elapsed, Millis, NextMedia, SelectMedia;
  }

  lemma UnmanagedPrelude(p: Port, milliamps: Short)
    requires p.core.phase == Started
    ensures var a := UpdateFault(UpdateHeartbeat(p), milliamps);
            a.core == p.core && a.timers.state == p.timers.state
  {
  }

  lemma UnmanagedEvent(p: Port, e: Event, since: nat)
    requires p.core.phase == Started && !p.core.managed && InState(p, since) && Passive(e)
    ensures var q := Apply(p, e);
            if e.Poll? && since % WORD32 > 14400000 then q.core.history.switched == p.core.history.switched + 1
            else OnlyTime(p.core, q.core) && InState(q, Passed(e, since))
  {
    match e
    case Poll(milliamps) =>
      hide UpdateFault, UpdateHeartbeat, UpdateUnmanaged, Millis;
      UnmanagedPrelude(p, milliamps);
      UnmanagedUpdate(UpdateFault(UpdateHeartbeat(p), milliamps), since);
    case _ =>
      hide Update, Disable;
  }

  lemma {:induction false} UnmanagedPassiveRun(p: Port, es: seq<Event>, since: nat)
    requires p.core.phase == Started && !p.core.managed && InState(p, since) && AllPassive(es)
    ensures PolledWithin(es, since, 14400000) <==> Run(p, es).core.history.switched == p.core.history.switched
    ensures PolledWithin(es, since, 14400000) ==> OnlyTime(p.core, Run(p, es).core)
    decreases |es|
  {
    if es != [] {
      hide Apply, InState;
      var (e, q) := (es[0], Apply(p, es[0]));
      UnmanagedEvent(p, e, since);
      if e.Poll? && since % WORD32 > 14400000 {
        RunGrows(q, es[1..]);
      } else {
        UnmanagedPassiveRun(q, es[1..], Passed(e, since));
      }
    }
  }

  /** From an unmanaged start on, without commands: the medium is switched if and only if some poll comes more than four
      hours after the start, heartbeats or not; until then the port stays started with power. */
  lemma SwitchExact(p: Port, bootTime: Word, es: seq<Event>)
    requires p.core.phase == Stopped && p.core.failures >= 1024 && AllPassive(es)
    ensures var (q, kept) := (Run(Start(p, bootTime), es).core, PolledWithin(es, 0, 14400000));
            && (q.history.switched == p.core.history.switched <==> kept)
            && (kept ==> q.phase == Started && q.rail.powered)
  {
    hide Start, Run, PolledWithin, Millis;
    StartedState(p, bootTime);
    UnmanagedPassiveRun(Start(p, bootTime), es, 0);
  }

  // ----- what the operations leave alone

  /** Boot log, current level and stop timeout. */
  predicate SameExtras(p: Port, q: Port) {
    q.bootLog == p.bootLog && q.level == p.level && q.stopTimeout == p.stopTimeout
  }

  lemma KillKeepsExtras(p: Port)
    ensures SameExtras(p, Kill(p))
  {
    hide Switched;
    SwitchedKeepsExtras(p, false);
  }

  lemma SwitchedKeepsExtras(p: Port, on: bool)
    ensures SameExtras(p, Switched(p, on))
  {
    hide Power;
  }

  lemma HeartbeatKeepsExtras(p: Port)
    ensures SameExtras(p, OnHeartbeat(p))
  {
    hide Kill, RecordAs;
    var a := p.(timers := p.timers.(heartbeat := Now(p)));
    KillKeepsExtras(a);
    KillKeepsExtras(a.(core := RecordAs(a.core, false)));
  }

  lemma StateKeepsExtras(p: Port)
    ensures var q := UpdateState(p);
            q.bootLog == p.bootLog && q.level == p.level && (q.stopTimeout == p.stopTimeout || q.stopTimeout == 60000)
  {
    hide Kill, Exceeds, SelectMedia, NextMedia, RecordAs, Millis, MessageSent;
    match p.core.phase
    case Starting => KillKeepsExtras(p.(core := CountFailure(p.core)));
    case Stopping => KillKeepsExtras(MessageSent(p).(stopTimeout := DEFAULT_STOP_TIMEOUT));
    case _ =>
  }

  lemma PollKeepsExtras(p: Port, milliamps: Short)
    ensures var q := Apply(p, Poll(milliamps));
            && q.bootLog == p.bootLog && (q.stopTimeout == p.stopTimeout || q.stopTimeout == 60000)
            && q.level == if milliamps == 0xFFFF then p.level else LevelOf(milliamps)
  {
    hide OnHeartbeat, UpdateState, LevelOf;
    HeartbeatKeepsExtras(p.(pulses := 0));
    StateKeepsExtras(UpdateFault(UpdateHeartbeat(p), milliamps));
  }

  lemma StartExtras(p: Port, bootTime: Word)
    ensures var q := Start(p, bootTime);
            if p.core.phase == Stopped then SameExtras(p.(bootLog := Append(p.bootLog, bootTime)), q) else q == p
  {
    hide Switched, Book, Append;
    SwitchedKeepsExtras(Prepared(p, bootTime), true);
  }

  lemma OtherExtras(p: Port, e: Event)
    requires !e.Poll? && !e.DoStart?
    ensures var q := Apply(p, e);
            SameExtras(p, q) || (e.StopTimeout? && q.bootLog == p.bootLog && q.level == p.level)
  {
    hide OnHeartbeat, Kill, SelectMedia, RecordAs, Start, Update, Millis;
    HeartbeatKeepsExtras(p);
    KillKeepsExtras(p);
    KillKeepsExtras(p.(core := RecordAs(p.core, false)));
  }

  // ----- what `init` resets

  lemma StopTimeoutStep(p: Port, e: Event)
    requires p.stopTimeout == 60000 && !e.StopTimeout?
    ensures Apply(p, e).stopTimeout == 60000
  {
    hide Apply;
    match e
    case Poll(milliamps) => PollKeepsExtras(p, milliamps);
    case DoStart(bootTime) =>
      StartEvent(p, bootTime);
      hide Start;
      StartExtras(p, bootTime);
    case _ => OtherExtras(p, e);
  }

  /** Unless told otherwise, a port gets a minute to stop. */
  lemma {:induction false} DefaultStopTimeout(p: Port, es: seq<Event>)
    requires p.stopTimeout == 60000 && forall i :: 0 <= i < |es| ==> !es[i].StopTimeout?
    ensures Run(p, es).stopTimeout == 60000
    decreases |es|
  {
    if es != [] {
      hide Apply;
      StopTimeoutStep(p, es[0]);
      DefaultStopTimeout(Apply(p, es[0]), es[1..]);
    }
  }

  /** A boot right after `init` is by the counters, whatever was forced before, and its stop will take a minute. */
  lemma FirstBootAfterInit(p: Port, bootTime: Word)
    requires RecordEnabled(p.core)
    ensures var (a, n) := (Start(Init(p), bootTime), |p.core.history.boots|);
            && |a.core.history.boots| == n + 1 && a.stopTimeout == 60000
            && var boot := a.core.history.boots[n];
               && !boot.forced && boot.managed == (p.core.failures < 1024)
               && boot.media == if boot.managed then ManagedMedia(p.core.config, p.core.failures)
                                else ParityMedia(p.core.config, p.core.attempts)
  {
    hide Switch, SelectMedia;
  }

  // ----- the boot log

  /** The times of the successful starts of a run. */
  function BootTimes(p: Port, es: seq<Event>): seq<Word>
    decreases |es|
  {
    if es == [] then []
    else (if es[0].DoStart? && p.core.phase == Stopped then [es[0].bootTime] else [])
         + BootTimes(Apply(p, es[0]), es[1..])
  }

  lemma LogStep(p: Port, e: Event)
    ensures Apply(p, e).bootLog
            == if e.DoStart? && p.core.phase == Stopped then Append(p.bootLog, e.bootTime) else p.bootLog
  {
    hide Apply, Append;
    match e
    case Poll(milliamps) => PollKeepsExtras(p, milliamps);
    case DoStart(bootTime) =>
      StartEvent(p, bootTime);
      hide Start;
      StartExtras(p, bootTime);
    case _ => OtherExtras(p, e);
  }

  /** The same from a log that holds the latest eight of some earlier times. */
  lemma {:induction false} LogContinues(p: Port, es: seq<Event>, earlier: seq<Word>)
    requires p.bootLog == Latest(earlier)
    ensures Run(p, es).bootLog == Latest(earlier + BootTimes(p, es))
    decreases |es|
  {
    if es == [] {
      assert earlier + [] == earlier;
    } else {
      hide *;
      var (e, q, rest) := (es[0], Apply(p, es[0]), es[1..]);
      RunFirst(p, es);
      LogStep(p, e);
      if e.DoStart? && p.core.phase == Stopped {
        AppendLatest(earlier, e.bootTime);
        LogContinues(q, rest, earlier + [e.bootTime]);
        Regroup(earlier, e.bootTime, BootTimes(q, rest));
      } else {
        LogContinues(q, rest, earlier);
      }
    }
  }

  /** The first event of a run. */
  lemma RunFirst(p: Port, es: seq<Event>)
    requires es != []
    ensures var q := Apply(p, es[0]);
            && Run(p, es) == Run(q, es[1..])
            && BootTimes(p, es) == if es[0].DoStart? && p.core.phase == Stopped
                                   then [es[0].bootTime] + BootTimes(q, es[1..]) else BootTimes(q, es[1..])
  {
    hide Apply;
    assert [] + BootTimes(Apply(p, es[0]), es[1..]) == BootTimes(Apply(p, es[0]), es[1..]);
  }

  lemma Regroup(a: seq<Word>, t: Word, b: seq<Word>)
    ensures (a + [t]) + b == a + ([t] + b)
  {
  }

  /** The port's boot log holds the latest eight times of successful starts, oldest first. */
  lemma LogAlongRun(p: Port, es: seq<Event>)
    requires |p.bootLog| <= 8
    ensures Run(p, es).bootLog == Latest(p.bootLog + BootTimes(p, es))
  {
    hide Run, BootTimes;
    LogContinues(p, es, p.bootLog);
  }

  // ----- the current level

  /** How many of the three thresholds a reading reaches. */
  function Reached(milliamps: Short): nat {
    (if 120 <= milliamps then 1 else 0) + (if 300 <= milliamps then 1 else 0) + (if 850 <= milliamps then 1 else 0)
  }

  function Rank(level: Level): nat {
    match level
    case Low => 0
    case Normal => 1
    case Stressed => 2
    case High => 3
  }

  /** The rank of the last reading of a run; 0xFFFF is none. */
  function LastRank(rank: nat, es: seq<Event>): nat
    decreases |es|
  {
    if es == [] then rank
    else LastRank(if es[0].Poll? && es[0].milliamps != 0xFFFF then Reached(es[0].milliamps) else rank, es[1..])
  }

  lemma LevelRank(milliamps: Short)
    ensures Rank(LevelOf(milliamps)) == Reached(milliamps)
  {
  }

  lemma LevelStep(p: Port, e: Event)
    ensures Apply(p, e).level == if e.Poll? && e.milliamps != 0xFFFF then LevelOf(e.milliamps) else p.level
  {
    hide Apply, LevelOf;
    match e
    case Poll(milliamps) => PollKeepsExtras(p, milliamps);
    case DoStart(bootTime) =>
      StartEvent(p, bootTime);
      hide Start;
      StartExtras(p, bootTime);
    case _ => OtherExtras(p, e);
  }

  /** The level is that of the last reading of the current. */
  lemma {:induction false} LevelAlongRun(p: Port, es: seq<Event>)
    ensures Rank(Run(p, es).level) == LastRank(Rank(p.level), es)
    decreases |es|
  {
    if es != [] {
      hide Apply, LevelOf, Reached, Rank;
      LevelStep(p, es[0]);
      if es[0].Poll? {
        LevelRank(es[0].milliamps);
      }
      LevelAlongRun(Apply(p, es[0]), es[1..]);
    }
  }
}
