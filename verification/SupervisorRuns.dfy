/** What holds over every run of a port: theorems about `Supervisor.Run` for all states and all event
    sequences. A run acts on the core as a sequence of moves (`Decompose`), so each theorem is an invariant of
    the moves. */
module SupervisorRuns {
  import opened Machine
  import opened Timer
  import opened Supervisor

  // ----- runs as sequences of moves

  function DoAll(c: Core, ms: seq<Move>): Core
    decreases |ms|
  {
    if ms == [] then c else DoAll(Do(c, ms[0]), ms[1..])
  }

  predicate Legal(c: Core, ms: seq<Move>)
    decreases |ms|
  {
    ms == [] || (Can(c, ms[0]) && Legal(Do(c, ms[0]), ms[1..]))
  }

  predicate NoForce(es: seq<Event>) {
    forall e :: e in es ==> !e.Force?
  }

  predicate Unforced(ms: seq<Move>) {
    forall m :: m in ms ==> !m.Forces?
  }

  lemma {:induction false} Decompose(p: Port, es: seq<Event>) returns (ms: seq<Move>)
    ensures Legal(p.core, ms) && Run(p, es).core == DoAll(p.core, ms)
    ensures NoForce(es) ==> Unforced(ms)
    ensures forall m :: m in ms && m.Forces? ==> Force(m.media) in es
    decreases |es|
  {
    if es == [] {
      ms := [];
    } else {
      hide Apply, Do, Can, Moves;
      EventIsMoves(p, es[0]);
      var (a, b) := Moves(p, es[0]);
      var rest := Decompose(Apply(p, es[0]), es[1..]);
      ms := [a, b] + rest;
      assert ms[1..] == [b] + rest && ms[1..][1..] == rest;
      assert es[0] in es;
    }
  }

  /** No event of the run meets the condition when its turn comes. */
  predicate Never(p: Port, es: seq<Event>, bad: (Port, Event) -> bool)
    decreases |es|
  {
    es == [] || (!bad(p, es[0]) && Never(Apply(p, es[0]), es[1..], bad))
  }

  /** The condition holds before the run and after each of its events. */
  predicate Always(p: Port, es: seq<Event>, good: Core -> bool)
    decreases |es|
  {
    good(p.core) && (es == [] || Always(Apply(p, es[0]), es[1..], good))
  }

  lemma {:induction false} AlwaysAtEnd(p: Port, es: seq<Event>, good: Core -> bool)
    requires Always(p, es, good)
    ensures good(Run(p, es).core)
    decreases |es|
  {
    if es != [] {
      AlwaysAtEnd(Apply(p, es[0]), es[1..], good);
    }
  }

  // ----- counters only grow

  predicate Grows(c: Core, d: Core) {
    && d.config == c.config && |c.rail.moments| <= |d.rail.moments|
    && c.history.boots <= d.history.boots
    && c.history.failed <= d.history.failed
    && c.history.revived <= d.history.revived
    && c.history.switched <= d.history.switched
  }

  lemma MoveGrows(c: Core, m: Move)
    ensures Grows(c, Do(c, m))
  {
    hide Switch, NextMedia, SelectMedia;
  }

  lemma BootsGrow(c: Core, m: Move)
    ensures m.Boots? ==> |Do(c, m).history.boots| == |c.history.boots| + 1
  {
    hide Switch, Book, NextMedia, SelectMedia;
  }

  lemma {:induction false} MovesGrow(c: Core, ms: seq<Move>)
    ensures Grows(c, DoAll(c, ms))
    decreases |ms|
  {
    if ms != [] {
      hide Do;
      MoveGrows(c, ms[0]);
      MovesGrow(Do(c, ms[0]), ms[1..]);
    }
  }

  lemma RunGrows(p: Port, es: seq<Event>)
    ensures Grows(p.core, Run(p, es).core)
  {
    hide Run, DoAll, Legal, Grows;
    var ms := Decompose(p, es);
    MovesGrow(p.core, ms);
  }

  // ----- the relay journal

  /** Journal and power agree. */
  predicate Settled(r: Rail) {
    (r.journal == On && r.powered) || (r.journal == Off && !r.powered)
  }

  predicate JournalSound(c: Core) {
    Settled(c.rail) && TruthfulFrom(c.rail.moments, 0)
  }

  lemma RecordAsKeepsJournal(c: Core, enabled: bool)
    requires JournalSound(c)
    ensures JournalSound(RecordAs(c, enabled))
  {
  }

  lemma MoveKeepsJournal(c: Core, m: Move)
    requires JournalSound(c)
    ensures JournalSound(Do(c, m))
  {
    hide Switch, Book, NextMedia, SelectMedia, TruthfulFrom, RecordAs;
    RecordAsKeepsJournal(c, true);
    RecordAsKeepsJournal(c, false);
  }

  lemma {:induction false} MovesKeepJournal(c: Core, ms: seq<Move>)
    requires JournalSound(c)
    ensures JournalSound(DoAll(c, ms))
    decreases |ms|
  {
    if ms != [] {
      hide Do, JournalSound;
      MoveKeepsJournal(c, ms[0]);
      MovesKeepJournal(Do(c, ms[0]), ms[1..]);
    }
  }

  /** Write-ahead journal: at every intermediate step of every run a journal entry ON or OFF is true of the
      power, and every completed operation leaves such an entry. */
  lemma JournalAlongRun(p: Port, es: seq<Event>)
    requires JournalSound(p.core)
    ensures JournalSound(Run(p, es).core)
  {
    hide Run, DoAll, Legal;
    var ms := Decompose(p, es);
    MovesKeepJournal(p.core, ms);
  }

  // ----- enablement

  /** Ports 1..4 are disabled exactly when the record says so; port 0 never is; STARTING is never entered. */
  predicate EnablementSound(c: Core) {
    && c.phase != Starting
    && (if Latched(c) then c.phase != Disabled else c.phase == Disabled <==> !c.rail.enabled)
  }

  predicate DisabledIsOff(c: Core) {
    c.phase == Disabled ==> !c.rail.powered
  }

  lemma MoveKeepsEnablement(c: Core, m: Move)
    requires EnablementSound(c) && Can(c, m)
    ensures EnablementSound(Do(c, m))
    ensures DisabledIsOff(c) ==> DisabledIsOff(Do(c, m))
  {
    hide Switch, Book, NextMedia, SelectMedia;
  }

  lemma {:induction false} MovesKeepEnablement(c: Core, ms: seq<Move>)
    requires EnablementSound(c) && Legal(c, ms)
    ensures EnablementSound(DoAll(c, ms))
    ensures DisabledIsOff(c) ==> DisabledIsOff(DoAll(c, ms))
    decreases |ms|
  {
    if ms != [] {
      hide Do, Can, EnablementSound, DisabledIsOff;
      MoveKeepsEnablement(c, ms[0]);
      MovesKeepEnablement(Do(c, ms[0]), ms[1..]);
    }
  }

  /** From `init` on, whatever the port held before. */
  lemma EnablementAlongRun(p: Port, es: seq<Event>)
    ensures EnablementSound(Run(Init(p), es).core)
    ensures RecordEnabled(p.core) || !p.core.rail.powered ==> DisabledIsOff(Run(Init(p), es).core)
  {
    hide Run, DoAll, Legal;
    var ms := Decompose(Init(p), es);
    MovesKeepEnablement(Init(p).core, ms);
  }

  /** A heartbeat from a disabled port repeats `disable`, but `kill` refuses a disabled port, so the relay is
      left alone. */
  lemma HeartbeatNeverKillsDisabled(p: Port)
    requires p.core.phase == Disabled
    ensures var (r, q) := (p.core.rail, OnHeartbeat(p).core.rail);
            q == r.(enabled := q.enabled, moments := q.moments)
  {
    hide Power, SelectMedia, OnHeartbeat;
    HeartbeatIsMove(p);
    NoMove(p.core);
    if Latched(p.core) {
      assert HeartbeatMove(p) == Idle(0);
    } else {
      assert HeartbeatMove(p) == Repeats;
    }
  }

  // ----- the boot selector

  /** The medium a forced port will boot next, or the one it booted last. */
  function ShownMedia(c: Core): Byte
    requires c.forced || c.history.boots != []
  {
    if c.forced then c.forceMedia else c.history.boots[|c.history.boots| - 1].media
  }

  predicate TwoMedia(media: Byte) {
    media == MEDIA_SD || media == MEDIA_EMMC
  }

  predicate SelectorSound(c: Core) {
    && TwoMedia(c.config.primary) && TwoMedia(c.config.secondary) && (c.forced ==> TwoMedia(c.forceMedia))
    && (c.config.selector < 2 && (c.forced || c.history.boots != []) ==>
          c.selectorPin == (ShownMedia(c) == MEDIA_EMMC))
  }

  lemma MoveKeepsSelector(c: Core, m: Move)
    requires SelectorSound(c) && (m.Forces? ==> TwoMedia(m.media))
    ensures SelectorSound(Do(c, m))
  {
    hide Switch;
  }

  lemma {:induction false} MovesKeepSelector(c: Core, ms: seq<Move>)
    requires SelectorSound(c) && forall m :: m in ms && m.Forces? ==> TwoMedia(m.media)
    ensures SelectorSound(DoAll(c, ms))
    decreases |ms|
  {
    if ms != [] {
      hide Do, SelectorSound;
      MoveKeepsSelector(c, ms[0]);
      MovesKeepSelector(Do(c, ms[0]), ms[1..]);
    }
  }

  /** At every point of a run that forces only real media, the selector pin shows the medium forced for the next boot
      or else the medium of the last boot. */
  lemma SelectorAlongRun(p: Port, es: seq<Event>)
    requires SelectorSound(p.core) && forall e :: e in es && e.Force? ==> TwoMedia(e.media)
    ensures SelectorSound(Run(p, es).core)
  {
    hide Run, DoAll, Legal;
    var ms := Decompose(p, es);
    MovesKeepSelector(p.core, ms);
  }

  // ----- failure accounting

  /** Stays in STARTED that were opened and have not been charged a failure. */
  function Credit(c: Core): int {
    |c.history.boots| + c.history.revived - c.history.failed - (if c.phase == Started then 1 else 0)
  }

  lemma MoveKeepsCredit(c: Core, m: Move)
    requires c.phase != Starting && Can(c, m)
    ensures Do(c, m).phase != Starting && Credit(c) <= Credit(Do(c, m))
  {
    hide Switch, Book, NextMedia, SelectMedia;
    match m
    case Idle(_) =>
    case Boots => BootsGrow(c, m);
    case Stops =>
    case Kills =>
    case Enables =>
    case Disables =>
    case Repeats =>
    case FailsAndStops =>
    case FailsAndDies =>
    case Switches =>
    case Revives =>
    case Forces(_) =>
  }

  lemma {:induction false} MovesKeepCredit(c: Core, ms: seq<Move>)
    requires c.phase != Starting && Legal(c, ms)
    ensures DoAll(c, ms).phase != Starting && Credit(c) <= Credit(DoAll(c, ms))
    decreases |ms|
  {
    if ms != [] {
      hide Do, Can, Credit;
      MoveKeepsCredit(c, ms[0]);
      MovesKeepCredit(Do(c, ms[0]), ms[1..]);
    }
  }

  /** Each stay in STARTED costs at most one boot failure: over any run, failures never outnumber successful
      starts plus revivals (plus the stay the run began in). */
  lemma FailuresArePaidFor(p: Port, es: seq<Event>)
    requires p.core.phase != Starting
    ensures var (h, k) := (p.core.history, Run(p, es).core.history);
            k.failed - h.failed <= |k.boots| - |h.boots| + k.revived - h.revived
                                   + (if p.core.phase == Started then 1 else 0)
  {
    hide Run, DoAll, Legal;
    var ms := Decompose(p, es);
    MovesKeepCredit(p.core, ms);
  }

  predicate WithinLimit(c: Core) {
    && c.phase != Starting
    && c.failures <= FAILURE_LIMIT
    && (c.phase == Started && c.managed ==> c.failures < FAILURE_LIMIT)
  }

  /** A heartbeat comes to a stopped port that was last booted under management and has reached the limit. */
  predicate Overruns(p: Port, e: Event) {
    && (e.Ping? || (e.Poll? && p.pulses >= 8))
    && p.core.phase == Stopped && p.core.managed && p.core.failures >= FAILURE_LIMIT
  }

  /** A move leaves the limit exactly when it revives a managed port that has reached it. */
  lemma MoveWithinLimit(c: Core, m: Move)
    requires WithinLimit(c) && Can(c, m)
    ensures WithinLimit(Do(c, m)) <==> !(m == Revives && c.managed && c.failures == FAILURE_LIMIT)
  {
    hide Switch, Book, NextMedia, SelectMedia;
    match m
    case Idle(_) =>
    case Boots =>
    case Stops =>
    case Kills =>
    case Enables =>
    case Disables =>
    case Repeats =>
    case FailsAndStops =>
    case FailsAndDies =>
    case Switches =>
    case Revives =>
    case Forces(_) =>
  }

  /** The state update never revives, and leaves alone a port that the heartbeat before it has just revived. */
  lemma StateMoveAfterRevival(p: Port, milliamps: Short)
    ensures !Moves(p, Poll(milliamps)).1.Revives?
    ensures p.pulses >= 8 && p.core.phase == Stopped && p.core.managed ==>
        Moves(p, Poll(milliamps)).1 == Idle(0)
  {
    hide Disable;
  }

  /** Which events make the two moves of which one may revive. */
  lemma Revivals(p: Port, e: Event)
    requires p.core.phase != Starting
    ensures var (a, b) := Moves(p, e);
            && (a.Revives? <==> (e.Ping? || (e.Poll? && p.pulses >= 8)) && p.core.phase == Stopped)
            && !b.Revives? && (a.Revives? && p.core.managed ==> b == Idle(0))
  {
    hide Disable, UpdateFault, UpdateHeartbeat, StateMove;
    if e.Poll? {
      StateMoveAfterRevival(p, e.milliamps);
    }
  }

  lemma EventWithinLimit(p: Port, e: Event)
    requires WithinLimit(p.core)
    ensures WithinLimit(Apply(p, e).core) <==> !Overruns(p, e)
  {
    hide Apply, Do, Can, Moves;
    EventIsMoves(p, e);
    Revivals(p, e);
    var (a, b) := Moves(p, e);
    MoveWithinLimit(p.core, a);
    if WithinLimit(Do(p.core, a)) {
      MoveWithinLimit(Do(p.core, a), b);
    } else {
      NoMove(Do(p.core, a));
    }
  }

  /** The failure count stays within 1024, and below it during managed stays, throughout a run if and only if no managed
      port that has reached the limit is revived. */
  lemma {:induction false} FailuresWithinLimit(p: Port, es: seq<Event>)
    requires WithinLimit(p.core)
    ensures Always(p, es, WithinLimit) <==> Never(p, es, Overruns)
    decreases |es|
  {
    if es != [] {
      hide Apply, WithinLimit, Overruns;
      EventWithinLimit(p, es[0]);
      if !Overruns(p, es[0]) {
        FailuresWithinLimit(Apply(p, es[0]), es[1..]);
      }
    }
  }

  /** A revival keeps the old managed flag, so one more timeout counts past the limit. */
  lemma RevivalPassesLimit(p: Port)
    requires p.core.phase == Stopped && p.core.managed && p.watchHeartbeat && p.pulses < 8
    requires p.core.failures == FAILURE_LIMIT
    ensures Run(p, [Ping, Tick(HEARTBEAT_TIMEOUT + 1), Poll(0xFFFF)]).core.failures == FAILURE_LIMIT + 1
  {
    RunThree(p, Ping, Tick(HEARTBEAT_TIMEOUT + 1), Poll(0xFFFF));
    hide Run;
    var b := Apply(Apply(p, Ping), Tick(HEARTBEAT_TIMEOUT + 1));
    ElapsedIsTrue(b.core.rail.clock, p.core.rail.clock);
    hide Elapsed;
    assert Apply(b, Poll(0xFFFF)) == UpdateManaged(b);
  }

  /** The count has reached the limit and no managed stay is open. */
  predicate PastLimit(c: Core) {
    c.phase != Starting && c.failures >= FAILURE_LIMIT && !(c.phase == Started && c.managed)
  }

  predicate AllUnmanaged(boots: seq<Boot>, n: nat) {
    forall i :: n <= i < |boots| ==> !boots[i].managed
  }

  lemma MovePastLimit(c: Core, m: Move, n: nat)
    requires PastLimit(c) && Can(c, m) && AllUnmanaged(c.history.boots, n)
    ensures PastLimit(Do(c, m)) <==> !(m == Revives && c.managed)
    ensures Do(c, m).failures == c.failures
    ensures AllUnmanaged(Do(c, m).history.boots, n)
  {
    hide Switch, NextMedia, SelectMedia;
    match m
    case Idle(_) =>
    case Boots =>
    case Stops =>
    case Kills =>
    case Enables =>
    case Disables =>
    case Repeats =>
    case FailsAndStops =>
    case FailsAndDies =>
    case Switches =>
    case Revives =>
    case Forces(_) =>
  }

  lemma EventPastLimit(p: Port, e: Event, n: nat)
    requires PastLimit(p.core) && AllUnmanaged(p.core.history.boots, n)
    ensures PastLimit(Apply(p, e).core) <==> !Overruns(p, e)
    ensures Apply(p, e).core.failures == p.core.failures
    ensures AllUnmanaged(Apply(p, e).core.history.boots, n)
  {
    hide Apply, Do, Can, Moves, AllUnmanaged;
    EventIsMoves(p, e);
    Revivals(p, e);
    var (a, b) := Moves(p, e);
    MovePastLimit(p.core, a, n);
    if PastLimit(Do(p.core, a)) {
      MovePastLimit(Do(p.core, a), b, n);
    } else {
      NoMove(Do(p.core, a));
    }
  }

  lemma {:induction false} UnmanagedFrom(p: Port, es: seq<Event>, n: nat)
    requires PastLimit(p.core) && AllUnmanaged(p.core.history.boots, n)
    ensures Always(p, es, PastLimit) <==> Never(p, es, Overruns)
    ensures Never(p, es, Overruns) ==>
        && Run(p, es).core.failures == p.core.failures
        && AllUnmanaged(Run(p, es).core.history.boots, n)
    decreases |es|
  {
    if es != [] {
      hide Apply, PastLimit, AllUnmanaged, Overruns;
      EventPastLimit(p, es[0], n);
      if !Overruns(p, es[0]) {
        UnmanagedFrom(Apply(p, es[0]), es[1..], n);
      }
    }
  }

  /** A port past the limit stays there throughout a run if and only if no managed port is revived; then every boot of
      the run is unmanaged, and the count stays. */
  lemma UnmanagedForever(p: Port, es: seq<Event>)
    requires PastLimit(p.core)
    ensures Always(p, es, PastLimit) <==> Never(p, es, Overruns)
    ensures Never(p, es, Overruns) ==>
        && Run(p, es).core.failures == p.core.failures
        && AllUnmanaged(Run(p, es).core.history.boots, |p.core.history.boots|)
  {
    hide Run, Never, Always, PastLimit;
    UnmanagedFrom(p, es, |p.core.history.boots|);
  }

  // ----- forced media

  function Flipped(media: Byte, times: nat): Byte {
    if times == 0 then media else Other(Flipped(media, times - 1))
  }

  lemma {:induction false} FlippedFirst(media: Byte, times: nat)
    ensures Flipped(Other(media), times) == Flipped(media, times + 1)
  {
    if times > 0 {
      FlippedFirst(media, times - 1);
    }
  }

  lemma MoveKeepsForce(c: Core, m: Move)
    requires c.forced && Can(c, m) && !m.Forces? && !m.Boots?
    ensures var d := Do(c, m);
            && d.forced && d.forceMedia == (if m.Switches? then Other(c.forceMedia) else c.forceMedia)
            && d.history.switched == c.history.switched + (if m.Switches? then 1 else 0)
  {
    hide Switch, SelectMedia;
  }

  lemma {:induction false} MovesKeepForce(c: Core, ms: seq<Move>)
    requires c.forced && Legal(c, ms) && Unforced(ms)
    requires |DoAll(c, ms).history.boots| == |c.history.boots|
    ensures var d := DoAll(c, ms);
            && c.history.switched <= d.history.switched
            && d.forced && d.forceMedia == Flipped(c.forceMedia, d.history.switched - c.history.switched)
    decreases |ms|
  {
    if ms != [] {
      hide Do, Can;
      var d := Do(c, ms[0]);
      MoveGrows(c, ms[0]);
      MovesGrow(d, ms[1..]);
      assert ms[0] in ms;
      BootsGrow(c, ms[0]);
      MoveKeepsForce(c, ms[0]);
      MovesKeepForce(d, ms[1..]);
      FlippedFirst(c.forceMedia, DoAll(d, ms[1..]).history.switched - d.history.switched);
    }
  }

  /** A forced medium stays latched until the next successful start, through rejected starts and anything else;
      each timed switch before that start inverts it. */
  lemma ForceHolds(p: Port, es: seq<Event>)
    requires p.core.forced && NoForce(es)
    requires |Run(p, es).core.history.boots| == |p.core.history.boots|
    ensures var d := Run(p, es).core;
            && p.core.history.switched <= d.history.switched
            && d.forced && d.forceMedia == Flipped(p.core.forceMedia, d.history.switched - p.core.history.switched)
  {
    hide Run, DoAll, Legal, Flipped;
    var ms := Decompose(p, es);
    MovesKeepForce(p.core, ms);
  }

  /** The latest force governs exactly the next successful start, and only that one. */
  lemma ForceGovernsNextBoot(p: Port, media: Byte, es: seq<Event>, bootTime: Word)
    requires NoForce(es)
    requires var d := Run(SetNextMedia(p, media), es).core;
             d.phase == Stopped && |d.history.boots| == |p.core.history.boots|
             && d.history.switched == p.core.history.switched
    ensures var r := Start(Run(SetNextMedia(p, media), es), bootTime).core;
            && |r.history.boots| == |p.core.history.boots| + 1
            && r.history.boots[|p.core.history.boots|].media == media
            && r.history.boots[|p.core.history.boots|].forced
            && !r.forced
  {
    hide Switch, Run, Start;
    ForceHolds(SetNextMedia(p, media), es);
    StartIsMove(Run(SetNextMedia(p, media), es), bootTime);
  }

  // ----- boot cycles: from stopped to stopped with exactly one boot

  /** One boot, no revival, no forced medium. */
  predicate Cycle(p: Port, es: seq<Event>) {
    var d := Run(p, es).core;
    && p.core.phase == Stopped && d.phase == Stopped && NoForce(es)
    && |d.history.boots| == |p.core.history.boots| + 1
    && d.history.revived == p.core.history.revived
  }

  predicate FailedCycle(p: Port, es: seq<Event>) {
    Cycle(p, es) && Run(p, es).core.history.failed == p.core.history.failed + 1
  }

  predicate SwitchedCycle(p: Port, es: seq<Event>) {
    Cycle(p, es) && Run(p, es).core.history.switched == p.core.history.switched + 1
  }

  function RunCycles(p: Port, cycles: seq<seq<Event>>): Port
    decreases |cycles|
  {
    if cycles == [] then p else RunCycles(Run(p, cycles[0]), cycles[1..])
  }

  /** Not booted yet. */
  predicate Waiting(c: Core, d: Core) {
    && d.phase != Started && d.phase != Starting
    && d.config == c.config && d.history == c.history
    && d.failures == c.failures && d.attempts == c.attempts
    && d.forced == c.forced && d.forceMedia == c.forceMedia
  }

  predicate BootsBy(c: Core, d: Core, boot: Boot) {
    && d.config == c.config && d.history.boots == c.history.boots + [boot]
    && d.history.revived == c.history.revived
    && d.attempts == (c.attempts + 1) % WORD16
  }

  // ----- managed rotation

  function ManagedMedia(config: Config, failures: nat): Byte {
    if failures % 4 == 3 then config.secondary else config.primary
  }

  function ManagedBoot(c: Core): Boot {
    Boot(ManagedMedia(c.config, c.failures), true, false, c.failures, c.attempts)
  }

  /** Booted under management; failures counted so far. */
  predicate Managed(c: Core, d: Core) {
    && BootsBy(c, d, ManagedBoot(c))
    && d.managed && !d.forced && d.phase != Starting
    && c.history.failed <= d.history.failed
    && d.failures == (c.failures + d.history.failed - c.history.failed) % WORD16
  }

  lemma MoveManaged(c: Core, d: Core, m: Move)
    requires !c.forced && c.failures < FAILURE_LIMIT && !m.Forces? && Can(d, m)
    requires Waiting(c, d) || Managed(c, d)
    requires |Do(d, m).history.boots| <= |c.history.boots| + 1
    requires Do(d, m).history.revived == c.history.revived
    ensures Waiting(c, Do(d, m)) || Managed(c, Do(d, m))
  {
    hide Switch, SelectMedia;
    if m == FailsAndStops && Managed(c, d) {
      WrapAdd(c.failures + d.history.failed - c.history.failed);
    }
  }

  lemma WrapAdd(n: int)
    ensures (n % WORD16 + 1) % WORD16 == (n + 1) % WORD16
  {
  }

  lemma {:induction false} MovesManaged(c: Core, d: Core, ms: seq<Move>)
    requires !c.forced && c.failures < FAILURE_LIMIT && Unforced(ms) && Legal(d, ms)
    requires Waiting(c, d) || Managed(c, d)
    requires |DoAll(d, ms).history.boots| <= |c.history.boots| + 1
    requires DoAll(d, ms).history.revived == c.history.revived
    ensures Waiting(c, DoAll(d, ms)) || Managed(c, DoAll(d, ms))
    decreases |ms|
  {
    if ms != [] {
      hide Do, ManagedBoot;
      MoveGrows(d, ms[0]);
      MovesGrow(Do(d, ms[0]), ms[1..]);
      assert ms[0] in ms;
      MoveManaged(c, d, ms[0]);
      MovesManaged(c, Do(d, ms[0]), ms[1..]);
    }
  }

  lemma ManagedCycle(p: Port, es: seq<Event>)
    requires FailedCycle(p, es) && !p.core.forced && p.core.failures < FAILURE_LIMIT
    ensures var d := Run(p, es).core;
            && d.history.boots == p.core.history.boots + [ManagedBoot(p.core)]
            && d.config == p.core.config && !d.forced && d.failures == p.core.failures + 1
  {
    hide Run, DoAll, Legal;
    var ms := Decompose(p, es);
    MovesManaged(p.core, p.core, ms);
  }

  predicate AllFailed(p: Port, cycles: seq<seq<Event>>)
    decreases |cycles|
  {
    cycles == [] || (FailedCycle(p, cycles[0]) && AllFailed(Run(p, cycles[0]), cycles[1..]))
  }

  /** The media of the boots from the n-th on. */
  function MediaFrom(boots: seq<Boot>, n: nat): (media: seq<Byte>)
    requires n <= |boots|
    ensures |media| == |boots| - n
    ensures forall i :: 0 <= i < |media| ==> media[i] == boots[n + i].media
  {
    seq<Byte>(|boots| - n, i requires 0 <= i < |boots| - n => boots[n + i].media)
  }

  /** The i-th boot uses the medium of the failure count it starts from. */
  predicate ManagedLaw(media: seq<Byte>, config: Config, failures: nat) {
    forall i :: 0 <= i < |media| ==> media[i] == ManagedMedia(config, failures + i)
  }

  lemma ManagedLawStep(boots: seq<Boot>, n: nat, config: Config, failures: nat)
    requires n < |boots| && boots[n].media == ManagedMedia(config, failures)
    requires ManagedLaw(MediaFrom(boots, n + 1), config, failures + 1)
    ensures ManagedLaw(MediaFrom(boots, n), config, failures)
  {
    hide ManagedMedia;
    var media, later := MediaFrom(boots, n), MediaFrom(boots, n + 1);
    forall i | 0 <= i < |media|
      ensures media[i] == ManagedMedia(config, failures + i)
    {
      if i > 0 {
        assert media[i] == later[i - 1] == ManagedMedia(config, failures + 1 + (i - 1));
      }
    }
  }

  /** Managed rotation: when every boot ends in one heartbeat failure, the i-th boot uses the secondary medium
      exactly when the failure count it starts from is 3 modulo 4. */
  lemma {:induction false} ManagedRotation(p: Port, cycles: seq<seq<Event>>)
    requires AllFailed(p, cycles) && !p.core.forced && p.core.failures + |cycles| <= FAILURE_LIMIT
    ensures var boots := RunCycles(p, cycles).core.history.boots;
            && |boots| == |p.core.history.boots| + |cycles|
            && p.core.history.boots <= boots
            && ManagedLaw(MediaFrom(boots, |p.core.history.boots|), p.core.config, p.core.failures)
    decreases |cycles|
  {
    if cycles != [] {
      hide FailedCycle, Run, ManagedLaw, ManagedMedia;
      ManagedCycle(p, cycles[0]);
      var q := Run(p, cycles[0]);
      ManagedRotation(q, cycles[1..]);
      var boots := RunCycles(p, cycles).core.history.boots;
      assert boots[|p.core.history.boots|] == q.core.history.boots[|p.core.history.boots|];
      ManagedLawStep(boots, |p.core.history.boots|, p.core.config, p.core.failures);
    }
  }

  function CountMedia(s: seq<Byte>, media: Byte): nat {
    if s == [] then 0 else (if s[0] == media then 1 else 0) + CountMedia(s[1..], media)
  }

  /** Any four consecutive failing boots use the secondary medium exactly once. */
  lemma OneInFour(p: Port, cycles: seq<seq<Event>>, k: nat)
    requires AllFailed(p, cycles) && !p.core.forced && p.core.failures + |cycles| <= FAILURE_LIMIT
    requires k + 4 <= |cycles| && p.core.config.primary != p.core.config.secondary
    ensures var boots := RunCycles(p, cycles).core.history.boots;
            && |boots| == |p.core.history.boots| + |cycles|
            && CountMedia(MediaFrom(boots, |p.core.history.boots|)[k..k + 4], p.core.config.secondary) == 1
  {
    hide AllFailed, RunCycles;
    ManagedRotation(p, cycles);
    var media := MediaFrom(RunCycles(p, cycles).core.history.boots, |p.core.history.boots|);
    FourMedia(media[k], media[k + 1], media[k + 2], media[k + 3], p.core.config, p.core.failures + k);
    assert media[k..k + 4] == [media[k], media[k + 1], media[k + 2], media[k + 3]];
  }

  lemma FourMedia(a: Byte, b: Byte, c: Byte, d: Byte, config: Config, f: nat)
    requires config.primary != config.secondary
    requires a == ManagedMedia(config, f) && b == ManagedMedia(config, f + 1)
    requires c == ManagedMedia(config, f + 2) && d == ManagedMedia(config, f + 3)
    ensures CountMedia([a, b, c, d], config.secondary) == 1
  {
    var s := [a, b, c, d];
    assert s[1..] == [b, c, d] && s[1..][1..] == [c, d] && s[1..][1..][1..] == [d] && s[1..][1..][1..][1..] == [];
    var x := config.secondary;
    assert CountMedia([d], x) == if d == x then 1 else 0;
    assert CountMedia([c, d], x) == (if c == x then 1 else 0) + CountMedia([d], x);
    assert CountMedia([b, c, d], x) == (if b == x then 1 else 0) + CountMedia([c, d], x);
    var r := f % 4;
    assert (f + 1) % 4 == (r + 1) % 4 && (f + 2) % 4 == (r + 2) % 4 && (f + 3) % 4 == (r + 3) % 4;
  }

  // ----- unmanaged alternation

  function ParityMedia(config: Config, attempts: nat): Byte {
    if attempts % 2 == 1 then config.secondary else config.primary
  }

  function UnmanagedMedia(c: Core): Byte {
    if c.forced then c.forceMedia else ParityMedia(c.config, c.attempts)
  }

  function UnmanagedBoot(c: Core): Boot {
    Boot(UnmanagedMedia(c), false, c.forced, c.failures, c.attempts)
  }

  /** Booted unmanaged: before the timed switch, or after it. */
  predicate Unmanaged(c: Core, d: Core) {
    && BootsBy(c, d, UnmanagedBoot(c))
    && !d.managed && d.phase != Starting && d.failures == c.failures
    && (if d.history.switched == c.history.switched then !d.forced
        else
          && d.history.switched == c.history.switched + 1 && d.phase != Started
          && d.forced && d.forceMedia == Other(ParityMedia(c.config, c.attempts + 1)))
  }

  lemma MoveUnmanaged(c: Core, d: Core, m: Move)
    requires c.failures >= FAILURE_LIMIT && !m.Forces? && Can(d, m)
    requires Waiting(c, d) || Unmanaged(c, d)
    requires |Do(d, m).history.boots| <= |c.history.boots| + 1
    requires Do(d, m).history.revived == c.history.revived
    ensures Waiting(c, Do(d, m)) || Unmanaged(c, Do(d, m))
  {
    hide Switch, SelectMedia;
    WrapParity(c.attempts + 1);
  }

  /** The 16-bit wrap keeps the parity. */
  lemma WrapParity(n: int)
    ensures n % WORD16 % 2 == n % 2
  {
  }

  lemma {:induction false} MovesUnmanaged(c: Core, d: Core, ms: seq<Move>)
    requires c.failures >= FAILURE_LIMIT && Unforced(ms) && Legal(d, ms)
    requires Waiting(c, d) || Unmanaged(c, d)
    requires |DoAll(d, ms).history.boots| <= |c.history.boots| + 1
    requires DoAll(d, ms).history.revived == c.history.revived
    ensures Waiting(c, DoAll(d, ms)) || Unmanaged(c, DoAll(d, ms))
    decreases |ms|
  {
    if ms != [] {
      hide Do, UnmanagedBoot, ParityMedia;
      MoveGrows(d, ms[0]);
      MovesGrow(Do(d, ms[0]), ms[1..]);
      assert ms[0] in ms;
      MoveUnmanaged(c, d, ms[0]);
      MovesUnmanaged(c, Do(d, ms[0]), ms[1..]);
    }
  }

  lemma UnmanagedCycle(p: Port, es: seq<Event>)
    requires SwitchedCycle(p, es) && p.core.failures >= FAILURE_LIMIT
    ensures var d := Run(p, es).core;
            && d.history.boots == p.core.history.boots + [UnmanagedBoot(p.core)]
            && d.config == p.core.config && d.failures == p.core.failures
            && d.attempts == (p.core.attempts + 1) % WORD16
            && d.forced && d.forceMedia == Other(ParityMedia(p.core.config, p.core.attempts + 1))
  {
    hide ParityMedia;
    hide Run, DoAll, Legal;
    var ms := Decompose(p, es);
    MovesUnmanaged(p.core, p.core, ms);
  }

  predicate AllSwitched(p: Port, cycles: seq<seq<Event>>)
    decreases |cycles|
  {
    cycles == [] || (SwitchedCycle(p, cycles[0]) && AllSwitched(Run(p, cycles[0]), cycles[1..]))
  }

  lemma ParityShift(config: Config, attempts: nat, i: nat)
    requires i >= 1
    ensures ParityMedia(config, (attempts + 1) % WORD16 + (i - 1)) == ParityMedia(config, attempts + i)
  {
    WrapParity(attempts + 1);
  }

  /** The first boot uses `first`, and every later one the opposite of its attempt parity. */
  predicate UnmanagedLaw(media: seq<Byte>, first: Byte, config: Config, attempts: nat) {
    forall i :: 0 <= i < |media| ==>
      media[i] == if i == 0 then first else Other(ParityMedia(config, attempts + i))
  }

  lemma UnmanagedLawStep(boots: seq<Boot>, n: nat, first: Byte, config: Config, attempts: nat)
    requires n < |boots| && boots[n].media == first
    requires UnmanagedLaw(MediaFrom(boots, n + 1), Other(ParityMedia(config, attempts + 1)), config,
                          (attempts + 1) % WORD16)
    ensures UnmanagedLaw(MediaFrom(boots, n), first, config, attempts)
  {
    hide ParityMedia, Other;
    var media, later := MediaFrom(boots, n), MediaFrom(boots, n + 1);
    forall i | 0 < i < |media|
      ensures media[i] == Other(ParityMedia(config, attempts + i))
    {
      assert media[i] == later[i - 1];
      ParityShift(config, attempts, i);
    }
  }

  /** The medium of every boot of an unmanaged run with one timed switch per boot, through the 16-bit wrap of
      the attempt counter. */
  lemma {:induction false} UnmanagedRun(p: Port, cycles: seq<seq<Event>>)
    requires AllSwitched(p, cycles) && p.core.failures >= FAILURE_LIMIT
    ensures var boots := RunCycles(p, cycles).core.history.boots;
            && |boots| == |p.core.history.boots| + |cycles|
            && p.core.history.boots <= boots
            && UnmanagedLaw(MediaFrom(boots, |p.core.history.boots|), UnmanagedMedia(p.core), p.core.config,
                            p.core.attempts)
    decreases |cycles|
  {
    if cycles != [] {
      hide SwitchedCycle, Run, UnmanagedLaw, ParityMedia, Other;
      UnmanagedCycle(p, cycles[0]);
      var q := Run(p, cycles[0]);
      UnmanagedRun(q, cycles[1..]);
      var boots := RunCycles(p, cycles).core.history.boots;
      assert boots[|p.core.history.boots|] == q.core.history.boots[|p.core.history.boots|];
      UnmanagedLawStep(boots, |p.core.history.boots|, UnmanagedMedia(p.core), p.core.config, p.core.attempts);
    }
  }

  lemma Opposites(config: Config, a: nat)
    requires (config.primary == MEDIA_SD && config.secondary == MEDIA_EMMC)
        || (config.primary == MEDIA_EMMC && config.secondary == MEDIA_SD)
    ensures ParityMedia(config, a + 1) == Other(ParityMedia(config, a))
    ensures Other(Other(ParityMedia(config, a))) == ParityMedia(config, a)
  {
  }

  /** Unmanaged alternation: an unforced first boot uses the medium of the attempt parity, the second repeats
      it, and every later boot uses the opposite of the one before. */
  lemma UnmanagedAlternation(p: Port, cycles: seq<seq<Event>>)
    requires AllSwitched(p, cycles) && p.core.failures >= FAILURE_LIMIT && !p.core.forced
    requires (p.core.config.primary == MEDIA_SD && p.core.config.secondary == MEDIA_EMMC)
        || (p.core.config.primary == MEDIA_EMMC && p.core.config.secondary == MEDIA_SD)
    ensures var boots := RunCycles(p, cycles).core.history.boots;
            && |boots| == |p.core.history.boots| + |cycles|
            && var media := MediaFrom(boots, |p.core.history.boots|);
               forall i :: 0 <= i < |media| ==>
                 media[i] == if i == 0 then ParityMedia(p.core.config, p.core.attempts)
                             else if i == 1 then media[0]
                             else Other(media[i - 1])
  {
    hide AllSwitched, RunCycles, ParityMedia;
    UnmanagedRun(p, cycles);
    var media := MediaFrom(RunCycles(p, cycles).core.history.boots, |p.core.history.boots|);
    forall i | 1 <= i < |media|
      ensures media[i] == if i == 1 then media[0] else Other(media[i - 1])
    {
      Opposites(p.core.config, p.core.attempts + (i - 1));
    }
  }

  // ----- bounded response

  /** No commands; heartbeats only while the port is stopping. */
  predicate Quiet(p: Port, e: Event) {
    e.Tick? || e.Poll? || ((e.Ping? || e.Pulse?) && p.core.phase == Stopping)
  }

  /** The time since the last poll, after one more event. */
  function SinceAfter(e: Event, since: nat): nat {
    if e.Tick? then since + e.ms else if e.Poll? then 0 else since
  }

  /** A quiet run in which no two polls are more than `gap` ms apart; `since` is the time since the last poll. */
  predicate Polled(p: Port, es: seq<Event>, since: nat, gap: nat)
    decreases |es|
  {
    since <= gap && (es == [] ||
      (Quiet(p, es[0]) &&
       Polled(Apply(p, es[0]), es[1..], SinceAfter(es[0], since), gap)))
  }

  /** The relay was driven off, at a moment from the n-th on and by the deadline. */
  predicate Killed(p: Port, n: nat, deadline: nat) {
    && p.core.phase == Stopped && !p.core.rail.powered && p.pulses < 8
    && Reaches(p.core.rail.moments, n, false, deadline)
  }

  lemma QuietKeepsKilled(p: Port, e: Event, n: nat, deadline: nat)
    requires Killed(p, n, deadline) && Quiet(p, e)
    ensures Killed(Apply(p, e), n, deadline)
  {
    hide Reaches, Exceeds;
  }

  lemma {:induction false} StaysKilled(p: Port, es: seq<Event>, since: nat, gap: nat, n: nat, deadline: nat)
    requires Killed(p, n, deadline) && Polled(p, es, since, gap)
    ensures Killed(Run(p, es), n, deadline)
    decreases |es|
  {
    if es != [] {
      hide Reaches, Apply, Killed;
      QuietKeepsKilled(p, es[0], n, deadline);
      StaysKilled(Apply(p, es[0]), es[1..], SinceAfter(es[0], since), gap, n, deadline);
    }
  }

  /** Stopping since `u`, and the stop timeout had not passed at the last poll. */
  predicate StoppingSince(p: Port, u: nat, since: nat) {
    && p.core.phase == Stopping && p.timers.state == Millis(u)
    && u <= p.core.rail.clock <= u + p.stopTimeout + since
  }

  lemma Later(ms: seq<Moment>, m: nat, n: nat, a: nat, b: nat)
    requires Reaches(ms, m, false, a) && n <= m && a <= b
    ensures Reaches(ms, n, false, b)
  {
    var i :| m <= i < |ms| && ms[i].powered == false && ms[i].at <= a;
    assert ms[i].at <= b;
  }

  lemma KilledLater(p: Port, n: nat, a: nat, b: nat)
    requires Killed(p, n, a) && a <= b
    ensures Killed(p, n, b)
  {
    Later(p.core.rail.moments, n, n, a, b);
  }

  /** In STOPPING the heartbeat and current checks leave the state timer, the timeout and the rail alone. */
  lemma StoppingPrelude(p: Port, milliamps: Short)
    requires p.core.phase == Stopping
    ensures var a := UpdateFault(UpdateHeartbeat(p), milliamps);
            a.core == p.core && a.timers.state == p.timers.state && a.stopTimeout == p.stopTimeout && a.pulses < 8
  {
  }

  lemma StoppingStep(p: Port, u: nat, since: nat, n: nat)
    requires StoppingSince(p, u, since) && p.pulses < 8
    requires p.stopTimeout + since < WORD32 && n <= |p.core.rail.moments|
    ensures var q := UpdateState(p);
            || (StoppingSince(q, u, 0) && q.stopTimeout == p.stopTimeout && q.core == p.core)
            || Killed(q, n, u + p.stopTimeout + since + SwitchLag(Latched(p.core)))
  {
    ElapsedIsTrue(p.core.rail.clock, u);
    hide Switch, Elapsed, Kill, Killed, Millis, MessageSent;
    var a := MessageSent(p);
    if p.core.rail.clock - u > p.stopTimeout {
      var b := a.(stopTimeout := DEFAULT_STOP_TIMEOUT);
      KillSettles(b, n, u + p.stopTimeout + since + SwitchLag(Latched(p.core)));
      assert UpdateState(p) == Kill(b);
    } else {
      assert UpdateState(p) == a;
    }
  }

  lemma KillSettles(p: Port, n: nat, deadline: nat)
    requires p.core.phase == Stopping && p.pulses < 8 && n <= |p.core.rail.moments|
    requires p.core.rail.clock + SwitchLag(Latched(p.core)) <= deadline
    ensures Killed(Kill(p), n, deadline)
  {
    hide Switch, Reaches;
    Later(Switch(p.core.rail, Latched(p.core), false).moments, |p.core.rail.moments|, n,
          p.core.rail.clock + SwitchLag(Latched(p.core)), deadline);
  }

  lemma StoppingPoll(p: Port, milliamps: Short, u: nat, since: nat, n: nat)
    requires StoppingSince(p, u, since) && p.stopTimeout + since < WORD32 && n <= |p.core.rail.moments|
    ensures var q := Apply(p, Poll(milliamps));
            || (StoppingSince(q, u, 0) && q.stopTimeout == p.stopTimeout && q.core == p.core)
            || Killed(q, n, u + p.stopTimeout + since + SwitchLag(Latched(p.core)))
  {
    hide UpdateFault, UpdateHeartbeat, UpdateState, Killed;
    StoppingPrelude(p, milliamps);
    StoppingStep(UpdateFault(UpdateHeartbeat(p), milliamps), u, since, n);
  }

  /** Neither time nor heartbeats touch the state timer of a stopping port. */
  lemma StoppingWaits(p: Port, e: Event, u: nat, since: nat)
    requires StoppingSince(p, u, since) && Quiet(p, e) && !e.Poll?
    ensures var q := Apply(p, e);
            && StoppingSince(q, u, SinceAfter(e, since)) && q.stopTimeout == p.stopTimeout
            && q.core.config == p.core.config && q.core.rail.moments == p.core.rail.moments
  {
    hide Disable;
  }

  /** A stopping port is killed within its stop timeout plus one poll gap; heartbeats do not postpone it. */
  lemma {:induction false} StoppingIsKilled(p: Port, es: seq<Event>, since: nat, gap: nat, u: nat, n: nat)
    requires Polled(p, es, since, gap) && p.stopTimeout + gap < WORD32 && n <= |p.core.rail.moments|
    requires StoppingSince(p, u, since)
    ensures var q := Run(p, es);
            || (q.core.phase == Stopping && q.core.rail.clock <= u + p.stopTimeout + gap)
            || Killed(q, n, u + p.stopTimeout + gap + SwitchLag(Latched(p.core)))
    decreases |es|
  {
    if es != [] {
      hide Killed, Apply, Quiet;
      var a := Apply(p, es[0]);
      if es[0].Poll? {
        StoppingPoll(p, es[0].milliamps, u, since, n);
      } else {
        StoppingWaits(p, es[0], u, since);
      }
      if StoppingSince(a, u, SinceAfter(es[0], since)) {
        StoppingIsKilled(a, es[1..], SinceAfter(es[0], since), gap, u, n);
      } else {
        var d := u + p.stopTimeout + since + SwitchLag(Latched(p.core));
        StaysKilled(a, es[1..], 0, gap, n, d);
        KilledLater(Run(a, es[1..]), n, d, u + p.stopTimeout + gap + SwitchLag(Latched(p.core)));
      }
    }
  }

  /** Started under management with a watched heartbeat last reset at `h`, not timed out at the last poll. */
  predicate WatchedSince(p: Port, h: nat, since: nat) {
    && p.core.phase == Started && p.core.managed && p.watchHeartbeat && p.pulses < 8
    && p.timers.heartbeat == Millis(h)
    && h <= p.core.rail.clock <= h + HEARTBEAT_TIMEOUT + since
  }

  lemma WatchedStep(p: Port, h: nat, since: nat)
    requires WatchedSince(p, h, since) && HEARTBEAT_TIMEOUT + since < WORD32
    ensures var q := UpdateManaged(p);
            && q.stopTimeout == p.stopTimeout && q.core.config == p.core.config && q.core.rail == p.core.rail
            && (WatchedSince(q, h, 0) || StoppingSince(q, p.core.rail.clock, 0))
  {
    ElapsedIsTrue(p.core.rail.clock, h);
    hide Elapsed;
  }

  lemma WatchedPoll(p: Port, milliamps: Short, h: nat, since: nat)
    requires WatchedSince(p, h, since) && HEARTBEAT_TIMEOUT + since < WORD32
    ensures var q := Apply(p, Poll(milliamps));
            && q.stopTimeout == p.stopTimeout && q.core.config == p.core.config && q.core.rail == p.core.rail
            && (WatchedSince(q, h, 0) || StoppingSince(q, p.core.rail.clock, 0))
  {
    hide UpdateManaged;
    WatchedStep(UpdateFault(p, milliamps), h, since);
  }

  /** Bounded response: a managed, heartbeat-watched port that gets no heartbeat and no command, polled at gaps of
      at most `gap` ms, has its relay driven off within the heartbeat timeout, its stop timeout and two gaps of its
      last heartbeat reset `h`, plus the lag of the switching sequence. */
  lemma {:induction false} BoundedResponse(p: Port, es: seq<Event>, since: nat, gap: nat, h: nat)
    requires Polled(p, es, since, gap) && WatchedSince(p, h, since)
    requires HEARTBEAT_TIMEOUT + gap < WORD32 && p.stopTimeout + gap < WORD32
    ensures var q := Run(p, es);
            var deadline := h + HEARTBEAT_TIMEOUT + p.stopTimeout + 2 * gap;
            || (q.core.phase != Stopped && q.core.rail.clock <= deadline)
            || Killed(q, |p.core.rail.moments|, deadline + SwitchLag(Latched(p.core)))
    decreases |es|
  {
    if es != [] {
      hide Reaches, Killed, Update;
      var a := Apply(p, es[0]);
      match es[0]
      case Tick(ms) => BoundedResponse(a, es[1..], since + ms, gap, h);
      case Poll(milliamps) =>
        WatchedPoll(p, milliamps, h, since);
        if WatchedSince(a, h, 0) {
          BoundedResponse(a, es[1..], 0, gap, h);
        } else {
          var n := |p.core.rail.moments|;
          var u := p.core.rail.clock;
          StoppingIsKilled(a, es[1..], 0, gap, u, n);
          var d := u + p.stopTimeout + gap + SwitchLag(Latched(p.core));
          var q := Run(a, es[1..]);
          if Killed(q, n, d) {
            KilledLater(q, n, d, h + HEARTBEAT_TIMEOUT + p.stopTimeout + 2 * gap + SwitchLag(Latched(p.core)));
          }
        }
      case _ =>
    }
  }

  // ----- the cycles above do occur

  /** `start` leaves every timer freshly reset. */
  lemma StartResets(p: Port, bootTime: Word)
    requires p.core.phase == Stopped
    ensures var a := Start(p, bootTime);
            && a.timers.heartbeat == a.timers.state == Millis(a.core.rail.clock)
            && a.pulses == p.pulses && a.stopTimeout == p.stopTimeout && a.watchHeartbeat == p.watchHeartbeat
  {
    hide Switch, Book;
  }

  /** From a stop to the kill: the stop timeout, then one poll. */
  lemma StopCycle(c: Port, u: nat, es: seq<Event>)
    requires StoppingSince(c, u, 0) && c.core.rail.clock == u && c.stopTimeout < WORD32 - 1
    requires es == [Tick(c.stopTimeout + 1), Poll(0xFFFF)]
    ensures Run(c, es).core.phase == Stopped && Run(c, es).core.history == c.core.history
  {
    var d := Apply(c, es[0]);
    var e := Apply(d, es[1]);
    assert es[1..] == [es[1]] && es[1..][1..] == [];
    assert Run(c, es) == Run(d, es[1..]) == Run(e, []) == e;
    hide Run, Update, Killed;
    StoppingPoll(d, 0xFFFF, u, 1, 0);
    KilledIsStopped(e, 0, u + d.stopTimeout + 1 + SwitchLag(Latched(d.core)));
    PollHistory(d, 0xFFFF);
  }

  lemma KilledIsStopped(p: Port, n: nat, deadline: nat)
    requires Killed(p, n, deadline)
    ensures p.core.phase == Stopped
  {
  }

  /** Polling a stopping port changes none of the run's counts. */
  lemma PollHistory(p: Port, milliamps: Short)
    requires p.core.phase == Stopping
    ensures Apply(p, Poll(milliamps)).core.history == p.core.history
  {
    hide Switch, Update, Apply, UpdateFault, UpdateHeartbeat, Exceeds, TruthfulFrom, Reaches, Keeps;
    StoppingPrelude(p, milliamps);
    EventIsMoves(p, Poll(milliamps));
    NoMove(p.core);
  }

  lemma {:induction false} RunConcat(p: Port, es: seq<Event>, fs: seq<Event>)
    ensures Run(p, es + fs) == Run(Run(p, es), fs)
    decreases |es|
  {
    hide Apply;
    if es == [] {
      assert es + fs == fs;
    } else {
      RunConcat(Apply(p, es[0]), es[1..], fs);
      assert (es + fs)[1..] == es[1..] + fs;
    }
  }

  lemma RunThree(p: Port, x: Event, y: Event, z: Event)
    ensures Run(p, [x, y, z]) == Apply(Apply(Apply(p, x), y), z)
  {
    hide Apply;
    var es := [x, y, z];
    var a := Apply(p, x);
    var b := Apply(a, y);
    assert es[1..] == [y, z] && [y, z][1..] == [z] && [z][1..] == [];
    assert Run(p, es) == Run(a, [y, z]);
    assert Run(a, [y, z]) == Run(b, [z]);
    assert Run(b, [z]) == Run(Apply(b, z), []);
  }

  lemma StartEvent(p: Port, bootTime: Word)
    ensures Apply(p, DoStart(bootTime)) == Start(p, bootTime)
  {
    hide Start;
  }

  lemma BootThenWait(p: Port, bootTime: Word, ms: nat)
    requires p.core.phase == Stopped
    ensures var (a, b) := (Start(p, bootTime), Apply(Start(p, bootTime), Tick(ms)));
            && b.core.phase == Started && b.core.managed == (p.core.failures < FAILURE_LIMIT)
            && b.timers.heartbeat == b.timers.state == Millis(a.core.rail.clock)
            && b.core.rail.clock == a.core.rail.clock + ms
            && b.pulses == p.pulses && b.stopTimeout == p.stopTimeout && b.watchHeartbeat == p.watchHeartbeat
            && b.core.history == p.core.history.(boots := b.core.history.boots)
            && |b.core.history.boots| == |p.core.history.boots| + 1
  {
    hide Start;
    StartResets(p, bootTime);
    StartBoots(p, bootTime);
  }

  lemma SwitchPoll(b: Port, h: nat)
    requires b.core.phase == Started && !b.core.managed && b.pulses < 8
    requires b.timers.state == Millis(h) && b.core.rail.clock == h + UNMANAGED_TIMEOUT + 1
    ensures var c := Apply(b, Poll(0xFFFF));
            && StoppingSince(c, b.core.rail.clock, 0) && c.core.rail.clock == b.core.rail.clock
            && c.stopTimeout == b.stopTimeout
            && c.core.history == b.core.history.(switched := b.core.history.switched + 1)
  {
    ElapsedIsTrue(b.core.rail.clock, h);
    hide Elapsed, NextMedia, SelectMedia;
    assert Apply(b, Poll(0xFFFF)) == UpdateUnmanaged(b);
  }

  lemma TimeoutPoll(b: Port, h: nat)
    requires WatchedSince(b, h, 1) && b.core.rail.clock == h + HEARTBEAT_TIMEOUT + 1
    ensures var c := Apply(b, Poll(0xFFFF));
            && StoppingSince(c, b.core.rail.clock, 0) && c.core.rail.clock == b.core.rail.clock
            && c.stopTimeout == b.stopTimeout
            && c.core.history == b.core.history.(failed := b.core.history.failed + 1)
  {
    hide Update;
    WatchedPoll(b, 0xFFFF, h, 1);
    FailurePoll(b);
  }

  /** A watched port that gets no heartbeat goes through a failed cycle. */
  lemma FailedCycleOccurs(p: Port, bootTime: Word)
    requires p.core.phase == Stopped && p.core.failures < FAILURE_LIMIT && p.watchHeartbeat && p.pulses < 8
    requires p.stopTimeout < WORD32 - 1
    ensures FailedCycle(p, [DoStart(bootTime), Tick(HEARTBEAT_TIMEOUT + 1), Poll(0xFFFF)]
                           + [Tick(p.stopTimeout + 1), Poll(0xFFFF)])
  {
    hide Run, Apply, Start;
    var head := [DoStart(bootTime), Tick(HEARTBEAT_TIMEOUT + 1), Poll(0xFFFF)];
    var tail := [Tick(p.stopTimeout + 1), Poll(0xFFFF)];
    var a := Start(p, bootTime);
    var b := Apply(a, head[1]);
    StartEvent(p, bootTime);
    RunThree(p, head[0], head[1], head[2]);
    RunConcat(p, head, tail);
    BootThenWait(p, bootTime, HEARTBEAT_TIMEOUT + 1);
    TimeoutPoll(b, a.core.rail.clock);
    StopCycle(Apply(b, head[2]), b.core.rail.clock, tail);
  }

  /** An unmanaged port left alone goes through a switched cycle. */
  lemma SwitchedCycleOccurs(p: Port, bootTime: Word)
    requires p.core.phase == Stopped && p.core.failures >= FAILURE_LIMIT && p.pulses < 8
    requires p.stopTimeout < WORD32 - 1
    ensures SwitchedCycle(p, [DoStart(bootTime), Tick(UNMANAGED_TIMEOUT + 1), Poll(0xFFFF)]
                             + [Tick(p.stopTimeout + 1), Poll(0xFFFF)])
  {
    hide Run, Apply, Start;
    var head := [DoStart(bootTime), Tick(UNMANAGED_TIMEOUT + 1), Poll(0xFFFF)];
    var tail := [Tick(p.stopTimeout + 1), Poll(0xFFFF)];
    var a := Start(p, bootTime);
    var b := Apply(a, head[1]);
    StartEvent(p, bootTime);
    RunThree(p, head[0], head[1], head[2]);
    RunConcat(p, head, tail);
    BootThenWait(p, bootTime, UNMANAGED_TIMEOUT + 1);
    SwitchPoll(b, a.core.rail.clock);
    StopCycle(Apply(b, head[2]), b.core.rail.clock, tail);
  }

  lemma StartBoots(p: Port, bootTime: Word)
    requires p.core.phase == Stopped
    ensures var c := Start(p, bootTime).core;
            && c.phase == Started && c.managed == (p.core.failures < FAILURE_LIMIT)
            && c.history == p.core.history.(boots := c.history.boots)
            && |c.history.boots| == |p.core.history.boots| + 1
  {
    hide Switch, Book, Start;
    StartIsMove(p, bootTime);
  }

  /** A poll that takes a managed port out of STARTED counts one failure. */
  lemma FailurePoll(b: Port)
    requires b.core.phase == Started && b.core.managed && b.pulses < 8
    ensures var c := Apply(b, Poll(0xFFFF)).core;
            c.phase == Stopping ==> c.history == b.core.history.(failed := b.core.history.failed + 1)
  {
    hide Switch, Update, Exceeds;
    EventIsMoves(b, Poll(0xFFFF));
  }
}
