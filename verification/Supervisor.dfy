/** One power port of the supervisor: the state machine of boards/v3/firmware/Device.cpp and Timer.cpp,
    with the port's slice of the persistent record and of the board pins (Wagman.cpp).

    `Port` is the whole state of a port. The functions below give the effect of each operation; class
    `Device` in Device.dfy performs the operations step by step and is proved to have exactly these
    effects. Time is an unbounded millisecond count of which the code only sees the value modulo 2^32.
    `moments` and `History` record the run: the journal, the power and the enable flag after every write to
    any of them, every boot, and how often a boot failure was counted, a heartbeat revived a port that was
    not started, and the unmanaged timer switched media.
 */
module Supervisor {
  import opened Machine
  import opened Timer

  const HEARTBEAT_TIMEOUT := 3600000
  const STOP_MESSAGE_TIMEOUT := 10000
  const UNMANAGED_TIMEOUT := 14400000
  const DEFAULT_STOP_TIMEOUT := 60000
  const FAILURE_LIMIT := 1024

  const MEDIA_SD: Byte := 0
  const MEDIA_EMMC: Byte := 1

  datatype Phase = Disabled | Stopped | Starting | Started | Stopping
  datatype Journal = Off | On | TurningOn | TurningOff
  datatype Level = Normal | Stressed | Low | High

  /** What a reset at that time would find. */
  datatype Moment = Moment(journal: Journal, powered: bool, enabled: bool, at: nat)
  datatype Boot = Boot(media: Byte, managed: bool, forced: bool, failures: Short, attempts: Short)

  /** Relay journal, power pin, latch pin (port 0 only), power, recorded enable flag and time. */
  datatype Rail = Rail(
    journal: Journal, pin: bool, latch: bool, powered: bool, enabled: bool, clock: nat, moments: seq<Moment>)

  /** The ports the board has. */
  type PortNumber = x: int | 0 <= x < 5

  datatype Config = Config(port: PortNumber, selector: Byte, primary: Byte, secondary: Byte)
  datatype Timers = Timers(state: Word, message: Word, heartbeat: Word, level: Word, start: Word)
  datatype History = History(boots: seq<Boot>, failed: nat, revived: nat, switched: nat)

  /** The part of a port that decides what it does, apart from when: phase, media, persisted counters, rail. */
  datatype Core = Core(
    config: Config, phase: Phase, managed: bool, forced: bool, forceMedia: Byte, selectorPin: bool,
    attempts: Short, failures: Short, rail: Rail, history: History)

  datatype Port = Port(
    core: Core, watchHeartbeat: bool, watchCurrent: bool, level: Level,
    timers: Timers, startDelay: Word, stopTimeout: Word,
    bootLog: seq<Word>, pulses: Byte)

  // ----- timers

  function Now(p: Port): Word {
    Millis(p.core.rail.clock)
  }

  // ----- relay and journal

  function Wait(r: Rail, ms: nat): Rail {
    r.(clock := r.clock + ms)
  }

  function Present(r: Rail): Moment {
    Moment(r.journal, r.powered, r.enabled, r.clock)
  }

  function Note(r: Rail): Rail {
    r.(moments := r.moments + [Present(r)])
  }

  function WriteJournal(r: Rail, j: Journal): Rail {
    Note(r.(journal := j))
  }

  /** `Record::setDeviceEnabled`. */
  function WriteEnabled(r: Rail, b: bool): Rail {
    Note(r.(enabled := b))
  }

  /** Port 0 is fed through a latch: there the power pin alone changes nothing. */
  function DrivePin(r: Rail, latched: bool, on: bool): Rail {
    Note(r.(pin := on, powered := if latched then r.powered else on))
  }

  /** The latch passes the power pin on when its own pin rises. */
  function DriveLatch(r: Rail, high: bool): Rail {
    Note(r.(latch := high, powered := if high && !r.latch then r.pin else r.powered))
  }

  /** `Wagman::setRelay`. */
  function SetRelay(r: Rail, latched: bool, on: bool): (q: Rail)
    ensures q == r.(pin := on, latch := !latched && r.latch, powered := on,
                    clock := r.clock + (if latched then 200 else 50), moments := q.moments)
    ensures q.moments == r.moments + RelayMoments(Present(r), latched, on)
  {
    if latched then
      var a := Wait(DriveLatch(r, false), 50);
      var b := Wait(DrivePin(a, latched, on), 50);
      var c := Wait(DriveLatch(b, true), 50);
      Wait(DriveLatch(c, false), 50)
    else
      Wait(DrivePin(r, latched, on), 50)
  }

  /** On port 0 the power changes at the third pin write, the latch's rising edge. */
  function RelayMoments(m: Moment, latched: bool, on: bool): seq<Moment> {
    if latched then
      [m, m.(at := m.at + 50), m.(powered := on, at := m.at + 100), m.(powered := on, at := m.at + 150)]
    else
      [m.(powered := on)]
  }

  /** A certain journal entry tells the truth about the power. */
  predicate Truthful(m: Moment) {
    (m.journal == On ==> m.powered) && (m.journal == Off ==> !m.powered)
  }

  predicate TruthfulFrom(ms: seq<Moment>, n: nat) {
    forall i :: n <= i < |ms| ==> Truthful(ms[i])
  }

  /** Some moment from the n-th on has this power, by the given time. */
  predicate Reaches(ms: seq<Moment>, n: nat, powered: bool, deadline: nat) {
    exists i :: n <= i < |ms| && ms[i].powered == powered && ms[i].at <= deadline
  }

  /** From the n-th moment on the enable flag has this value, and there is power only if `powered` allows it. */
  predicate Keeps(ms: seq<Moment>, n: nat, enabled: bool, powered: bool) {
    forall i :: n <= i < |ms| ==> ms[i].enabled == enabled && (ms[i].powered ==> powered)
  }

  /** How long after the start of a switching sequence the power changes. */
  function SwitchLag(latched: bool): nat {
    if latched then 110 else 10
  }

  function SwitchTime(latched: bool): nat {
    if latched then 720 else 570
  }

  lemma Appended(base: seq<Moment>, tail: seq<Moment>, powered: bool, deadline: nat, enabled: bool, either: bool)
    requires TruthfulFrom(tail, 0) && Reaches(tail, 0, powered, deadline) && Keeps(tail, 0, enabled, either)
    ensures TruthfulFrom(base + tail, |base|) && Reaches(base + tail, |base|, powered, deadline)
    ensures Keeps(base + tail, |base|, enabled, either)
    ensures TruthfulFrom(base, 0) ==> TruthfulFrom(base + tail, 0)
  {
    var ms := base + tail;
    forall i | |base| <= i < |ms|
      ensures Truthful(ms[i]) && ms[i].enabled == enabled && (ms[i].powered ==> either)
    {
      assert ms[i] == tail[i - |base|];
    }
    var i :| 0 <= i < |tail| && tail[i].powered == powered && tail[i].at <= deadline;
    assert ms[|base| + i] == tail[i];
  }

  lemma Reassociate<T>(a: seq<T>, b: seq<T>, c: seq<T>, d: seq<T>)
    ensures a + b + c + d == a + (b + c + d)
  {
  }

  /** The moments a switching sequence passes through. */
  function SwitchMoments(r: Rail, latched: bool, on: bool): (ms: seq<Moment>)
    ensures TruthfulFrom(ms, 0) && Reaches(ms, 0, on, r.clock + SwitchLag(latched))
    ensures Keeps(ms, 0, r.enabled, r.powered || on)
    ensures ms != [] && ms[0] == Moment(if on then TurningOn else TurningOff, r.powered, r.enabled, r.clock)
    ensures ms[|ms| - 1] == Moment(if on then On else Off, on, r.enabled, r.clock + SwitchTime(latched) - 10)
  {
    var turning := Present(r).(journal := if on then TurningOn else TurningOff);
    var done := Moment(if on then On else Off, on, r.enabled, r.clock + SwitchTime(latched) - 10);
    var ms := [turning] + RelayMoments(turning.(at := r.clock + 10), latched, on) + [done];
    assert ms[if latched then 3 else 1] == turning.(powered := on, at := r.clock + SwitchLag(latched));
    ms
  }

  /** The journalled switching sequence shared by `start` and `kill`. */
  function SwitchSteps(r: Rail, latched: bool, on: bool): Rail {
    var a := Wait(WriteJournal(r, if on then TurningOn else TurningOff), 10);
    var b := Wait(SetRelay(a, latched, on), 500);
    Wait(WriteJournal(b, if on then On else Off), 10)
  }

  lemma SwitchTrace(r: Rail, latched: bool, on: bool)
    ensures SwitchSteps(r, latched, on).moments == r.moments + SwitchMoments(r, latched, on)
  {
    hide SetRelay, TruthfulFrom, Reaches, Keeps, RelayMoments;
    var turning := Present(r).(journal := if on then TurningOn else TurningOff);
    var done := Moment(if on then On else Off, on, r.enabled, r.clock + SwitchTime(latched) - 10);
    Reassociate(r.moments, [turning], RelayMoments(turning.(at := r.clock + 10), latched, on), [done]);
  }

  /** Whatever the state before, switching leaves journal and power in agreement, every moment it passes
      through is truthful, and the power changes within `SwitchLag` of its start. */
  function Switch(r: Rail, latched: bool, on: bool): (q: Rail)
    ensures q == r.(journal := if on then On else Off, pin := on, latch := !latched && r.latch, powered := on,
                    clock := r.clock + SwitchTime(latched), moments := q.moments)
    ensures r.moments <= q.moments && TruthfulFrom(q.moments, |r.moments|)
    ensures TruthfulFrom(r.moments, 0) ==> TruthfulFrom(q.moments, 0)
    ensures Reaches(q.moments, |r.moments|, on, r.clock + SwitchLag(latched))
    ensures Keeps(q.moments, |r.moments|, r.enabled, r.powered || on)
    ensures |r.moments| < |q.moments|
    ensures q.moments[|r.moments|] == Moment(if on then TurningOn else TurningOff, r.powered, r.enabled, r.clock)
  {
    hide SetRelay, TruthfulFrom, Reaches, Keeps, SwitchMoments;
    SwitchTrace(r, latched, on);
    Appended(r.moments, SwitchMoments(r, latched, on), on, r.clock + SwitchLag(latched), r.enabled, r.powered || on);
    SwitchSteps(r, latched, on)
  }

  // ----- elementary effects on the core

  predicate Latched(c: Core) {
    c.config.port == 0
  }

  /** `Record::getDeviceEnabled` for the ports the board has: port 0 always counts as enabled. */
  predicate RecordEnabled(c: Core) {
    Latched(c) || c.rail.enabled
  }

  /** `Wagman::setBootMedia`. */
  function SelectMedia(c: Core, media: Byte): (d: Core)
    ensures d == c.(selectorPin := d.selectorPin)
  {
    if c.config.selector >= 2 then c
    else if media == MEDIA_SD then c.(selectorPin := false)
    else if media == MEDIA_EMMC then c.(selectorPin := true)
    else c
  }

  function RecordAs(c: Core, enabled: bool): Core {
    c.(rail := WriteEnabled(c.rail, enabled))
  }

  function Power(c: Core, on: bool): Core {
    c.(rail := Switch(c.rail, Latched(c), on))
  }

  /** `getNextBootMedia`. */
  function NextMedia(c: Core): Byte {
    if c.forced then c.forceMedia
    else if c.managed then (if c.failures % 4 == 3 then c.config.secondary else c.config.primary)
    else (if c.attempts % 2 == 1 then c.config.secondary else c.config.primary)
  }

  /** `start` chooses its regime first, then the medium, and consumes the force. */
  function Choose(c: Core): Core {
    c.(managed := c.failures < FAILURE_LIMIT)
  }

  /** Books exactly one boot and consumes the force. */
  function Book(c: Core): (d: Core)
    ensures d == c.(forced := false, selectorPin := d.selectorPin, attempts := d.attempts, history := d.history)
    ensures d.history == c.history.(boots := d.history.boots)
    ensures |d.history.boots| == |c.history.boots| + 1
  {
    var boot := Boot(NextMedia(c), c.managed, c.forced, c.failures, c.attempts);
    var a := SelectMedia(c.(forced := false), boot.media);
    a.(attempts := (a.attempts + 1) % WORD16, history := a.history.(boots := a.history.boots + [boot]))
  }

  function CountFailure(c: Core): Core {
    c.(failures := (c.failures + 1) % WORD16, history := c.history.(failed := c.history.failed + 1))
  }

  function Other(media: Byte): Byte {
    if media == MEDIA_SD then MEDIA_EMMC else MEDIA_SD
  }

  function ForceMedia(c: Core, media: Byte): Core {
    SelectMedia(c.(forced := true, forceMedia := media), media)
  }

  function CountSwitch(c: Core): Core {
    c.(history := c.history.(switched := c.history.switched + 1))
  }

  function CountRevival(c: Core): Core {
    c.(history := c.history.(revived := c.history.revived + 1))
  }

  // ----- device operations

  function ChangeState(p: Port, phase: Phase): Port {
    p.(core := p.core.(phase := phase), timers := Timers(Now(p), Now(p), Now(p), Now(p), p.timers.start))
  }

  function Init(p: Port): Port {
    var q := p.(core := p.core.(forced := false, forceMedia := MEDIA_SD), level := Low, startDelay := 0,
                stopTimeout := DEFAULT_STOP_TIMEOUT);
    ChangeState(q, if RecordEnabled(q.core) then Stopped else Disabled)
  }

  function SetNextMedia(p: Port, media: Byte): Port {
    p.(core := ForceMedia(p.core, media))
  }

  /** The port with its relay switched. */
  function Switched(p: Port, on: bool): Port {
    p.(core := Power(p.core, on))
  }

  /** Everything `start` does before it switches the relay. */
  function Prepared(p: Port, bootTime: Word): Port {
    p.(core := Book(Choose(p.core)), bootLog := Append(p.bootLog, bootTime))
  }

  function Start(p: Port, bootTime: Word): Port {
    if p.core.phase != Stopped then p
    else ChangeState(Switched(Prepared(p, bootTime), true), Started)
  }

  function Stop(p: Port): Port {
    if p.core.phase != Started then p else ChangeState(p, Stopping)
  }

  function Kill(p: Port): Port {
    if p.core.phase == Disabled then p
    else
      var a := ChangeState(Switched(p, false), Stopped);
      a.(timers := a.timers.(start := Now(a)))
  }

  function Enable(p: Port): Port {
    ChangeState(p.(core := RecordAs(p.core, true)), Stopped)
  }

  function Disable(p: Port): Port {
    if Latched(p.core) then Kill(p)
    else ChangeState(Kill(p.(core := RecordAs(p.core, false))), Disabled)
  }

  function OnHeartbeat(p: Port): Port {
    var a := p.(timers := p.timers.(heartbeat := Now(p)));
    match a.core.phase
    case Disabled => Disable(a)
    case Stopped => ChangeState(a.(core := CountRevival(a.core)), Started)
    case Starting => ChangeState(a.(core := CountRevival(a.core)), Started)
    case Started => a
    case Stopping => a
  }

  function UpdateHeartbeat(p: Port): Port {
    if p.pulses >= 8 then OnHeartbeat(p.(pulses := 0)) else p
  }

  function LevelOf(current: Short): Level {
    if current < 120 then Low else if current < 300 then Normal else if current < 850 then Stressed else High
  }

  function UpdateFault(p: Port, current: Short): Port {
    if current == 0xFFFF || LevelOf(current) == p.level then p
    else p.(timers := p.timers.(level := Now(p)), level := LevelOf(current))
  }

  function UpdateManaged(p: Port): Port {
    var a := if p.watchHeartbeat && Exceeds(p.core.rail.clock, p.timers.heartbeat, HEARTBEAT_TIMEOUT)
             then Stop(p.(core := CountFailure(p.core))) else p;
    if a.watchCurrent && Exceeds(a.core.rail.clock, a.timers.level, 10000)
    then a.(timers := a.timers.(level := Now(a))) else a
  }

  function UpdateUnmanaged(p: Port): Port {
    if Exceeds(p.core.rail.clock, p.timers.state, UNMANAGED_TIMEOUT)
    then Stop(SetNextMedia(p.(core := CountSwitch(p.core)), Other(NextMedia(p.core))))
    else p
  }

  /** The stop message is repeated. */
  function MessageSent(p: Port): (q: Port)
    ensures q == p.(timers := p.timers.(message := q.timers.message))
  {
    if Exceeds(p.core.rail.clock, p.timers.message, STOP_MESSAGE_TIMEOUT)
    then p.(timers := p.timers.(message := Now(p))) else p
  }

  function UpdateStopping(p: Port): Port {
    var a := MessageSent(p);
    if Exceeds(a.core.rail.clock, a.timers.state, a.stopTimeout)
    then Kill(a.(stopTimeout := DEFAULT_STOP_TIMEOUT)) else a
  }

  function UpdateState(p: Port): Port {
    match p.core.phase
    case Disabled => if Latched(p.core) && Exceeds(p.core.rail.clock, p.timers.state, 60000) then Enable(p) else p
    case Stopped => p
    case Starting =>
      if Exceeds(p.core.rail.clock, p.timers.state, 300000) then Kill(p.(core := CountFailure(p.core))) else p
    case Started => if p.core.managed then UpdateManaged(p) else UpdateUnmanaged(p)
    case Stopping => UpdateStopping(p)
  }

  function Update(p: Port, current: Short): Port {
    UpdateState(UpdateFault(UpdateHeartbeat(p), current))
  }

  /** The sketch's `setupDevices`: `init`, then an interrupted relay operation is marked OFF and undone; `powerLost`
      says that the reset was a power-on or a brown-out. */
  function Recover(p: Port, powerLost: bool): Port {
    var a := Init(p);
    if a.core.rail.journal == TurningOn || a.core.rail.journal == TurningOff then
      var b := a.(core := a.core.(rail := WriteJournal(a.core.rail, Off)));
      if powerLost then Disable(b) else Kill(b)
    else a
  }

  // ----- runs

  /** What can happen to a port. `Tick` is the passing of time, `Pulse` an edge on the heartbeat line seen by
      the timer interrupt, `Ping` the external heartbeat; the others are commands and the main loop's call. */
  datatype Event =
    | Tick(ms: nat)
    | Pulse
    | Ping
    | DoStart(bootTime: Word)
    | DoStop
    | DoKill
    | DoEnable
    | DoDisable
    | Force(media: Byte)
    | StopTimeout(limit: Word)
    | StartDelay(limit: Word)
    | Watch(heartbeat: bool, current: bool)
    | Poll(milliamps: Short)

  function Apply(p: Port, e: Event): Port {
    match e
    case Tick(ms) => p.(core := p.core.(rail := Wait(p.core.rail, ms)))
    case Pulse => p.(pulses := (p.pulses + 1) % 256)
    case Ping => OnHeartbeat(p)
    case DoStart(t) => Start(p, t)
    case DoStop => Stop(p)
    case DoKill => Kill(p)
    case DoEnable => Enable(p)
    case DoDisable => Disable(p)
    case Force(media) => SetNextMedia(p, media)
    case StopTimeout(limit) => p.(stopTimeout := limit)
    case StartDelay(limit) => p.(startDelay := limit)
    case Watch(hb, cu) => p.(watchHeartbeat := hb, watchCurrent := cu)
    case Poll(milliamps) => Update(p, milliamps)
  }

  function Run(p: Port, es: seq<Event>): Port
    decreases |es|
  {
    if es == [] then p else Run(Apply(p, es[0]), es[1..])
  }

  // ----- the core machine

  /** The elementary transitions of the core. */
  datatype Move =
    | Idle(ms: nat)
    | Boots
    | Stops
    | Kills
    | Enables
    | Disables
    | Repeats
    | FailsAndStops
    | FailsAndDies
    | Switches
    | Revives
    | Forces(media: Byte)

  /** When a move is possible. */
  predicate Can(c: Core, m: Move) {
    match m
    case Idle(_) => true
    case Boots => c.phase == Stopped
    case Stops => c.phase == Started
    case Kills => c.phase != Disabled
    case Enables => true
    case Disables => c.phase != Disabled && !Latched(c)
    case Repeats => c.phase == Disabled && !Latched(c)
    case FailsAndStops => c.phase == Started && c.managed
    case FailsAndDies => c.phase == Starting
    case Switches => c.phase == Started && !c.managed
    case Revives => c.phase == Stopped || c.phase == Starting
    case Forces(_) => true
  }

  function Do(c: Core, m: Move): Core {
    match m
    case Idle(ms) => c.(rail := Wait(c.rail, ms))
    case Boots => Power(Book(Choose(c)), true).(phase := Started)
    case Stops => c.(phase := Stopping)
    case Kills => Power(c, false).(phase := Stopped)
    case Enables => RecordAs(c, true).(phase := Stopped)
    case Disables => Power(RecordAs(c, false), false).(phase := Disabled)
    case Repeats => RecordAs(c, false)
    case FailsAndStops => CountFailure(c).(phase := Stopping)
    case FailsAndDies => Power(CountFailure(c), false).(phase := Stopped)
    case Switches => ForceMedia(CountSwitch(c), Other(NextMedia(c))).(phase := Stopping)
    case Revives => CountRevival(c).(phase := Started)
    case Forces(media) => ForceMedia(c, media)
  }

  function DisableMove(c: Core): Move {
    if Latched(c) then (if c.phase == Disabled then Idle(0) else Kills)
    else if c.phase == Disabled then Repeats else Disables
  }

  function HeartbeatMove(p: Port): Move {
    match p.core.phase
    case Disabled => DisableMove(p.core)
    case Stopped => Revives
    case Starting => Revives
    case Started => Idle(0)
    case Stopping => Idle(0)
  }

  function StateMove(p: Port): Move {
    match p.core.phase
    case Disabled => if Latched(p.core) && Exceeds(p.core.rail.clock, p.timers.state, 60000) then Enables else Idle(0)
    case Stopped => Idle(0)
    case Starting => if Exceeds(p.core.rail.clock, p.timers.state, 300000) then FailsAndDies else Idle(0)
    case Started =>
      if p.core.managed then
        if p.watchHeartbeat && Exceeds(p.core.rail.clock, p.timers.heartbeat, HEARTBEAT_TIMEOUT)
        then FailsAndStops else Idle(0)
      else if Exceeds(p.core.rail.clock, p.timers.state, UNMANAGED_TIMEOUT) then Switches else Idle(0)
    case Stopping => if Exceeds(p.core.rail.clock, p.timers.state, p.stopTimeout) then Kills else Idle(0)
  }

  /** What the commands do, in the port's fields. */
  lemma StartOutcome(p: Port, bootTime: Word)
    ensures var q := Start(p, bootTime);
            if p.core.phase != Stopped then q == p
            else
              && q.core.phase == Started && q.core.rail.journal == On && q.core.rail.powered
              && q.core.managed == (p.core.failures < 1024) && !q.core.forced
              && q.core.attempts == (p.core.attempts + 1) % WORD16 && q.core.failures == p.core.failures
  {
    hide Switch, NextMedia, SelectMedia;
  }

  lemma HeartbeatOutcome(p: Port)
    ensures var q := OnHeartbeat(p);
            && (p.core.phase == Started || p.core.phase == Stopping ==>
                  q == p.(timers := p.timers.(heartbeat := Millis(p.core.rail.clock))))
            && (p.core.phase == Stopped ==>
                  && q.core.phase == Started && q.core.rail == p.core.rail
                  && q.timers.heartbeat == Millis(p.core.rail.clock))
  {
    hide Disable, Millis;
  }

  lemma KillOutcome(p: Port)
    ensures var q := Kill(p);
            if p.core.phase == Disabled then q == p
            else
              && q.core.phase == Stopped && q.core.rail.journal == Off && !q.core.rail.powered
              && q.core.rail.enabled == p.core.rail.enabled
  {
    hide Switch;
  }

  lemma DisableOutcome(p: Port)
    ensures var q := Disable(p);
            if p.core.config.port == 0 then q == Kill(p)
            else
              && q.core.phase == Disabled && !q.core.rail.enabled
              && q.core.rail.powered == (p.core.phase == Disabled && p.core.rail.powered)
  {
    hide Kill;
    KillOutcome(p.(core := RecordAs(p.core, false)));
  }

  lemma KillIsMove(p: Port)
    ensures p.core.phase != Disabled ==> Kill(p).core == Do(p.core, Kills)
    ensures p.core.phase == Disabled ==> Kill(p) == p
  {
    hide Switch;
  }

  lemma DisableIsMove(p: Port)
    ensures Can(p.core, DisableMove(p.core)) && Disable(p).core == Do(p.core, DisableMove(p.core))
  {
    hide Switch, Kill;
    if Latched(p.core) {
      KillIsMove(p);
    } else {
      KillIsMove(p.(core := RecordAs(p.core, false)));
    }
  }

  lemma HeartbeatIsMove(p: Port)
    ensures Can(p.core, HeartbeatMove(p)) && OnHeartbeat(p).core == Do(p.core, HeartbeatMove(p))
  {
    hide Switch, Disable;
    DisableIsMove(p.(timers := p.timers.(heartbeat := Now(p))));
  }

  lemma ManagedIsMove(p: Port)
    requires p.core.phase == Started && p.core.managed
    ensures UpdateManaged(p).core == Do(p.core, StateMove(p))
  {
    hide Switch, Exceeds, Now;
  }

  lemma UnmanagedIsMove(p: Port)
    requires p.core.phase == Started && !p.core.managed
    ensures UpdateUnmanaged(p).core == Do(p.core, StateMove(p))
  {
    hide Switch, Exceeds, Now, NextMedia, SelectMedia;
  }

  lemma StoppingIsMove(p: Port)
    requires p.core.phase == Stopping
    ensures UpdateStopping(p).core == Do(p.core, StateMove(p))
  {
    hide Switch, Exceeds, Kill, Do, MessageSent;
    NoMove(p.core);
    KillIsMove(MessageSent(p).(stopTimeout := DEFAULT_STOP_TIMEOUT));
  }

  lemma StartingIsMove(p: Port)
    requires p.core.phase == Starting
    ensures UpdateState(p).core == Do(p.core, StateMove(p))
  {
    hide Switch, Exceeds, Kill;
    KillIsMove(p.(core := CountFailure(p.core)));
  }

  lemma DisabledIsMove(p: Port)
    requires p.core.phase == Disabled
    ensures UpdateState(p).core == Do(p.core, StateMove(p))
  {
    hide Switch, Exceeds;
  }

  lemma StateIsMove(p: Port)
    ensures Can(p.core, StateMove(p)) && UpdateState(p).core == Do(p.core, StateMove(p))
  {
    hide Switch, Exceeds, Do, Kill, UpdateManaged, UpdateUnmanaged, UpdateStopping;
    match p.core.phase
    case Started =>
      if p.core.managed {
        ManagedIsMove(p);
      } else {
        UnmanagedIsMove(p);
      }
    case Stopping => StoppingIsMove(p);
    case Starting => StartingIsMove(p);
    case Disabled => DisabledIsMove(p);
    case Stopped => NoMove(p.core);
  }

  /** The moves an event makes: a poll makes two, its heartbeat's and its state's. */
  function Moves(p: Port, e: Event): (Move, Move) {
    match e
    case Tick(ms) => (Idle(ms), Idle(0))
    case Ping => (HeartbeatMove(p), Idle(0))
    case DoStart(_) => (if p.core.phase == Stopped then Boots else Idle(0), Idle(0))
    case DoStop => (if p.core.phase == Started then Stops else Idle(0), Idle(0))
    case DoKill => (if p.core.phase == Disabled then Idle(0) else Kills, Idle(0))
    case DoEnable => (Enables, Idle(0))
    case DoDisable => (DisableMove(p.core), Idle(0))
    case Force(media) => (Forces(media), Idle(0))
    case Poll(milliamps) =>
      (if p.pulses >= 8 then HeartbeatMove(p) else Idle(0), StateMove(UpdateFault(UpdateHeartbeat(p), milliamps)))
    case _ => (Idle(0), Idle(0))
  }

  /** Every event acts on the core as its two moves, one after the other. */
  lemma EventIsMoves(p: Port, e: Event)
    ensures var (a, b) := Moves(p, e);
            && Can(p.core, a) && Can(Do(p.core, a), b)
            && Apply(p, e).core == Do(Do(p.core, a), b)
            && (a.Forces? ==> e == Force(a.media)) && !b.Forces?
  {
    hide Switch, SelectMedia, NextMedia, Exceeds, Now;
    hide OnHeartbeat, Disable, Kill, Start, Update, UpdateFault, UpdateHeartbeat;
    match e
    case Ping => HeartbeatIsMove(p);
    case DoStart(t) => StartIsMove(p, t);
    case DoKill => KillIsMove(p);
    case DoDisable => DisableIsMove(p);
    case Poll(milliamps) => PollIsMoves(p, milliamps);
    case Tick(_) =>
    case Pulse => NoMove(p.core);
    case DoStop => NoMove(p.core);
    case DoEnable => NoMove(Do(p.core, Enables));
    case Force(_) =>
    case StopTimeout(_) => NoMove(p.core);
    case StartDelay(_) => NoMove(p.core);
    case Watch(_, _) => NoMove(p.core);
  }

  lemma StartIsMove(p: Port, bootTime: Word)
    ensures Start(p, bootTime).core == if p.core.phase == Stopped then Do(p.core, Boots) else p.core
  {
    hide Switch;
  }

  lemma PollIsMoves(p: Port, milliamps: Short)
    ensures var (a, b) := Moves(p, Poll(milliamps));
            && Can(p.core, a) && Can(Do(p.core, a), b)
            && Update(p, milliamps).core == Do(Do(p.core, a), b)
            && !a.Forces? && !b.Forces?
  {
    hide Switch, Exceeds, OnHeartbeat, UpdateState, Do;
    if p.pulses >= 8 {
      HeartbeatIsMove(p.(pulses := 0));
    } else {
      NoMove(p.core);
    }
    StateIsMove(UpdateFault(UpdateHeartbeat(p), milliamps));
  }

  lemma NoMove(c: Core)
    ensures Do(c, Idle(0)) == c
  {
  }
}
