/** The `Device` class of boards/v3/firmware/Device.cpp with `Timer`, one port's slice of the record and of the
    board pins. Each method works on the fields step by step, in the source's order, and is proved to take the
    port from one `Snapshot` to exactly the next one that module `Supervisor` describes; `InitAndPerform` states what
    the theorems of `SupervisorRuns` then say of every sequence of calls. */
module DeviceClass {
  import opened Machine
  import S = Supervisor
  import R = SupervisorRuns
  import Z = SupervisorResets
  import T = Timer

  /** boards/v3/firmware/Error.h. */
  const ERROR_INVALID_ACTION: Byte := 1

  class Device {
    const config: S.Config
    var watchHeartbeat: bool
    var watchCurrent: bool
    // private state of the source's class
    var shouldForceBootMedia: bool
    var forceBootMedia: Byte
    var state: S.Phase
    var managed: bool
    var currentLevel: S.Level
    var timers: S.Timers
    var startDelay: Word
    var stopTimeout: Word
    // the port's record
    var bootAttempts: Short
    var bootFailures: Short
    var bootLog: seq<Word>
    // the port's relay journal, power pins, power, enable flag and time; its boot selector pin and heartbeat counter
    var rail: S.Rail
    var selectorPin: bool
    var heartbeatCounter: Byte
    // history of the run
    ghost var history: S.History

    ghost function Core(): S.Core
      reads this
    {
      S.Core(config, state, managed, shouldForceBootMedia, forceBootMedia, selectorPin,
             bootAttempts, bootFailures, rail, history)
    }

    ghost function Snapshot(): S.Port
      reads this
    {
      S.Port(Core(), watchHeartbeat, watchCurrent, currentLevel,
             timers, startDelay, stopTimeout, bootLog, heartbeatCounter)
    }

    constructor (config: S.Config)
      ensures this.config == config && rail.moments == [] && history == S.History([], 0, 0, 0)
    {
      this.config := config;
      state, managed, forceBootMedia, startDelay, stopTimeout := S.Disabled, false, 0, 0, 0;
      timers := S.Timers(0, 0, 0, 0, 0);
      rail := S.Rail(S.Off, false, false, false, false, 0, []);
      currentLevel, bootLog := S.Low, [];
      bootAttempts, bootFailures, heartbeatCounter := 0, 0, 0;
      history := S.History([], 0, 0, 0);
    }

    // ----- time

    /** `millis()`. */
    function Millis(): Word
      reads this`rail
    {
      T.Millis(rail.clock)
    }

    /** `Timer::exceeds`. */
    predicate Exceeds(start: Word, limit: Word)
      reads this`rail
      ensures Exceeds(start, limit) == T.Exceeds(rail.clock, start, limit)
    {
      (Millis() - start) % WORD32 > limit
    }

    method Delay(ms: nat)
      modifies this`rail
      ensures rail == S.Wait(old(rail), ms)
    {
      rail := rail.(clock := rail.clock + ms);
    }

    // ----- journal, relay and boot selector

    method Note()
      modifies this`rail
      ensures rail == S.Note(old(rail))
    {
      rail := rail.(moments := rail.moments + [S.Moment(rail.journal, rail.powered, rail.enabled, rail.clock)]);
    }

    method SetRelayState(journal: S.Journal)
      modifies this`rail
      ensures rail == S.WriteJournal(old(rail), journal)
    {
      rail := rail.(journal := journal);
      Note();
    }

    method SetDeviceEnabled(b: bool)
      modifies this`rail
      ensures Core() == S.RecordAs(old(Core()), b)
    {
      rail := rail.(enabled := b);
      Note();
    }

    method WritePowerPin(high: bool)
      modifies this`rail
      ensures rail == S.DrivePin(old(rail), config.port == 0, high)
    {
      rail := rail.(pin := high);
      if config.port != 0 {
        rail := rail.(powered := high);
      }
      Note();
    }

    method WriteLatchPin(high: bool)
      modifies this`rail
      ensures rail == S.DriveLatch(old(rail), high)
    {
      if high && !rail.latch {
        rail := rail.(powered := rail.pin);
      }
      rail := rail.(latch := high);
      Note();
    }

    /** `Wagman::setRelay`. */
    method SetRelay(on: bool)
      modifies this`rail
      ensures rail == S.SetRelay(old(rail), config.port == 0, on)
    {
      if config.port == 0 {
        WriteLatchPin(false);
        Delay(50);
        WritePowerPin(on);
        Delay(50);
        WriteLatchPin(true);
        Delay(50);
        WriteLatchPin(false);
        Delay(50);
      } else {
        WritePowerPin(on);
        Delay(50);
      }
    }

    /** The journalled switching sequence that `start` and `kill` both contain. */
    method SwitchRelay(on: bool)
      modifies this`rail
      ensures Snapshot() == S.Switched(old(Snapshot()), on)
    {
      hide S.SetRelay, S.TruthfulFrom, S.Reaches, S.Keeps;
      SetRelayState(if on then S.TurningOn else S.TurningOff);
      Delay(10);
      SetRelay(on);
      Delay(500);
      SetRelayState(if on then S.On else S.Off);
      Delay(10);
    }

    /** `Wagman::setBootMedia`. */
    method SetBootMedia(media: Byte)
      modifies this`selectorPin
      ensures Core() == S.SelectMedia(old(Core()), media)
    {
      if config.selector < 2 {
        if media == S.MEDIA_SD {
          selectorPin := false;
        } else if media == S.MEDIA_EMMC {
          selectorPin := true;
        }
      }
    }

    // ----- the device

    method ChangeState(newState: S.Phase)
      modifies this`timers, this`state
      ensures Snapshot() == S.ChangeState(old(Snapshot()), newState)
    {
      hide T.Millis;
      timers := timers.(state := Millis());
      timers := timers.(message := Millis());
      timers := timers.(heartbeat := Millis());
      timers := timers.(level := Millis());
      state := newState;
    }

    /** `Record::getDeviceEnabled`. */
    method GetDeviceEnabled() returns (b: bool)
      ensures b == S.RecordEnabled(Core())
    {
      b := config.port == 0 || rail.enabled;
    }

    method ClearForce()
      modifies this`shouldForceBootMedia, this`forceBootMedia
      ensures Core() == old(Core()).(forced := false, forceMedia := S.MEDIA_SD)
    {
      shouldForceBootMedia := false;
      forceBootMedia := S.MEDIA_SD;
    }

    method Init()
      modifies this
      ensures Snapshot() == S.Init(old(Snapshot()))
    {
      hide S.ChangeState;
      ClearForce();
      currentLevel := S.Low;
      startDelay := 0;
      stopTimeout := 60000;
      var on := GetDeviceEnabled();
      if on {
        ChangeState(S.Stopped);
      } else {
        ChangeState(S.Disabled);
      }
    }

    method GetNextBootMedia() returns (media: Byte)
      ensures media == S.NextMedia(Core())
    {
      if shouldForceBootMedia {
        return forceBootMedia;
      }
      if managed {
        media := if bootFailures % 4 == 3 then config.secondary else config.primary;
      } else {
        media := if bootAttempts % 2 == 1 then config.secondary else config.primary;
      }
    }

    method SetNextBootMedia(media: Byte)
      modifies this`shouldForceBootMedia, this`forceBootMedia, this`selectorPin
      ensures Snapshot() == S.SetNextMedia(old(Snapshot()), media)
    {
      shouldForceBootMedia := true;
      forceBootMedia := media;
      SetBootMedia(media);
    }

    /** `start`; `bootTime` is what the real-time clock answers. */
    method Start(bootTime: Word) returns (error: Byte)
      modifies this
      ensures Snapshot() == S.Start(old(Snapshot()), bootTime)
      ensures error == 0 <==> old(state) == S.Stopped
      ensures error != 0 ==> Snapshot() == old(Snapshot())
      ensures error == 0 ==>
          && state == S.Started && rail.journal == S.On && rail.powered
          && managed == (bootFailures < 1024) && !shouldForceBootMedia
          && bootAttempts == (old(bootAttempts) + 1) % WORD16 && bootFailures == old(bootFailures)
    {
      S.StartOutcome(Snapshot(), bootTime);
      if state != S.Stopped {
        return ERROR_INVALID_ACTION;
      }
      hide S.Switched, S.ChangeState, S.Prepared;
      Prepare(bootTime);
      SwitchRelay(true);
      ChangeState(S.Started);
      error := 0;
    }

    /** Everything `start` does before it switches the relay. */
    method Prepare(bootTime: Word)
      modifies this`managed, this`shouldForceBootMedia, this`selectorPin, this`bootAttempts, this`bootLog, this`history
      ensures Snapshot() == S.Prepared(old(Snapshot()), bootTime)
    {
      hide Append, S.NextMedia, S.Choose, S.Book;
      ChooseRegime();
      BookBoot();
      bootLog := Append(bootLog, bootTime);
    }

    method ChooseRegime()
      modifies this`managed
      ensures Core() == S.Choose(old(Core()))
    {
      managed := bootFailures < 1024;
    }

    /** Choose the medium, consume the force, set the selector and count the attempt, in that order. */
    method BookBoot()
      modifies this`shouldForceBootMedia, this`selectorPin, this`bootAttempts, this`history
      ensures Core() == S.Book(old(Core()))
    {
      hide S.NextMedia;
      var bootMedia := GetNextBootMedia();
      ghost var boot := S.Boot(bootMedia, managed, shouldForceBootMedia, bootFailures, bootAttempts);
      shouldForceBootMedia := false;
      SetBootMedia(bootMedia);
      IncrementBootAttempts(boot);
    }

    method IncrementBootAttempts(ghost boot: S.Boot)
      modifies this`bootAttempts, this`history
      ensures bootAttempts == (old(bootAttempts) + 1) % WORD16
      ensures history == old(history).(boots := old(history).boots + [boot])
    {
      bootAttempts := (bootAttempts + 1) % WORD16;
      history := history.(boots := history.boots + [boot]);
    }

    method Stop() returns (error: Byte)
      modifies this`timers, this`state
      ensures Snapshot() == S.Stop(old(Snapshot()))
      ensures error == 0 <==> old(state) == S.Started
      ensures if error == 0 then state == S.Stopping else state == old(state) && timers == old(timers)
    {
      if state != S.Started {
        return ERROR_INVALID_ACTION;
      }
      ChangeState(S.Stopping);
      error := 0;
    }

    method Kill() returns (error: Byte)
      modifies this
      ensures Snapshot() == S.Kill(old(Snapshot()))
      ensures error == 0 <==> old(state) != S.Disabled
      ensures error != 0 ==> Snapshot() == old(Snapshot())
      ensures error == 0 ==>
          state == S.Stopped && rail.journal == S.Off && !rail.powered && rail.enabled == old(rail.enabled)
    {
      S.KillOutcome(Snapshot());
      if state == S.Disabled {
        return ERROR_INVALID_ACTION;
      }
      hide S.Switched, S.ChangeState, T.Millis;
      SwitchRelay(false);
      ChangeState(S.Stopped);
      timers := timers.(start := Millis());
      error := 0;
    }

    method Enable()
      modifies this
      ensures Snapshot() == S.Enable(old(Snapshot()))
      ensures state == S.Stopped && rail.enabled
      ensures rail == old(rail).(enabled := true, moments := rail.moments)
    {
      SetDeviceEnabled(true);
      ChangeState(S.Stopped);
    }

    method Disable()
      modifies this
      ensures Snapshot() == S.Disable(old(Snapshot()))
      ensures config.port != 0 ==>
          state == S.Disabled && !rail.enabled && rail.powered == old(state == S.Disabled && rail.powered)
      ensures config.port == 0 && old(state) != S.Disabled ==> state == S.Stopped && !rail.powered
    {
      S.DisableOutcome(Snapshot());
      S.KillOutcome(Snapshot());
      hide S.Kill, S.ChangeState, S.RecordAs;
      ghost var p := old(Snapshot());
      if config.port != 0 {
        SetDeviceEnabled(false);
        assert Snapshot() == p.(core := S.RecordAs(p.core, false));
      }
      var _ := Kill();
      if config.port != 0 {
        ChangeState(S.Disabled);
      }
    }

    method OnHeartbeat()
      modifies this
      ensures Snapshot() == S.OnHeartbeat(old(Snapshot()))
      ensures old(state) == S.Started || old(state) == S.Stopping ==>
          state == old(state) && timers == old(timers).(heartbeat := T.Millis(rail.clock))
      ensures old(state) == S.Stopped ==> state == S.Started && timers.heartbeat == T.Millis(rail.clock)
    {
      S.HeartbeatOutcome(Snapshot());
      hide S.Disable, S.ChangeState, T.Millis;
      timers := timers.(heartbeat := Millis());
      match state
      case Disabled => Disable();
      case Stopped =>
        history := history.(revived := history.revived + 1);
        ChangeState(S.Started);
      case Starting =>
        history := history.(revived := history.revived + 1);
        ChangeState(S.Started);
      case _ =>
    }

    method UpdateHeartbeat()
      modifies this
      ensures Snapshot() == S.UpdateHeartbeat(old(Snapshot()))
    {
      hide S.OnHeartbeat;
      if heartbeatCounter >= 8 {
        heartbeatCounter := 0;
        OnHeartbeat();
      }
    }

    /** `updateFault`; `current` is what the port's sensor answers. */
    method UpdateFault(current: Short)
      modifies this`currentLevel, this`timers
      ensures Snapshot() == S.UpdateFault(old(Snapshot()), current)
    {
      if current == 0xFFFF {
        return;
      }
      var newLevel: S.Level;
      if current < 120 {
        newLevel := S.Low;
      } else if current < 300 {
        newLevel := S.Normal;
      } else if current < 850 {
        newLevel := S.Stressed;
      } else {
        newLevel := S.High;
      }
      if newLevel != currentLevel {
        timers := timers.(level := Millis());
        currentLevel := newLevel;
      }
    }

    method IncrementBootFailures()
      modifies this`bootFailures, this`history
      ensures Core() == S.CountFailure(old(Core()))
    {
      bootFailures := (bootFailures + 1) % WORD16;
      history := history.(failed := history.failed + 1);
    }

    method UpdateStartedManaged()
      modifies this
      ensures Snapshot() == S.UpdateManaged(old(Snapshot()))
    {
      hide Exceeds, T.Exceeds, S.Stop;
      if watchHeartbeat && Exceeds(timers.heartbeat, S.HEARTBEAT_TIMEOUT) {
        IncrementBootFailures();
        var _ := Stop();
      }
      if watchCurrent && Exceeds(timers.level, 10000) {
        timers := timers.(level := Millis());
      }
    }

    method UpdateStartedUnmanaged()
      modifies this
      ensures Snapshot() == S.UpdateUnmanaged(old(Snapshot()))
    {
      hide Exceeds, T.Exceeds, S.Stop, S.SetNextMedia, S.NextMedia;
      if Exceeds(timers.state, S.UNMANAGED_TIMEOUT) {
        var next := GetNextBootMedia();
        history := history.(switched := history.switched + 1);
        SetNextBootMedia(if next == S.MEDIA_SD then S.MEDIA_EMMC else S.MEDIA_SD);
        var _ := Stop();
      }
    }

    method UpdateStopping()
      modifies this
      ensures Snapshot() == S.UpdateStopping(old(Snapshot()))
    {
      hide Exceeds, T.Exceeds, S.Kill;
      if Exceeds(timers.message, S.STOP_MESSAGE_TIMEOUT) {
        timers := timers.(message := Millis());
      }
      if Exceeds(timers.state, stopTimeout) {
        stopTimeout := 60000;
        var _ := Kill();
      }
    }

    method UpdateStarting()
      requires state == S.Starting
      modifies this
      ensures Snapshot() == S.UpdateState(old(Snapshot()))
    {
      hide Exceeds, T.Exceeds, S.Kill;
      if Exceeds(timers.state, 300000) {
        IncrementBootFailures();
        var _ := Kill();
      }
    }

    method UpdateDisabled()
      requires state == S.Disabled
      modifies this
      ensures Snapshot() == S.UpdateState(old(Snapshot()))
    {
      hide Exceeds, T.Exceeds;
      if config.port == 0 && Exceeds(timers.state, 60000) {
        Enable();
      }
    }

    method UpdateState()
      modifies this
      ensures Snapshot() == S.UpdateState(old(Snapshot()))
    {
      hide S.UpdateManaged, S.UpdateUnmanaged, S.UpdateStopping;
      match state
      case Disabled => UpdateDisabled();
      case Stopped =>
      case Starting => UpdateStarting();
      case Started =>
        if managed {
          UpdateStartedManaged();
        } else {
          UpdateStartedUnmanaged();
        }
      case Stopping => UpdateStopping();
    }

    method Update(current: Short)
      modifies this
      ensures Snapshot() == S.Update(old(Snapshot()), current)
    {
      hide S.UpdateHeartbeat, S.UpdateFault, S.UpdateState;
      UpdateHeartbeat();
      UpdateFault(current);
      UpdateState();
    }

    /** What the sketch's `setupDevices` does for this port; `powerLost` are its reset flags. */
    method Recover(powerLost: bool)
      modifies this
      ensures Snapshot() == S.Recover(old(Snapshot()), powerLost)
      ensures Z.Turning(old(rail.journal)) ==>
          && (state == S.Disabled <==> config.port != 0 && (powerLost || !old(rail.enabled)))
          && rail.enabled == (old(rail.enabled) && (config.port == 0 || !powerLost)) && rail.journal == S.Off
      ensures !Z.Turning(old(rail.journal)) ==>
          rail == old(rail) && (state == S.Disabled <==> config.port != 0 && !rail.enabled)
    {
      Z.RecoveryOutcome(Snapshot(), powerLost);
      hide S.Init, S.Disable, S.Kill;
      Init();
      if rail.journal == S.TurningOn || rail.journal == S.TurningOff {
        SetRelayState(S.Off);
        if powerLost {
          Disable();
        } else {
          var _ := Kill();
        }
      }
    }

    /** A command, as a call. */
    method Command(e: S.Event)
      requires e.DoStart? || e.DoStop? || e.DoKill? || e.DoEnable? || e.DoDisable? || e.Force?
      modifies this
      ensures Snapshot() == S.Apply(old(Snapshot()), e)
    {
      hide S.Start, S.Stop, S.Kill, S.Enable, S.Disable, S.SetNextMedia, T.Millis, S.RecordAs;
      match e
      case DoStart(t) => var _ := Start(t);
      case DoStop => var _ := Stop();
      case DoKill => var _ := Kill();
      case DoEnable => Enable();
      case DoDisable => Disable();
      case Force(media) => SetNextBootMedia(media);
    }

    /** Any event of a run, as a call. */
    method Perform(e: S.Event)
      modifies this
      ensures Snapshot() == S.Apply(old(Snapshot()), e)
    {
      match e
      case Tick(ms) => Delay(ms);
      case Pulse => heartbeatCounter := (heartbeatCounter + 1) % 256;
      case Ping =>
        hide S.OnHeartbeat;
        OnHeartbeat();
      case StopTimeout(limit) => stopTimeout := limit;
      case StartDelay(limit) => startDelay := limit;
      case Watch(hb, cu) => watchHeartbeat, watchCurrent := hb, cu;
      case Poll(milliamps) =>
        hide S.Update;
        Update(milliamps);
      case _ =>
        hide S.Apply;
        Command(e);
    }

    /** A whole run of calls follows `Supervisor.Run`. */
    method PerformAll(es: seq<S.Event>)
      modifies this
      ensures Snapshot() == S.Run(old(Snapshot()), es)
      decreases |es|
    {
      if es != [] {
        hide S.Apply;
        Perform(es[0]);
        PerformAll(es[1..]);
      }
    }

    /** `init` and then any sequence of calls, in the terms of the fields: the journal stays truthful, the state and the
        enable flag agree, a disabled port stays off, every boot failure is paid for by a stay in STARTED, and the
        failures keep within their limit. */
    method InitAndPerform(es: seq<S.Event>)
      requires R.Settled(rail) && S.TruthfulFrom(rail.moments, 0)
      modifies this
      ensures rail.journal == (if rail.powered then S.On else S.Off) && S.TruthfulFrom(rail.moments, 0)
      ensures state != S.Starting
      ensures if config.port == 0 then state != S.Disabled else state == S.Disabled <==> !rail.enabled
      ensures old(config.port == 0 || rail.enabled || !rail.powered) && state == S.Disabled ==> !rail.powered
      ensures history.failed - old(history.failed)
              <= |history.boots| - old(|history.boots|) + history.revived - old(history.revived)
      ensures old(bootFailures) <= 1024 && R.Never(S.Init(old(Snapshot())), es, R.Overruns) ==> bootFailures <= 1024
    {
      hide S.Run, R.Always, R.Never;
      ghost var p := Snapshot();
      Init();
      PerformAll(es);
      FieldLaws(p, es);
    }
  }

  /** The run theorems for a port that has just been initialised. */
  lemma FieldLaws(p: S.Port, es: seq<S.Event>)
    requires R.JournalSound(p.core)
    ensures var (h, c) := (p.core.history, S.Run(S.Init(p), es).core);
            && R.JournalSound(c) && R.EnablementSound(c)
            && (S.RecordEnabled(p.core) || !p.core.rail.powered ==> R.DisabledIsOff(c))
            && c.history.failed - h.failed <= |c.history.boots| - |h.boots| + c.history.revived - h.revived
            && (p.core.failures <= 1024 && R.Never(S.Init(p), es, R.Overruns) ==> c.failures <= 1024)
  {
    hide S.Run, R.Always, R.Never;
    R.JournalAlongRun(S.Init(p), es);
    R.EnablementAlongRun(p, es);
    R.FailuresArePaidFor(S.Init(p), es);
    if p.core.failures <= 1024 {
      R.FailuresWithinLimit(S.Init(p), es);
      if R.Never(S.Init(p), es, R.Overruns) {
        R.AlwaysAtEnd(S.Init(p), es, R.WithinLimit);
      }
    }
  }
}
