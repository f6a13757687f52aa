/** What a reset does to a port: a run is cut at one of its recorded moments, and start-up recovers from what it finds.

    The record, with journal and enable flag, survives every reset, and everything in memory is lost. The sketch sets
    the pin modes and drives no relay before `setupDevices`, so what becomes of the power is up to the board: a reset
    keeps it or drops it. */
module SupervisorResets {
  import opened Machine
  import opened Supervisor
  import opened SupervisorRuns

  // ----- recovery

  predicate Turning(j: Journal) {
    j == TurningOn || j == TurningOff
  }

  /** `init` followed by the OFF entry that recovery writes first. */
  function Marked(p: Port): Core {
    var c := Init(p).core;
    c.(rail := WriteJournal(c.rail, Off))
  }

  function UndoMove(c: Core, powerLost: bool): Move {
    if powerLost then DisableMove(c) else if c.phase == Disabled then Idle(0) else Kills
  }

  lemma RecoveryIsMove(p: Port, powerLost: bool)
    ensures Recover(p, powerLost).core
            == if Turning(p.core.rail.journal) then Do(Marked(p), UndoMove(Marked(p), powerLost)) else Init(p).core
  {
    hide Kill, Disable, Do;
    var a := Init(p);
    var b := a.(core := Marked(p));
    KillIsMove(b);
    DisableIsMove(b);
    NoMove(b.core);
  }

  /** No power, and the journal does not say otherwise, from the n-th moment on. */
  predicate DarkFrom(ms: seq<Moment>, n: nat) {
    forall i :: n <= i < |ms| ==> !ms[i].powered && ms[i].journal != On
  }

  lemma DarkIsTruthful(ms: seq<Moment>, n: nat)
    requires DarkFrom(ms, n)
    ensures TruthfulFrom(ms, n)
  {
  }

  /** Switching off a port without power. */
  lemma DarkSwitch(r: Rail, latched: bool, n: nat)
    requires !r.powered && n <= |r.moments| && DarkFrom(r.moments, n)
    ensures DarkFrom(Switch(r, latched, false).moments, n)
  {
    hide Switch;
    var ms := Switch(r, latched, false).moments;
    forall i | n <= i < |ms|
      ensures !ms[i].powered && ms[i].journal != On
    {
      if i < |r.moments| {
        assert ms[i] == r.moments[i];
      } else {
        assert Truthful(ms[i]);
      }
    }
  }

  lemma DarkRecord(r: Rail, enabled: bool, n: nat)
    requires !r.powered && r.journal == Off && DarkFrom(r.moments, n)
    ensures DarkFrom(WriteEnabled(r, enabled).moments, n)
  {
  }

  lemma OffEffect(r: Rail, latched: bool)
    ensures var q := Switch(r, latched, false); q.journal == Off && !q.powered && r.moments <= q.moments
  {
    hide Switch, TruthfulFrom, Reaches, Keeps;
  }

  /** The undoing move leaves a disabled port as it is, and any other one off. */
  lemma UndoEffect(c: Core, powerLost: bool)
    requires c.rail.journal == Off && (Latched(c) ==> c.phase != Disabled)
    ensures var d := Do(c, UndoMove(c, powerLost));
            && d.rail.journal == Off && d.rail.powered == (c.phase == Disabled && c.rail.powered)
            && (c.phase == Disabled ==> d.phase == Disabled)
            && c.rail.moments <= d.rail.moments
  {
    hide Switch, WriteEnabled, TruthfulFrom, Reaches, Keeps;
    WriteEnabledGrows(c.rail, false);
    if c.phase != Disabled {
      OffEffect(c.rail, Latched(c));
      OffEffect(WriteEnabled(c.rail, false), Latched(c));
    }
  }

  lemma UndoDark(c: Core, powerLost: bool, n: nat)
    requires c.rail.journal == Off && !c.rail.powered && n <= |c.rail.moments| && DarkFrom(c.rail.moments, n)
    requires Latched(c) ==> c.phase != Disabled
    ensures DarkFrom(Do(c, UndoMove(c, powerLost)).rail.moments, n)
  {
    hide Switch, TruthfulFrom, Reaches, Keeps, WriteEnabled, DarkFrom;
    DarkSwitch(c.rail, Latched(c), n);
    DarkRecord(c.rail, false, n);
    WriteEnabledGrows(c.rail, false);
    DarkSwitch(WriteEnabled(c.rail, false), Latched(c), n);
  }

  lemma WriteEnabledGrows(r: Rail, b: bool)
    ensures var q := WriteEnabled(r, b); r.moments <= q.moments && q == r.(enabled := b, moments := q.moments)
  {
  }

  /** Start-up recovery settles an interrupted relay operation unless the port is recorded as disabled while it has
      power: there the journal is set to OFF, but `kill` refuses a disabled port and the relay stays on. Without an
      interrupted operation it changes neither. */
  lemma RecoveryExact(p: Port, powerLost: bool)
    ensures Settled(Recover(p, powerLost).core.rail) <==>
        if Turning(p.core.rail.journal) then RecordEnabled(p.core) || !p.core.rail.powered else Settled(p.core.rail)
    ensures DisabledIsOff(Recover(p, powerLost).core) <==> RecordEnabled(p.core) || !p.core.rail.powered
  {
    hide Switch, Recover, Do, UndoMove;
    RecoveryIsMove(p, powerLost);
    UndoEffect(Marked(p), powerLost);
  }

  lemma UndoOutcome(c: Core, powerLost: bool)
    requires c.rail.journal == Off
    requires if Latched(c) then c.phase == Stopped else c.phase == Disabled <==> !c.rail.enabled
    requires c.phase == Stopped || c.phase == Disabled
    ensures var d := Do(c, UndoMove(c, powerLost));
            && (d.phase == Disabled <==> !Latched(c) && (powerLost || !c.rail.enabled))
            && (d.phase == Stopped || d.phase == Disabled)
            && d.rail.enabled == (c.rail.enabled && (Latched(c) || !powerLost))
            && d.failures == c.failures && d.attempts == c.attempts && d.history == c.history
  {
    hide Switch, TruthfulFrom, Reaches, Keeps;
  }

  /** What start-up makes of a port, in its fields. With a relay operation interrupted, a reset that lost power disables
      every port but port 0 for good, and any other reset leaves it as recorded; the journal is OFF. Otherwise journal,
      power and flag stay. */
  lemma RecoveryOutcome(p: Port, powerLost: bool)
    ensures var (c, q) := (p.core, Recover(p, powerLost).core);
            && (q.phase == Stopped || q.phase == Disabled)
            && q.failures == c.failures && q.attempts == c.attempts && q.history == c.history
            && if Turning(c.rail.journal) then
                 && (q.phase == Disabled <==> c.config.port != 0 && (powerLost || !c.rail.enabled))
                 && q.rail.enabled == (c.rail.enabled && (c.config.port == 0 || !powerLost))
                 && q.rail.journal == Off
                 && q.rail.powered == (c.rail.powered && c.config.port != 0 && !c.rail.enabled)
               else
                 && (q.phase == Disabled <==> c.config.port != 0 && !c.rail.enabled)
                 && q.rail == c.rail
  {
    hide Switch, Recover, Do, UndoMove;
    RecoveryIsMove(p, powerLost);
    UndoOutcome(Marked(p), powerLost);
    UndoEffect(Marked(p), powerLost);
  }

  /** Recovery writes OFF before it drives the relay, so it is truthful exactly for a port without power. */
  lemma RecoveryTruthful(p: Port, powerLost: bool)
    requires Turning(p.core.rail.journal)
    ensures TruthfulFrom(Recover(p, powerLost).core.rail.moments, |p.core.rail.moments|) <==> !p.core.rail.powered
  {
    hide Switch, Recover, Do, UndoMove;
    RecoveryIsMove(p, powerLost);
    UndoEffect(Marked(p), powerLost);
    var n := |p.core.rail.moments|;
    if !p.core.rail.powered {
      UndoDark(Marked(p), powerLost, n);
      DarkIsTruthful(Recover(p, powerLost).core.rail.moments, n);
    }
    assert Recover(p, powerLost).core.rail.moments[n] == Marked(p).rail.moments[n];
  }

  // ----- resets at any moment

  /** The port as it comes out of a reset at that moment: whatever memory holds, the record is as it was then, and the
      power too unless the reset drops it. */
  predicate ResetAt(q: Port, config: Config, m: Moment, kept: bool) {
    && q.core.config == config
    && q.core.rail.journal == m.journal && q.core.rail.enabled == m.enabled
    && q.core.rail.powered == (kept && m.powered)
  }

  /** A run cut anywhere: start-up recovery leaves journal and power in agreement unless, with the power kept, a
      relay operation was under way on a powered port recorded as disabled, or, with the power dropped, the journal
      said ON. */
  lemma CutAlongRun(p: Port, es: seq<Event>, i: nat, q: Port, kept: bool, powerLost: bool)
    requires JournalSound(p.core) && i < |Run(p, es).core.rail.moments|
    requires ResetAt(q, p.core.config, Run(p, es).core.rail.moments[i], kept)
    ensures var m := Run(p, es).core.rail.moments[i];
            Settled(Recover(q, powerLost).core.rail) <==>
              if kept then Turning(m.journal) ==> RecordEnabled(q.core) || !m.powered else m.journal != On
  {
    hide Run, Recover;
    JournalAlongRun(p, es);
    assert Truthful(Run(p, es).core.rail.moments[i]);
    RecoveryExact(q, powerLost);
  }

  /** The last recorded moment is still what a reset would find. */
  predicate Recorded(r: Rail) {
    r.moments != [] && r.moments[|r.moments| - 1] == Present(r).(at := r.moments[|r.moments| - 1].at)
  }

  lemma SwitchRecorded(r: Rail, latched: bool, on: bool)
    ensures Recorded(Switch(r, latched, on))
  {
    hide SetRelay, TruthfulFrom, Reaches, Keeps, SwitchMoments;
    SwitchTrace(r, latched, on);
  }

  lemma MoveRecorded(c: Core, m: Move)
    requires Recorded(c.rail)
    ensures Recorded(Do(c, m).rail)
  {
    hide Switch, Book, NextMedia, SelectMedia, TruthfulFrom, Reaches, Keeps, Recorded, WriteEnabled, Wait;
    match m
    case Idle(ms) => WaitRecorded(c.rail, ms);
    case Boots => SwitchRecorded(c.rail, Latched(c), true);
    case Kills => SwitchRecorded(c.rail, Latched(c), false);
    case FailsAndDies => SwitchRecorded(c.rail, Latched(c), false);
    case Disables => SwitchRecorded(WriteEnabled(c.rail, false), Latched(c), false);
    case Enables => EnabledRecorded(c.rail, true);
    case Repeats => EnabledRecorded(c.rail, false);
    case _ =>
  }

  lemma EnabledRecorded(r: Rail, b: bool)
    ensures Recorded(WriteEnabled(r, b))
  {
  }

  lemma WaitRecorded(r: Rail, ms: nat)
    requires Recorded(r)
    ensures Recorded(Wait(r, ms))
  {
  }

  lemma {:induction false} MovesRecorded(c: Core, ms: seq<Move>)
    requires Recorded(c.rail)
    ensures Recorded(DoAll(c, ms).rail)
    decreases |ms|
  {
    if ms != [] {
      hide Do, Recorded;
      MoveRecorded(c, ms[0]);
      MovesRecorded(Do(c, ms[0]), ms[1..]);
    }
  }

  /** Nothing a reset would find changes between the recorded moments, so a cut after any event is a cut at one. */
  lemma RecordedAlongRun(p: Port, es: seq<Event>)
    requires Recorded(p.core.rail)
    ensures Recorded(Run(p, es).core.rail)
  {
    hide Run, DoAll, Legal;
    var ms := Decompose(p, es);
    MovesRecorded(p.core, ms);
  }

  /** Power on a port that is recorded as disabled. */
  predicate Exposed(m: Moment, latched: bool) {
    !latched && !m.enabled && m.powered
  }

  predicate NoneExposed(ms: seq<Moment>, n: nat, latched: bool) {
    forall i :: n <= i < |ms| ==> !Exposed(ms[i], latched)
  }

  /** `disable` is called on a powered port other than port 0. */
  predicate Exposes(p: Port, e: Event) {
    e.DoDisable? && !Latched(p.core) && p.core.rail.powered
  }

  lemma SwitchExposes(r: Rail, latched: bool, on: bool, n: nat)
    requires n <= |r.moments|
    requires latched || r.enabled || (!on && !r.powered)
    ensures NoneExposed(Switch(r, latched, on).moments, n, latched) <==> NoneExposed(r.moments, n, latched)
  {
    hide Switch;
    var ms := Switch(r, latched, on).moments;
    forall i | |r.moments| <= i < |ms|
      ensures !Exposed(ms[i], latched)
    {
    }
    forall i | n <= i < |r.moments|
      ensures ms[i] == r.moments[i]
    {
    }
  }

  lemma RecordExposes(r: Rail, latched: bool, b: bool, n: nat)
    requires n <= |r.moments|
    ensures NoneExposed(WriteEnabled(r, b).moments, n, latched) <==>
        NoneExposed(r.moments, n, latched) && (latched || b || !r.powered)
  {
    var ms := WriteEnabled(r, b).moments;
    assert ms[|r.moments|] == Present(r.(enabled := b));
    forall i | n <= i < |r.moments|
      ensures ms[i] == r.moments[i]
    {
    }
  }

  predicate Sound(c: Core) {
    JournalSound(c) && EnablementSound(c) && DisabledIsOff(c)
  }

  lemma DisableExposes(c: Core, n: nat)
    requires !Latched(c) && n <= |c.rail.moments|
    ensures NoneExposed(Do(c, Disables).rail.moments, n, false) <==>
        NoneExposed(c.rail.moments, n, false) && !c.rail.powered
  {
    hide Switch, TruthfulFrom, Reaches, Keeps, NoneExposed, WriteEnabled;
    var r := WriteEnabled(c.rail, false);
    WriteEnabledGrows(c.rail, false);
    RecordExposes(c.rail, false, false, n);
    if c.rail.powered {
      StillExposed(r.moments, Switch(r, false, false).moments, n);
    } else {
      SwitchExposes(r, false, false, n);
    }
  }

  lemma StillExposed(ms: seq<Moment>, longer: seq<Moment>, n: nat)
    requires ms <= longer && !NoneExposed(ms, n, false)
    ensures !NoneExposed(longer, n, false)
  {
    var i :| n <= i < |ms| && Exposed(ms[i], false);
    assert longer[i] == ms[i];
  }

  /** Only disabling a powered port leaves moments with power on a port recorded as disabled. */
  lemma MoveExposes(c: Core, m: Move, n: nat)
    requires EnablementSound(c) && DisabledIsOff(c) && Can(c, m) && n <= |c.rail.moments|
    ensures |c.rail.moments| <= |Do(c, m).rail.moments|
    ensures NoneExposed(Do(c, m).rail.moments, n, Latched(c)) <==>
        NoneExposed(c.rail.moments, n, Latched(c)) && !(m == Disables && c.rail.powered)
  {
    hide Switch, Book, NextMedia, SelectMedia, TruthfulFrom, Reaches, Keeps, NoneExposed, WriteEnabled;
    match m
    case Boots => SwitchExposes(c.rail, Latched(c), true, n);
    case Kills => SwitchExposes(c.rail, Latched(c), false, n);
    case Disables =>
      WriteEnabledGrows(c.rail, false);
      DisableExposes(c, n);
    case Enables =>
      WriteEnabledGrows(c.rail, true);
      RecordExposes(c.rail, Latched(c), true, n);
    case Repeats =>
      WriteEnabledGrows(c.rail, false);
      RecordExposes(c.rail, Latched(c), false, n);
    case _ =>
  }

  /** Which events disable. */
  lemma DisableEvents(p: Port, e: Event)
    ensures var (a, b) := Moves(p, e);
            && (a == Disables <==> e.DoDisable? && !Latched(p.core) && p.core.phase != Disabled) && b != Disables
  {
    hide Disable, UpdateFault, UpdateHeartbeat;
  }

  lemma EventExposes(p: Port, e: Event, n: nat)
    requires Sound(p.core) && n <= |p.core.rail.moments|
    ensures Sound(Apply(p, e).core) && Apply(p, e).core.config == p.core.config
    ensures n <= |Apply(p, e).core.rail.moments|
    ensures NoneExposed(Apply(p, e).core.rail.moments, n, Latched(p.core)) <==>
        NoneExposed(p.core.rail.moments, n, Latched(p.core)) && !Exposes(p, e)
  {
    hide Apply, Do, Can, Moves, NoneExposed, EnablementSound, JournalSound;
    EventIsMoves(p, e);
    DisableEvents(p, e);
    var (a, b) := Moves(p, e);
    var d := Do(p.core, a);
    MoveGrows(p.core, a);
    MoveGrows(d, b);
    MoveKeepsJournal(p.core, a);
    MoveKeepsJournal(d, b);
    MoveKeepsEnablement(p.core, a);
    MoveKeepsEnablement(d, b);
    MoveExposes(p.core, a, n);
    MoveExposes(d, b, n);
  }

  lemma {:induction false} RunExposes(p: Port, es: seq<Event>, n: nat)
    requires Sound(p.core) && n <= |p.core.rail.moments|
    ensures Sound(Run(p, es).core) && Run(p, es).core.config == p.core.config
    ensures NoneExposed(Run(p, es).core.rail.moments, n, Latched(p.core)) <==>
        NoneExposed(p.core.rail.moments, n, Latched(p.core)) && Never(p, es, Exposes)
    decreases |es|
  {
    if es != [] {
      hide Apply, Sound, NoneExposed, Exposes;
      EventExposes(p, es[0], n);
      RunExposes(Apply(p, es[0]), es[1..], n);
    }
  }

  /** Start-up leaves journal and power in agreement, and no power on a disabled port. */
  predicate Recovers(q: Port, powerLost: bool) {
    var c := Recover(q, powerLost).core;
    Settled(c.rail) && DisabledIsOff(c)
  }

  /** Wherever the run is cut from its n-th moment on, with the power kept, start-up recovers. */
  ghost predicate SurvivesCuts(r: Rail, config: Config, n: nat) {
    forall i, q, powerLost :: n <= i < |r.moments| && ResetAt(q, config, r.moments[i], true) ==> Recovers(q, powerLost)
  }

  lemma MomentRecovers(q: Port, config: Config, m: Moment, powerLost: bool)
    requires ResetAt(q, config, m, true) && Truthful(m)
    ensures Recovers(q, powerLost) <==> !Exposed(m, config.port == 0)
  {
    hide Recover;
    RecoveryExact(q, powerLost);
  }

  /** A port that comes out of a reset at that moment. */
  function AfterReset(p: Port, m: Moment): (q: Port)
    ensures ResetAt(q, p.core.config, m, true)
  {
    p.(core := p.core.(rail := p.core.rail.(journal := m.journal, enabled := m.enabled, powered := m.powered)))
  }

  /** A run survives a reset at every moment if and only if no powered port other than port 0 is disabled in it. */
  lemma CutsExact(p: Port, es: seq<Event>)
    requires Sound(p.core)
    ensures SurvivesCuts(Run(p, es).core.rail, p.core.config, |p.core.rail.moments|) <==> Never(p, es, Exposes)
  {
    hide Run, Recovers, Never, Truthful, Exposed;
    var n := |p.core.rail.moments|;
    RunExposes(p, es, n);
    var r := Run(p, es).core.rail;
    forall i, q, powerLost | n <= i < |r.moments| && ResetAt(q, p.core.config, r.moments[i], true)
      ensures Recovers(q, powerLost) <==> !Exposed(r.moments[i], Latched(p.core))
    {
      MomentRecovers(q, p.core.config, r.moments[i], powerLost);
    }
    if SurvivesCuts(r, p.core.config, n) {
      forall i | n <= i < |r.moments|
        ensures !Exposed(r.moments[i], Latched(p.core))
      {
        var q := AfterReset(p, r.moments[i]);
        assert Recovers(q, false);
      }
    }
  }

  /** The disabling of a running port, cut after its first journal entry: start-up turns the journal to OFF and leaves
      the relay on. */
  lemma InterruptedDisable(p: Port, bootTime: Word, powerLost: bool)
    requires p.core.phase == Stopped && !Latched(p.core)
    ensures var ms := Disable(Start(p, bootTime)).core.rail.moments;
            var i := |Start(p, bootTime).core.rail.moments| + 1;
            && i < |ms| && ms[i].journal == TurningOff && ms[i].powered && !ms[i].enabled
            && var c := Recover(AfterReset(p, ms[i]), powerLost).core;
               c.phase == Disabled && c.rail.journal == Off && c.rail.powered
  {
    hide Start, Disable, Recover;
    var a := Start(p, bootTime);
    StartIsMove(p, bootTime);
    DisableIsMove(a);
    StartedOn(p.core);
    DisablePasses(a.core);
    var m := Disable(a).core.rail.moments[|a.core.rail.moments| + 1];
    RecoveryExact(AfterReset(p, m), powerLost);
    RecoveryIsMove(AfterReset(p, m), powerLost);
    hide Do;
    UndoEffect(Marked(AfterReset(p, m)), powerLost);
  }

  lemma StartedOn(c: Core)
    ensures var d := Do(c, Boots); d.phase == Started && d.rail.powered && d.config == c.config
  {
    hide Switch, Book;
  }

  lemma DisablePasses(c: Core)
    ensures var (ms, n) := (Do(c, Disables).rail.moments, |c.rail.moments|);
            n + 1 < |ms| && ms[n + 1] == Moment(TurningOff, c.rail.powered, false, c.rail.clock)
  {
    hide Switch;
  }

  /** Recovery itself is cut by a second reset: whatever the moment, the next recovery makes up for it if and only if
      the port had no power. */
  lemma SecondReset(p: Port, first: bool)
    requires Turning(p.core.rail.journal)
    ensures SurvivesCuts(Recover(p, first).core.rail, p.core.config, |p.core.rail.moments|) <==> !p.core.rail.powered
  {
    hide Recover, Do, UndoMove, Recovers;
    RecoveryIsMove(p, first);
    UndoEffect(Marked(p), first);
    var n := |p.core.rail.moments|;
    var ms := Recover(p, first).core.rail.moments;
    assert ms[n] == Marked(p).rail.moments[n];
    if p.core.rail.powered {
      LostTrack(AfterReset(p, ms[n]), false);
      assert ResetAt(AfterReset(p, ms[n]), p.core.config, ms[n], true);
    } else {
      UndoDark(Marked(p), first, n);
      forall i, q, second | n <= i < |ms| && ResetAt(q, p.core.config, ms[i], true)
        ensures Recovers(q, second)
      {
        MomentRecovers(q, p.core.config, ms[i], second);
      }
    }
  }

  /** The next recovery does not see the power behind an OFF entry. */
  lemma LostTrack(q: Port, powerLost: bool)
    requires q.core.rail.journal == Off && q.core.rail.powered
    ensures !Recovers(q, powerLost)
  {
    hide Recover;
    RecoveryExact(q, powerLost);
  }
}
