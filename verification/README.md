# Wagman firmware: verified core

The Wagman board supervises the power of five computers: it starts and stops them through relays, watches their
heartbeats, picks the medium they boot from, keeps persistent counters and boot logs, and runs its own calendar and
real-time clock. This project models that core in Dafny and proves what holds over whole runs of it, across counter
wrap-around, power loss at any byte, and all inputs the code accepts.

| file | models |
|---|---|
| `Machine.dfy` | integer ranges, the eight-entry log append |
| `Timer.dfy` | the timers of boards/v3/firmware/Timer.cpp |
| `Calendar.dfy` | `breakTime` and `makeTime` of boards/v3/firmware/Time.cpp |
| `Clock.dfy` | the breakdown cache and `now` of boards/v3/firmware/Time.cpp |
| `Rtc.dfy` | the MCP79412 driver of boards/v3/firmware/MCP79412RTC.cpp and the date commands of boards/v3/firmware/Wagman.cpp |
| `Supervisor.dfy` | the effect of every operation on one power port, and its reduction to twelve elementary moves |
| `SupervisorRuns.dfy` | theorems about all runs of a port |
| `SupervisorTiming.dfy` | exactly when the timers of a port act, and its boot log and current level over runs |
| `SupervisorResets.dfy` | theorems about runs cut by a reset, and start-up recovery |
| `Device.dfy` | the class of boards/v3/firmware/Device.cpp, method by method |
| `Storage.dfy` | the EEPROM layout, initialisation and boot logs of boards/v4/firmware/regular_mode/firmware as byte writes |
| `RecordStore.dfy` | the same as imperative code over a byte array |
| `Bootloader.dfy` | the flash DNLOAD and UPLOAD loops of the LUFA DFU bootloader |
| `Scheduler.dfy` | the delay test of the LUFA scheduler |

How to read it. Integer widths are explicit: a `Byte`, `Short` or `Word` assignment carries a no-overflow obligation, and
where the source wraps the model reduces modulo 2^8, 2^16 or 2^32. True time is an unbounded count of milliseconds (or
ticks) of which the code sees only the low bits. A crash of the record is a prefix of an operation's byte writes; a reset of
the supervisor is one of the recorded moments of its run, of which there is one after every write to the journal, a relay
pin or the enable flag. The port supervisor is stated twice: as functions on a value (`Supervisor`), on which the
run theorems are proved, and as a class (`Device`) whose every method is proved to have exactly those effects.

Where the code differs from what its comments or names suggest, the model follows the code:

- `onHeartbeat` in DISABLED repeats `disable` "until no more heartbeat", but `kill` refuses a disabled port, so the relay is
  never touched (`HeartbeatNeverKillsDisabled`).
- The timed unmanaged switch is computed from the attempt counter after it was incremented, so the first switch repeats the
  medium (`UnmanagedAlternation`).
- A heartbeat in STOPPED starts the port with its old `managed` flag, so the failure count can pass 1024
  (`RevivalPassesLimit`). It keeps its limit throughout a run exactly when no heartbeat comes to a stopped port that was last
  booted under management and has reached the limit (`FailuresWithinLimit`).
- Start-up recovery sets the relay journal to OFF before it drives the relay, so on a powered port the journal is wrong for a
  while (`RecoveryTruthful`) and a second reset in that time goes unnoticed (`SecondReset`).
- `disable` records the port as disabled before it switches the relay off. A reset in between leaves a powered port that
  recovery refuses to kill (`InterruptedDisable`); a run survives a reset at every moment exactly when it disables no powered
  port other than port 0 (`CutsExact`).
- Setting the real-time clock to a time before 2000 reads back 96 years late (`SetGetExact`).
- A flash range that starts inside a page and crosses its end is programmed wrongly (`DownloadExact`), and a full 64 KB range
  programs nothing (`WordsInExact`).
- The scheduler's wrapped branch loses a tick per counter wrap (`PollEveryTick`), and a delay of 65535 may never elapse
  (`LargestDelay`).

Assumptions of the run theorems: the record of a port is changed only through its device's operations, and the state of
journal and relay at the start is as each theorem states. Across a reset the record keeps its bytes and memory is lost.
`Wagman::init` only sets pin modes, so what a reset does to the power depends on the board: `CutAlongRun` covers both a reset
that keeps the power and one that drops it, `CutsExact` and `SecondReset` the one that keeps it.

## Model

| member | source | states |
|---|---|---|
| `Calendar.BreakTime` | boards/v3/firmware/Time.cpp:151-202 | for every 32-bit time the result is the valid civil date of that instant, weekday included, on 16-bit and 32-bit `unsigned` |
| `Calendar.SplitYear` | boards/v3/firmware/Time.cpp:170-178 | the year loop finds the year of a day number; the 8-bit year, the 32-bit sum and the 16-bit cast in its test never overflow |
| `Calendar.SplitMonth` | boards/v3/firmware/Time.cpp:180-201 | the month loop always leaves by its break, with a month 1..12 and a day within that month's length |
| `Calendar.MakeTime` | boards/v3/firmware/Time.cpp:204-233 | for every tuple of bytes with month at most 13 the result is the instant modulo 2^32 |
| `Calendar.AddYears` | boards/v3/firmware/Time.cpp:213-218 | the year loop adds the seconds of all earlier years, modulo 2^32 |
| `Calendar.AddMonths` | boards/v3/firmware/Time.cpp:220-227 | the month loop adds the seconds of all earlier months of the year, modulo 2^32 |
| `Calendar.BreakThenMake` | boards/v3/firmware/Time.cpp:151-233 | `makeTime(breakTime(t))` is `t` for every 32-bit `t` |
| `Calendar.MakeThenBreak` | boards/v3/firmware/Time.cpp:151-233 | `breakTime(makeTime(tm))` gives back the six fields of every valid date that fits 32 bits |
| `Calendar.InstantIsPosix` | boards/v3/firmware/Time.cpp:213-231 | the loops' sum is the closed formula of section 4.16 (Seconds Since the Epoch) of POSIX.1-2017 Base Definitions, with the day of the year in closed form too |
| `Calendar.DaysBeforeYearClosed` | boards/v3/firmware/Time.cpp:147-218 | the leap years counted one by one are the closed count by 4, 100 and 400 |
| `Calendar.DaysBeforeMonthClosed` | boards/v3/firmware/Time.cpp:149-227 | the month table adds up to a closed formula for the day of the year that names no month length |
| `Calendar.WeekdaysFollow` | boards/v3/firmware/Time.cpp:168 | 1970-01-01 is weekday 5, Thursday; the weekday holds all day and the next day has the next one |
| `Calendar.InstantOrder` | boards/v3/firmware/Time.cpp:204-233 | instants of valid dates compare exactly as the six fields compare lexicographically |
| `Calendar.MakeTimeInOrder` | boards/v3/firmware/Time.cpp:204-233 | two 32-bit results of `makeTime` on valid dates compare exactly as the dates do, and are equal only for equal dates |
| `Calendar.BreakdownUnique` | boards/v3/firmware/Time.cpp:151-202 | an instant has only one civil date |
| `Calendar.BreakdownOfInstant` | boards/v3/firmware/Time.cpp:151-233 | the civil date of a valid date's instant is that date |
| `Calendar.Breakdown` | boards/v3/firmware/Time.cpp:151-202 | every 32-bit instant has a civil date, in a year that fits eight bits |
| `Clock.TimeService.RefreshCache` | boards/v3/firmware/Time.cpp:42-47 | afterwards the cache is right for the time asked exactly when it was coherent or held another time |
| `Clock.TimeService.Hour` | boards/v3/firmware/Time.cpp:53-56 | the hour of the civil date of its argument, from a coherent cache or for another time than the cached one |
| `Clock.TimeService.HourFormat12` | boards/v3/firmware/Time.cpp:62-70 | the same hour on a 12-hour dial |
| `Clock.TimeService.IsAM` | boards/v3/firmware/Time.cpp:72-78 | whether the hour of the civil date of its argument is before noon, under the same condition |
| `Clock.TimeService.IsPM` | boards/v3/firmware/Time.cpp:80-86 | whether it is not |
| `Clock.TimeService.Minute` | boards/v3/firmware/Time.cpp:92-95 | the minute of the civil date of its argument, under the same condition |
| `Clock.TimeService.Second` | boards/v3/firmware/Time.cpp:101-104 | the second, likewise |
| `Clock.TimeService.Day` | boards/v3/firmware/Time.cpp:110-113 | the day of the month, likewise |
| `Clock.TimeService.Weekday` | boards/v3/firmware/Time.cpp:119-122 | the weekday, likewise |
| `Clock.TimeService.Month` | boards/v3/firmware/Time.cpp:128-131 | the month, likewise |
| `Clock.TimeService.Year` | boards/v3/firmware/Time.cpp:137-140 | the four-digit year, likewise |
| `Clock.TimeService.CatchUpLoop` | boards/v3/firmware/Time.cpp:252-259 | the catch-up loop ends on the remaining wrapped difference, with the seconds that truly passed until its last sample, even if the clock is sampled anew on each turn |
| `Clock.TimeService.CatchUp` | boards/v3/firmware/Time.cpp:252-259 | exact for every gap between calls: each counter period that passes unseen is lost, and no more |
| `Clock.TimeService.Now` | boards/v3/firmware/Time.cpp:250-272 | without a sync due, the time set plus the whole seconds truly passed since, modulo 2^32, whatever calls came between, less any counter period that passed unseen; none does if calls are less than 2^32 - 1000 ms apart; when a sync is due by that time, the provider's time with the next sync scheduled, or NEEDS SYNC if it has none |
| `Clock.TimeService.SetTime` | boards/v3/firmware/Time.cpp:274-284 | restarts the count from the given time and schedules the next sync |
| `Clock.TimeService.SetTimeFields` | boards/v3/firmware/Time.cpp:286-300 | sets the clock to the fields' instant; a coherent cache stays coherent exactly when the six fields are the cached ones |
| `Clock.TimeService.AdjustTime` | boards/v3/firmware/Time.cpp:302-304 | shifts every later reading by the adjustment |
| `Clock.ReadAlongRun` | boards/v3/firmware/Time.cpp:250-284 | no drift: every reading of a run of any length is exact to the second, across any number of counter wraps |
| `Clock.ReadAt` | boards/v3/firmware/Time.cpp:250-272 | one reading of such a run is exact and leaves the base of the count alone |
| `Clock.CacheAlongRun` | boards/v3/firmware/Time.cpp:38-140 | over any sequence of accessor, `setTime(time_t)`, `adjustTime` and `now` calls a coherent cache stays coherent and every accessor answers with its part of the civil date of its argument |
| `Clock.Accessor` | boards/v3/firmware/Time.cpp:49-140 | one accessor call from a coherent cache |
| `Clock.FirstMonth` | boards/v3/firmware/Time.cpp:38-47 | the all-zero initial cache answers month 0 for instant 0 |
| `Rtc.BcdRoundTrip` | boards/v3/firmware/MCP79412RTC.cpp:632-643 | the byte codec is faithful exactly below 160, and loses 160 above |
| `Rtc.EncodeShows` | boards/v3/firmware/MCP79412RTC.cpp:114-131 | a date of 2000 to 2099 is written digit by digit in the order second, minute, hour, weekday, day, month, year, with both control bits |
| `Rtc.EncodeStarts` | boards/v3/firmware/MCP79412RTC.cpp:119-129 | every write sets the oscillator bit and the battery bit |
| `Rtc.DecodeEncode` | boards/v3/firmware/MCP79412RTC.cpp:90-131 | a written date reads back whatever the hardware puts in OSCON, VBAT and the leap-year bit; years before 2000 come back 96 years late |
| `Rtc.SetGetExact` | boards/v3/firmware/MCP79412RTC.cpp:65-131 | `get` after `set(t)` is `t` if and only if `t` is not before 2000 |
| `Rtc.Driver.Write` | boards/v3/firmware/MCP79412RTC.cpp:114-131 | leaves the register image of the date, and every other register alone |
| `Rtc.Driver.Read` | boards/v3/firmware/MCP79412RTC.cpp:90-109 | decodes the registers, or fails when the chip is absent |
| `Rtc.Driver.Set` | boards/v3/firmware/MCP79412RTC.cpp:78-84 | stores the civil date of the time with oscillator and battery enabled; from 2000 to 2099 the chip shows its digits in their registers |
| `Rtc.Driver.Get` | boards/v3/firmware/MCP79412RTC.cpp:65-73 | the instant of the stored date modulo 2^32, or 0 when the chip is absent |
| `Rtc.SetThenGet` | boards/v3/firmware/MCP79412RTC.cpp:65-131 | the round trip as calls on an unticked clock, with any hardware bits |
| `Rtc.Driver.SetDateTime` | boards/v3/firmware/Wagman.cpp:365-379 | stores every valid date that fits 32 bits, and from 2000 to 2099 the chip shows just its fields; nothing when the bus is off |
| `Rtc.Driver.GetDateTime` | boards/v3/firmware/Wagman.cpp:342-363 | the stored date, or zeros when the bus is off |
| `Rtc.SetThenGetDate` | boards/v3/firmware/Wagman.cpp:342-379 | `setDateTime` then `getDateTime` returns every valid date from 2000 on |
| `Rtc.Driver.PowerFail` | boards/v3/firmware/MCP79412RTC.cpp:420-470 | reports an outage once and clears it; for sensible registers both times are the reconstruction, in order and less than 366 days apart |
| `Rtc.OutageSane` | boards/v3/firmware/MCP79412RTC.cpp:434-465 | the reconstructed outage is not negative and shorter than 366 days, over the year roll-over and on 29 February |
| `Rtc.OutageExact` | boards/v3/firmware/MCP79412RTC.cpp:406-465 | the guessed power-down time is the true one exactly when the outage began in the year it ended, or in the year before at a later time of year |
| `Rtc.OutageRecovered` | boards/v3/firmware/MCP79412RTC.cpp:406-465 | every outage shorter than 365 days that ends in the current year is recovered to the minute |
| `Rtc.StampRoundTrip` | boards/v3/firmware/MCP79412RTC.cpp:434-445 | a stamp is read back from its registers, whatever weekday shares the month byte |
| `Timer.ElapsedIsTrue` | boards/v3/firmware/Timer.cpp:10-23 | a timer measures true time modulo 2^32, and exactly below 2^32 ms, across wraps |
| `Supervisor.SetRelay` | boards/v3/firmware/Wagman.cpp:139-157 | leaves pin and power as asked; on port 0 the power changes only at the latch's rising edge |
| `Supervisor.Switch` | boards/v3/firmware/Device.cpp:136-141 | whatever the state before, leaves journal and power in agreement through truthful moments only, with the power changed 10 ms in, or 110 ms on port 0 |
| `Supervisor.StartOutcome` | boards/v3/firmware/Device.cpp:81-115 | a start outside STOPPED changes nothing; otherwise state, journal, power, regime, force and attempt count after it |
| `Supervisor.KillOutcome` | boards/v3/firmware/Device.cpp:129-148 | a kill in DISABLED changes nothing; otherwise the port is STOPPED, its journal OFF and its power off |
| `Supervisor.DisableOutcome` | boards/v3/firmware/Device.cpp:156-164 | ports 1..4 end DISABLED and recorded so; they keep their power exactly if they were DISABLED with it |
| `Supervisor.HeartbeatOutcome` | boards/v3/firmware/Device.cpp:342-359 | a heartbeat resets the heartbeat timer, and starts a stopped port without touching its relay |
| `Supervisor.HeartbeatIsMove` | boards/v3/firmware/Device.cpp:342-359 | a heartbeat acts as one elementary move, possible in its state |
| `Supervisor.StateIsMove` | boards/v3/firmware/Device.cpp:211-324 | a state update acts as one elementary move, possible in its state |
| `Supervisor.EventIsMoves` | boards/v3/firmware/Device.cpp:73-359 | every event acts as at most two elementary moves, each possible when it is made |
| `SupervisorRuns.Decompose` | boards/v3/firmware/Device.cpp:73-359 | every run is a sequence of possible moves, forcing media only where the run does |
| `SupervisorRuns.JournalAlongRun` | boards/v3/firmware/Device.cpp:105-110 | at every intermediate step of every run a journal entry ON or OFF is true of the power, and each completed operation leaves such an entry |
| `SupervisorRuns.EnablementAlongRun` | boards/v3/firmware/Device.cpp:24-39 | after `init`, in every reachable state ports 1..4 are disabled exactly when recorded so, port 0 never is, STARTING is never entered, and a disabled port is unpowered if it was at `init` |
| `SupervisorRuns.HeartbeatNeverKillsDisabled` | boards/v3/firmware/Device.cpp:349-353 | a heartbeat from a disabled port leaves its relay alone |
| `SupervisorRuns.SelectorAlongRun` | boards/v3/firmware/Device.cpp:73-92 | the selector pin always shows the medium forced for the next boot, or else that of the last boot |
| `SupervisorRuns.FailuresArePaidFor` | boards/v3/firmware/Device.cpp:259-267 | over any run boot failures never outnumber successful starts plus revivals, plus the stay the run began in |
| `SupervisorRuns.FailuresWithinLimit` | boards/v3/firmware/Device.cpp:81-115 | throughout a run the failure count stays within 1024, and below it while a managed port is started, if and only if no heartbeat revives a managed port that has reached 1024 |
| `SupervisorRuns.EventWithinLimit` | boards/v3/firmware/Device.cpp:342-359 | the same for one event, by a test made before it |
| `SupervisorRuns.MoveWithinLimit` | boards/v3/firmware/Device.cpp:259-267 | an elementary move leaves the limit exactly when it revives a managed port at 1024 |
| `SupervisorRuns.RevivalPassesLimit` | boards/v3/firmware/Device.cpp:354-356 | one revival of a managed port at the limit takes the count past it |
| `SupervisorRuns.UnmanagedForever` | boards/v3/firmware/Device.cpp:81-84 | once 1024 is reached, the port stays past the limit throughout a run if and only if no managed port is revived; then every boot is unmanaged and the count stays |
| `SupervisorRuns.ForceHolds` | boards/v3/firmware/Device.cpp:73-92 | a forced medium stays latched until the next successful start; each timed switch before it inverts it |
| `SupervisorRuns.ForceGovernsNextBoot` | boards/v3/firmware/Device.cpp:53-92 | the latest force governs exactly the next successful start, and is consumed by it |
| `SupervisorRuns.ManagedRotation` | boards/v3/firmware/Device.cpp:53-63 | when every boot ends in one heartbeat failure, the i-th boot uses the secondary medium exactly when its failure count is 3 modulo 4 |
| `SupervisorRuns.OneInFour` | README.md:15 | any four consecutive failing boots use the secondary medium exactly once |
| `SupervisorRuns.UnmanagedAlternation` | boards/v3/firmware/Device.cpp:293-302 | an unforced first boot uses the attempt-parity medium, the second repeats it, every later one is the opposite of the one before, through the 16-bit wrap |
| `SupervisorRuns.UnmanagedRun` | boards/v3/firmware/Device.cpp:64-70 | the medium of every boot of an unmanaged run, from any forced or unforced start |
| `SupervisorRuns.StoppingIsKilled` | boards/v3/firmware/Device.cpp:304-324 | a stopping port is killed within its stop timeout plus one poll gap, and heartbeats never postpone it |
| `SupervisorRuns.BoundedResponse` | boards/v3/firmware/Device.cpp:259-267 | a managed, watched port without heartbeats is powered off within the heartbeat timeout, the stop timeout and two poll gaps of its last heartbeat, plus the switching lag, across clock wraps |
| `SupervisorRuns.FailedCycleOccurs` | boards/v3/firmware/Device.cpp:259-267 | boot, an hour of silence and the stop timeout make up a failed cycle |
| `SupervisorRuns.SwitchedCycleOccurs` | boards/v3/firmware/Device.cpp:293-302 | unmanaged boot, four hours and the stop timeout make up a switched cycle |
| `SupervisorTiming.HeartbeatExact` | boards/v3/firmware/Device.cpp:259-267 | from a managed start on, without commands: a boot failure is counted if and only if the heartbeat is watched and some poll finds the last one more than an hour old; until then the port stays started with power |
| `SupervisorTiming.HeartbeatsKeepRunning` | boards/v3/firmware/Device.cpp:342-359 | a port whose heartbeats come at most an hour apart in true time, as external ones or as eight pulses on the line, is never given up |
| `SupervisorTiming.WatchedRun` | boards/v3/firmware/Device.cpp:176-183 | the same from any moment of a managed stay |
| `SupervisorTiming.UnwatchedRun` | boards/v3/firmware/Device.cpp:259-267 | a managed port whose heartbeat is not watched runs on |
| `SupervisorTiming.StopExact` | boards/v3/firmware/Device.cpp:304-324 | from a stop on, without commands: the relay is driven if and only if some poll comes later than the stop timeout; until then the port keeps its power, heartbeats or not |
| `SupervisorTiming.StoppingEvent` | boards/v3/firmware/Device.cpp:304-324 | the timed kill, by exactly which poll, and the stop timeout set back to a minute by it |
| `SupervisorTiming.SwitchExact` | boards/v3/firmware/Device.cpp:293-302 | from an unmanaged start on, without commands: the medium is switched if and only if some poll comes more than four hours after the start; until then the port stays started with power |
| `SupervisorTiming.DefaultStopTimeout` | boards/v3/firmware/Device.cpp:24-33 | unless told otherwise a port gets a minute to stop, throughout a run |
| `SupervisorTiming.FirstBootAfterInit` | boards/v3/firmware/Device.cpp:24-33 | a boot right after `init` goes by the counters, whatever was forced before |
| `SupervisorTiming.LogAlongRun` | boards/v3/firmware/Device.cpp:101-103 | over any run the boot log holds the latest eight times of successful starts, oldest first |
| `SupervisorTiming.LevelAlongRun` | boards/v3/firmware/Device.cpp:185-206 | over any run the current level is the number of thresholds that the last valid reading reaches |
| `SupervisorResets.RecoveryExact` | boards/v3/firmware/firmware.ino:897-917 | start-up settles an interrupted relay operation if and only if the port is recorded as enabled or has no power, leaves a settled port settled, and leaves a disabled port with power exactly when it was recorded as disabled and had power |
| `SupervisorResets.RecoveryOutcome` | boards/v3/firmware/firmware.ino:897-917 | with a relay operation interrupted, a reset that lost power leaves every port but port 0 DISABLED and recorded so, any other reset leaves it as recorded, and the journal is OFF; otherwise journal, power and flag stay |
| `SupervisorResets.RecoveryTruthful` | boards/v3/firmware/firmware.ino:905-915 | the journal is truthful throughout the recovery of an interrupted operation if and only if the port has no power |
| `SupervisorResets.SecondReset` | boards/v3/firmware/firmware.ino:905-915 | recovery cut by a reset at any moment is made up for by the next one if and only if the port had no power |
| `SupervisorResets.CutAlongRun` | boards/v3/firmware/Device.cpp:105-141 | any run cut at any moment: journal and power agree after start-up exactly unless, with power kept, a relay operation was under way on a powered port recorded as disabled, or, with power dropped, the journal said ON |
| `SupervisorResets.RecordedAlongRun` | boards/v3/firmware/Device.cpp:73-359 | after every event of a run the last recorded moment is what a reset would find, so no cut is missed |
| `SupervisorResets.CutsExact` | boards/v3/firmware/Device.cpp:156-164 | after a reset at every moment of a run start-up leaves journal and power in agreement and no disabled port powered, if and only if the run disables no powered port other than port 0 |
| `SupervisorResets.MoveExposes` | boards/v3/firmware/Device.cpp:129-164 | of the elementary moves, only disabling a powered port passes through moments with power on a port recorded as disabled |
| `SupervisorResets.InterruptedDisable` | boards/v3/firmware/Device.cpp:136-157 | a port started and then disabled, with a reset after the TURNING_OFF entry, comes out DISABLED with journal OFF and power on |
| `DeviceClass.Device.Init` | boards/v3/firmware/Device.cpp:24-39 | the class performs exactly the port's `Init` |
| `DeviceClass.Device.Start` | boards/v3/firmware/Device.cpp:81-115 | refused without any change unless STOPPED; otherwise managed by the failure count, force consumed, attempt counted, journal ON, power on and STARTED, exactly as the run theorems use it |
| `DeviceClass.Device.Stop` | boards/v3/firmware/Device.cpp:117-127 | refused unless STARTED; otherwise STOPPING with fresh timers |
| `DeviceClass.Device.Kill` | boards/v3/firmware/Device.cpp:129-148 | refused without any change when DISABLED; otherwise journal OFF, power off and STOPPED |
| `DeviceClass.Device.Enable` | boards/v3/firmware/Device.cpp:150-154 | records the port as enabled and stops it without touching the relay |
| `DeviceClass.Device.Disable` | boards/v3/firmware/Device.cpp:156-164 | ports 1..4 are recorded as disabled and DISABLED, without power unless they were DISABLED with it; port 0 is only killed |
| `DeviceClass.Device.GetNextBootMedia` | boards/v3/firmware/Device.cpp:53-71 | the medium the next boot would use |
| `DeviceClass.Device.SetNextBootMedia` | boards/v3/firmware/Device.cpp:73-79 | latches the forced medium and moves the selector |
| `DeviceClass.Device.OnHeartbeat` | boards/v3/firmware/Device.cpp:342-359 | resets the heartbeat timer and nothing else of a started or stopping port, starts a stopped one, repeats `disable` on a disabled one |
| `DeviceClass.Device.UpdateHeartbeat` | boards/v3/firmware/Device.cpp:176-183 | eight pulses make a heartbeat |
| `DeviceClass.Device.UpdateFault` | boards/v3/firmware/Device.cpp:185-206 | classifies the current and restarts its timer on a change |
| `DeviceClass.Device.UpdateStartedManaged` | boards/v3/firmware/Device.cpp:259-291 | a heartbeat timeout counts a failure and stops the port |
| `DeviceClass.Device.UpdateStartedUnmanaged` | boards/v3/firmware/Device.cpp:293-302 | four hours switch the medium and stop the port |
| `DeviceClass.Device.UpdateStopping` | boards/v3/firmware/Device.cpp:304-324 | the stop timeout restores its default and kills the port |
| `DeviceClass.Device.UpdateState` | boards/v3/firmware/Device.cpp:211-257 | dispatches on the state |
| `DeviceClass.Device.Update` | boards/v3/firmware/Device.cpp:170-174 | heartbeat, fault and state updates in that order |
| `DeviceClass.Device.SetRelay` | boards/v3/firmware/Wagman.cpp:139-157 | the pin and latch sequence, step by step |
| `DeviceClass.Device.SwitchRelay` | boards/v3/firmware/Device.cpp:136-141 | the journalled sequence around it |
| `DeviceClass.Device.SetBootMedia` | boards/v3/firmware/Wagman.cpp:232-245 | drives a valid selector for a known medium, and nothing otherwise |
| `DeviceClass.Device.Recover` | boards/v3/firmware/firmware.ino:897-917 | start-up initialisation and recovery of one port, with the resulting state, enable flag and journal by reset cause |
| `DeviceClass.Device.PerformAll` | boards/v3/firmware/Device.cpp:73-359 | any sequence of calls follows `Supervisor.Run` |
| `DeviceClass.Device.InitAndPerform` | boards/v3/firmware/Device.cpp:24-359 | after `init` and any sequence of calls: journal true of the power and truthful throughout, state in line with the enable flag, disabled ports off, failures paid for by starts and revivals, and within 1024 unless a managed port at the limit is revived |
| `DeviceClass.FieldLaws` | boards/v3/firmware/Device.cpp:24-359 | the run theorems behind it, for a port just initialised |
| `Storage.FieldsDisjoint` | boards/v4/firmware/regular_mode/firmware/Record.cpp:22-71 | all persisted fields of the globals and the five ports, boot log entries included, occupy pairwise disjoint bytes |
| `Storage.GlobalFormat` | boards/v4/firmware/regular_mode/firmware/Record.cpp:22-29 | which bytes each getter of the globals reads, low byte first |
| `Storage.PortFormat` | boards/v4/firmware/regular_mode/firmware/Record.cpp:42-71 | which bytes each getter of a port and its boot log reads |
| `Storage.BytesRoundTrip` | boards/v4/firmware/regular_mode/firmware/EEPROM.h:16-32 | a value is recovered from its bytes |
| `Storage.SetThenRead` | boards/v4/firmware/regular_mode/firmware/Record.cpp:144-308 | every setter reads back |
| `Storage.SetFrames` | boards/v4/firmware/regular_mode/firmware/Record.cpp:144-308 | a setter stopped after any number of its bytes leaves every other field alone |
| `Storage.InitCrashSafe` | boards/v4/firmware/regular_mode/firmware/Record.cpp:100-138 | from an uninitialised record, after every byte prefix of `init`, initialised implies that every value of a new record is in place |
| `Storage.InitCompletes` | boards/v4/firmware/regular_mode/firmware/Record.cpp:100-138 | a complete `init` leaves an initialised new record from any memory: zero counters, journals, health bytes and logs, ports 0 to 2 enabled, versions 3.1 and 1.0, bus enabled |
| `Storage.DefaultsMakeNewRecord` | boards/v4/firmware/regular_mode/firmware/Record.cpp:100-138 | the fields that `init` writes are all those of a new record, with its values |
| `Storage.NewRecordBytes` | boards/v4/firmware/regular_mode/firmware/Record.cpp:22-29 | the bytes of a new record: magic word low byte first, versions, bus and port flags at their addresses |
| `Storage.BootsEndInitialized` | boards/v3/firmware/firmware.ino:817-837 | however many boots of a new record went before and wherever each was cut, a boot that runs through leaves it initialised, with its own time, the boot count one up, and every other default in place |
| `Storage.BootKeepsPending` | boards/v3/firmware/firmware.ino:817-837 | a boot cut after any byte write leaves the record either not initialised or with every default in place, the last boot time and boot count apart |
| `Storage.StampStores` | boards/v3/firmware/firmware.ino:836-837 | the boot's time and the boot count one up, with 32-bit wrap |
| `Storage.ClearMagicAtOnce` | boards/v4/firmware/regular_mode/firmware/Record.cpp:140-142 | after any nonempty byte prefix of `clearMagic` the record is not initialised |
| `Storage.RingAppend` | boards/v4/firmware/regular_mode/firmware/Record.cpp:357-371 | writing the next slot and moving the header appends to the list of the last eight, also when the start byte wraps at 256 |
| `Storage.AddEntryAppends` | boards/v4/firmware/regular_mode/firmware/Record.cpp:357-371 | `addEntry` on the bytes appends to the list of the last eight |
| `Storage.AddEntryCrash` | boards/v4/firmware/regular_mode/firmware/Record.cpp:357-371 | cut inside the entry bytes, a log with room reads as before, and a full one differs at most in its oldest entry |
| `Storage.LogRefinesList` | boards/v4/firmware/regular_mode/firmware/Record.cpp:346-412 | any number of `addEntry` calls refines appending to the list |
| `Storage.LastEight` | boards/v4/firmware/regular_mode/firmware/Record.cpp:357-387 | appending to an empty log leaves the last eight times, oldest first |
| `RecordStore.Eeprom.Put` | boards/v4/firmware/regular_mode/firmware/EEPROM.h:25-32 | writes the bytes in order, and nothing else |
| `RecordStore.Eeprom.Get` | boards/v4/firmware/regular_mode/firmware/EEPROM.h:16-23 | reads the bytes of the range |
| `RecordStore.Eeprom.SetField` | boards/v4/firmware/regular_mode/firmware/Record.cpp:144-308 | makes exactly the byte writes of the field |
| `RecordStore.Eeprom.GetField` | boards/v4/firmware/regular_mode/firmware/Record.cpp:144-308 | the stored value of the field |
| `RecordStore.Eeprom.Increment` | boards/v4/firmware/regular_mode/firmware/Record.cpp:199-278 | adds one with 32-bit wrap and leaves every other field alone |
| `RecordStore.Eeprom.GetDeviceEnabled` | boards/v4/firmware/regular_mode/firmware/Record.cpp:212-224 | port 0 is always enabled, a port the board lacks never |
| `RecordStore.Eeprom.SetBootloaderNodeController` | boards/v4/firmware/regular_mode/firmware/Record.cpp:159-167 | an unknown mode is stored as the safe one, and every other field keeps its value |
| `RecordStore.Eeprom.IsInitialized` | boards/v4/firmware/regular_mode/firmware/Record.cpp:89-98 | whether the magic word is there |
| `RecordStore.Eeprom.Init` | boards/v4/firmware/regular_mode/firmware/Record.cpp:100-138 | makes exactly the writes of the crash theorems, magic word last, and leaves a new record |
| `RecordStore.Eeprom.Setup` | boards/v3/firmware/firmware.ino:817-837 | makes exactly the byte writes of the boot theorems |
| `RecordStore.Eeprom.StampBoot` | boards/v3/firmware/firmware.ino:836-837 | makes exactly the byte writes of the two fields each boot changes |
| `RecordStore.Eeprom.ClearMagic` | boards/v4/firmware/regular_mode/firmware/Record.cpp:140-142 | the record is no longer initialised |
| `RecordStore.Eeprom.InitLog` | boards/v4/firmware/regular_mode/firmware/Record.cpp:351-355 | the log is empty, and every field but its header keeps its value |
| `RecordStore.Eeprom.AddEntry` | boards/v4/firmware/regular_mode/firmware/Record.cpp:357-371 | makes exactly the writes of the crash theorems and appends to the list |
| `RecordStore.Eeprom.GetEntry` | boards/v4/firmware/regular_mode/firmware/Record.cpp:373-387 | the i-th oldest entry, or 0 beyond the end |
| `RecordStore.LogAndReadBack` | boards/v4/firmware/regular_mode/firmware/Record.cpp:351-387 | logging any times and reading all entries gives the last eight, oldest first |
| `Bootloader.DownloadStores` | boards/v3/bootloader/LUFA-111009/Bootloaders/DFU/BootloaderDFU.c:255-318 | a page-aligned download, or one within a page, leaves exactly the received words, the rest of their pages erased and every other page as it was |
| `Bootloader.DownloadExact` | boards/v3/bootloader/LUFA-111009/Bootloaders/DFU/BootloaderDFU.c:255-318 | downloads to an address are right for all contents if and only if it is page-aligned or the words stay within its page |
| `Bootloader.WordsInExact` | boards/v3/bootloader/LUFA-111009/Bootloaders/DFU/BootloaderDFU.c:255-261 | the word count is the range's length exactly for even lengths short of 64 KB; a full 64 KB counts as none |
| `Bootloader.BytesOfWord` | boards/v3/bootloader/LUFA-111009/Bootloaders/DFU/BootloaderDFU.c:639-650 | the blank check reads the low byte of a word at its even address and the high byte at the odd one |
| `Bootloader.EraseThenCommit` | boards/v3/bootloader/LUFA-111009/Bootloaders/DFU/BootloaderDFU.c:272-311 | each page of an aligned range is erased once and then committed once, in order |
| `Bootloader.Dfu.LoadStartEndAddresses` | boards/v3/bootloader/LUFA-111009/Bootloaders/DFU/BootloaderDFU.c:580-592 | the high and low byte of each address are the bytes of the command, high byte first |
| `Bootloader.Dfu.ProcessMemProgCommand` | boards/v3/bootloader/LUFA-111009/Bootloaders/DFU/BootloaderDFU.c:597-622 | loads the range, erases the first flash page and nothing else, and arms the download, in any 64 KB page |
| `Bootloader.Dfu.ProcessMemReadCommand` | boards/v3/bootloader/LUFA-111009/Bootloaders/DFU/BootloaderDFU.c:628-666 | loads the range and arms the upload; the blank check reports an error exactly when the application section is not blank, with its first byte that is not |
| `Bootloader.Dfu.DownloadFlash` | boards/v3/bootloader/LUFA-111009/Bootloaders/DFU/BootloaderDFU.c:242-318 | while a download is armed, data goes through the loop and a request without data ends it; otherwise nothing changes |
| `Bootloader.Dfu.WriteWords` | boards/v3/bootloader/LUFA-111009/Bootloaders/DFU/BootloaderDFU.c:258-318 | for every range the loop has the effect and the page operations the theorems describe, and leaves the page buffer empty |
| `Bootloader.Dfu.UploadFlash` | boards/v3/bootloader/LUFA-111009/Bootloaders/DFU/BootloaderDFU.c:376-419 | sends exactly the words of the range, also where it wraps at the end of flash |
| `Bootloader.ProgramAndReadBack` | boards/v3/bootloader/LUFA-111009/Bootloaders/DFU/BootloaderDFU.c:376-419 | programming an aligned range and reading it back returns the words sent, with nothing outside their pages changed |
| `Scheduler.HasDelayElapsed` | boards/v3/bootloader/LUFA-111009/LUFA/Scheduler/Scheduler.c:36-69 | never fires early however rarely it is polled, and at most a tick late when polled within a counter period: it measures true time modulo 2^16, less one tick for a wrap |
| `Scheduler.PollEveryTick` | boards/v3/bootloader/LUFA-111009/LUFA/Scheduler/Scheduler.c:36-69 | drift law: the n-th firing comes n delays plus one tick per counter wrap after the reset, and the next is not yet due |
| `Scheduler.LargestDelay` | boards/v3/bootloader/LUFA-111009/LUFA/Scheduler/Scheduler.c:51-66 | a delay of 65535 can elapse only from a counter of zero |

## Left out

- I2C and SPI transactions, `delay` inside sensor reads, LEDs, ADC, thermistors, serial output and logging: hardware or text only. The RTC is a register array, the relay a pin and a latch, and time spent in sensor reads is a `Tick` event.
- The sketch's main loop, command parser and automatic start order (`startNextDevice`, `canStart`, back-off): they only call the modelled operations.
- The alarm, calibration, SRAM and EUI-64 functions of the RTC driver: small codecs that add nothing harder.
- Ports other than 0 to 4: the sketch has five devices, and `setRelay` ignores any other port.
- Flash ranges that start at an odd byte address: the page operations are taken to ignore the lowest address bit, and reading is modelled word by word.
- The EEPROM, chip-erase and exit branches of the DFU bootloader, its secure mode, and USB packet handling: the data is taken as a word stream from a host that stays attached.
- The v2 and v4 variants of `Device`: v4 accepts `start` in more states, so the enablement and cycle theorems are v3's.
- Declared but unused EEPROM offsets (managed flag, boot select, sensor ranges and fault levels), some of which overlap: no code reads or writes them.
- `Rtc.Driver.GetDateTime`: gives zeros when the chip does not acknowledge, where the source leaves the fields undefined.
- `Rtc.SetThenGet`: describes the registers as the driver reads them; for years from 2100 on the stored year is no BCD number, which the chip itself would not count correctly.
