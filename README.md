# Stopwatch: a verified model of `basic_stopwatch<T>` over `TimerBaseChrono`

This project models `stopwatch.h`, a small stopwatch for timing blocks of
code. It has two layers:

- `TimerBaseChrono` records a start instant or the "unset" sentinel. It
  reports the elapsed count of resolution ticks.
- `basic_stopwatch<T>` adds three things: an activity label (null
  suppresses printing), a lap value and a log stream. Its operations are
  `Show`, `Start` and `Stop`, three constructors, and a destructor that stops
  a running stopwatch.

Files:

- `wrappers.dfy` (module `Wrappers`): `Option`, standing for a possibly-null C string.
- `timer.dfy` (module `Timer`): class `TimerBaseChrono`. The clock is an
  argument: every reading of `clock_::now()` is a `now: nat` in base clock
  units. `Start` reads the clock twice when the stopwatch is running. The
  stop's `GetMs()` reads `now`, and that reading sets the lap. Then
  `BaseTimer::Start()` reads `restart`, after the stop line is written.
  So the two are separate arguments, with `now <= restart`.
  The `resolution` template parameter is a positive `Resolution`, the number
  of base units per reported tick. The sentinel
  `time_point::min()` is `None`. `Elapsed` is the truncating
  `duration_cast(...).count()`.
- `stopwatch_model.dfy` (module `StopwatchModel`): the stopwatch's observable
  state as a value, `Snapshot(start, lap, activity, log)`. It has one
  function per operation giving the state the operation leaves, and the
  laws proved about those functions:
  - suppression;
  - Show preserves the run state;
  - idempotent Stop;
  - restart;
  - non-decreasing laps;
  - scoped release over a whole lifetime.

  The log is a sequence of `LogLine` records, one constructor per printed
  shape:
  - `At(act, ev, n)`: `<act>: <ev> at <n>mS`;
  - `Plain(act, ev)`: `<act>: <ev>`;
  - `Stopped(act, ev, n)`: `<act>: <ev> <n>mS`;
  - `NotStarted(act)`: `<act>: not started`.
- `stopwatch.dfy` (module `Stopwatch`): class `BasicStopwatch`.
  - It owns a `TimerBaseChrono` (composition in place of the template
    inheritance).
  - It has `const activity` and `sink`, and mutable `lap` and `log`.
  - Its methods mirror the C++ bodies. Each one is proved to leave
    `View() == XStep(old(View()), ...)` and to keep `Valid()`.
  - The destructor is the explicit method `Finalize(now)`.
  - Two client methods replay the header comment's usage example and the
    suppressed-activity example.

The model follows the code where the header comment of `stopwatch.h`
disagrees with it:

- Lines 44 and 54 say `Stop` on an idle stopwatch prints "not started". The
  code (lines 198-208) prints nothing and leaves `lap` alone
  (`StopStep`, `StopIdempotent`).
- Lines 46 and 58 say `Start` from idle "clears lap time". The code (lines
  188-194) leaves `m_lap` unchanged (`StartStep`).
- Line 62 says `Show("")` or `Show(nullptr)` prints nothing. On an idle
  stopwatch with a label, the code (lines 175-177) prints "not started"
  whatever the event (`ShowStep`).

Default arguments are explicit here:
- `DefaultActivity` is "Stopwatch";
- `DefaultShowEvent` is "show";
- `DefaultStartEvent` is "start";
- `DefaultStopEvent` is "stop".

A `None` event is `nullptr`. A C string is modelled as the characters before
its terminating NUL, so "non-null and `s[0] != 0`" is `Named(s)`: `Some`
and non-empty.

## Model

| member | source | states |
|---|---|---|
| Timer.Elapsed | stopwatch.h:233 | the count `r` brackets the interval: `r * res <= now - start < (r + 1) * res` (truncation to whole ticks) |
| Timer.ElapsedIsTruncation | stopwatch.h:233 | any count bracketing the interval equals `Elapsed`, so that contract determines the reading |
| Timer.ElapsedMonotone | stopwatch.h:231-236 | a later clock reading of the same start never gives a smaller count |
| Timer.TimerBaseChrono.constructor | stopwatch.h:215 | a fresh timer holds the sentinel and is not started |
| Timer.TimerBaseChrono.Clear | stopwatch.h:218-220 | the start becomes the sentinel; the timer is not started |
| Timer.TimerBaseChrono.Start | stopwatch.h:228 | the start becomes `now` (overwriting any earlier start); the timer is started |
| Timer.TimerBaseChrono.GetMs | stopwatch.h:231-236 | 0 when not started, else the truncated tick count since the start; a function, so no state changes |
| Timer.TimerBaseChrono.IsStarted | stopwatch.h:223-225 | running exactly when the start is not the sentinel (`start.Some?`) |
| StopwatchModel.Named | stopwatch.h:170 | the C-string test `p && p[0]`: non-null and non-empty; also used at stopwatch.h:118, 132, 188 and 201 |
| StopwatchModel.Running | stopwatch.h:168 | the stopwatch's `IsStarted()` on a snapshot: the timer's start is set |
| StopwatchModel.Fresh | stopwatch.h:118-119 | the member initialisers: not started, lap 0, the given activity, nothing logged (also stopwatch.h:108-109 and 132-133) |
| StopwatchModel.FinalEvent | stopwatch.h:147-150 | the destructor's choice of event: the default "stop" for a labelled stopwatch, nullptr for a suppressed one |
| StopwatchModel.NormalizeActivity | stopwatch.h:118 | the stored activity is non-null exactly when the argument is non-null and non-empty, and then it is the argument |
| StopwatchModel.SuppressedLogIsEmpty | stopwatch.h:170-177 | in a valid state with a null activity the log is empty, since every line carries the activity |
| StopwatchModel.ShowStep | stopwatch.h:167-180 | start and activity unchanged; running: lap := elapsed and `At` logged only for a named event and activity; idle: lap kept and `NotStarted` logged whenever the activity is non-null; validity kept |
| StopwatchModel.StopStep | stopwatch.h:198-208 | always ends idle; running: lap := elapsed and `Stopped` logged only for a named event and activity; idle: nothing else changes, no line; validity kept |
| StopwatchModel.StartStep | stopwatch.h:183-195 | always ends running from the second reading `restart`; running: lap := elapsed at the first reading `now`, and the stop-shaped line with this event; idle: lap kept (not cleared) and at most `Plain(act, ev)`; validity kept |
| StopwatchModel.FinalizeStep | stopwatch.h:145-152 | ends idle; running: exactly one stop, logging `Stopped(act, "stop", lap)` when labelled and nothing when suppressed; idle: no change |
| StopwatchModel.ConstructDefault | stopwatch.h:107-114 | activity is always "Stopwatch"; starting gives running from `now`, lap 0 and the single line `Plain("Stopwatch", "start")`; otherwise idle, lap 0, empty log |
| StopwatchModel.Construct | stopwatch.h:117-142 | activity normalized; lap 0; running iff asked to start, from `now`; the log is `[Plain(act, "start")]` for a started named activity and empty otherwise |
| StopwatchModel.DefaultIsNamedStopwatch | stopwatch.h:107-128 | the bool-only constructor behaves as the activity constructor given "Stopwatch" |
| StopwatchModel.RestartLaw | stopwatch.h:184-193 | `Start(ev)` on a running stopwatch equals `Stop(ev)` at `now`, followed by a fresh timer start at the later reading `restart` |
| StopwatchModel.StopIdempotent | stopwatch.h:198-208 | a second consecutive `Stop`, with any event and clock reading, changes nothing |
| StopwatchModel.ShowLapsNondecreasing | stopwatch.h:168-169 | two successive `Show`s of a running stopwatch give non-decreasing laps |
| StopwatchModel.RunClockOk | stopwatch.h:193 | after any chronological sequence of calls the last clock reading is not before the start |
| StopwatchModel.RunPreservesValid | stopwatch.h:101 | no sequence of calls changes the activity, and every sequence keeps every logged line labelled by it |
| StopwatchModel.RunAppendsOnly | stopwatch.h:172 | a sequence of calls only appends to the log, at most one line per call |
| StopwatchModel.SuppressionLaw | stopwatch.h:170-177 | with a null activity no sequence of `Show`/`Start`/`Stop` calls logs anything |
| StopwatchModel.TimingIgnoresActivity | stopwatch.h:169-200 | whatever the activity and log, the same calls leave the same start and lap (suppression does not affect lap tracking) |
| StopwatchModel.Lifetime | stopwatch.h:117-152 | construct, any chronological calls, destroy: the stopwatch ends idle and valid, and with a null or empty activity it has logged nothing at all |
| StopwatchModel.ExampleWork | stopwatch.h:50-53 | "Work" started at 10 logs `Work: start`; stopping at 73 logs `Work: stop 63mS` with lap 63; a second stop keeps lap 63 and logs nothing |
| StopwatchModel.ExampleTaskIdle | stopwatch.h:175-179 | an idle "Task" stopwatch shown logs only `Task: not started` and returns lap 0 |
| Stopwatch.BasicStopwatch.Default | stopwatch.h:107-114 | the new state is `ConstructDefault`; standard output sink; fresh timer |
| Stopwatch.BasicStopwatch.WithActivity | stopwatch.h:117-128 | the new state is `Construct` of the given activity; standard output sink |
| Stopwatch.BasicStopwatch.WithLog | stopwatch.h:131-142 | the new state is `Construct` of the given activity; the given sink |
| Stopwatch.BasicStopwatch.IsStarted | stopwatch.h:155-158 | true exactly when the owned timer is running |
| Stopwatch.BasicStopwatch.LapGet | stopwatch.h:161-164 | returns the stored lap, without changing anything |
| Stopwatch.BasicStopwatch.Show | stopwatch.h:167-180 | new state is `ShowStep` of the old; run state unchanged; returns the new lap |
| Stopwatch.BasicStopwatch.Start | stopwatch.h:183-195 | new state is `StartStep` of the old; running from the second reading `restart`; returns the new lap |
| Stopwatch.BasicStopwatch.Stop | stopwatch.h:198-208 | new state is `StopStep` of the old; idle; returns the new lap |
| Stopwatch.BasicStopwatch.Finalize | stopwatch.h:145-152 | new state is `FinalizeStep` of the old; idle |
| Stopwatch.ScopedUsage | stopwatch.h:17-26 | the documented block logs exactly start, the "at" line and the destructor's stop line, with the elapsed times |
| Stopwatch.SuppressedUsage | stopwatch.h:60-64 | an empty activity logs nothing over its lifetime, and the lap after the destructor is the elapsed time |

## Left out

- The real clock (`clock_::now()`). It is a `now` argument. Each call requires
  the clock not to be behind the recorded start (`NotBefore`, `ClockOk`).
  A clock going backwards is not modelled.
- Timer.Elapsed: does not model the `(unsigned long)` wrap-around of a negative
  or huge count (stopwatch.h:233). The counts are unbounded naturals, so
  `m_lap` does not wrap either.
- The field declared as `system_clock::time_point` whatever `clock_` is
  (stopwatch.h:238). A collision of a real reading with `time_point::min()`
  cannot happen in the model, because the sentinel is `None`.
- stopwatchmicro.h and stopwatchmsec.h are typedefs with no logic. Their
  choice of clock and unit is the `Resolution` argument.
- Output formatting (`operator<<` on numbers, `std::endl`, `std::flush`).
  Each printed line is a `LogLine` record. Each stopwatch's `log` holds the
  lines it wrote to its `sink`. Interleaving with other writers of the same
  stream is not modelled.
- Lifetime of the unowned `m_activity` pointer. The activity is a value.
  Strings are the characters before the NUL terminator.
- RAII scope exit. The destructor is `Finalize(now)`, which callers invoke
  once, last. Nothing stops a caller from using the object afterwards, which
  in C++ could not happen.
- Stopwatch.BasicStopwatch.WithActivity: does not model the default
  arguments `activity="Stopwatch"` and `start=true` (stopwatch.h:76-77). Every
  argument is explicit here, and the defaults are the named constants. So
  `basic_stopwatch()` is `WithActivity(Some(DefaultActivity), true, ...)`.
  `DefaultIsNamedStopwatch` shows that this is the same as `Default(true, ...)`.
- Stopwatch.BasicStopwatch.WithLog: does not model its default arguments
  `activity="Stopwatch"` and `start=true` (stopwatch.h:79-80), for the same
  reason.
- The event defaults of `Show`, `Start` and `Stop` ("show", "start", "stop")
  are also not modelled. Callers pass them as `DefaultShowEvent`,
  `DefaultStartEvent` and `DefaultStopEvent`.
- When a constructor starts the stopwatch, or `Start` is called on an idle
  stopwatch, only one clock reading is taken. Such calls pass the same value
  for `now` and `restart`.
