/**
 * The observable state of a `basic_stopwatch<T>` as a value, and one function
 * per operation giving the state that operation leaves behind. The class in
 * stopwatch.dfy is proved to follow these functions; the laws of the
 * stopwatch (suppression, restart, idempotent stop, scoped release) are
 * proved here about them.
 */
module StopwatchModel {
  import opened Wrappers
  import opened Timer

  /** The default arguments of the constructors and of `Show`, `Start`, `Stop`. */
  const DefaultActivity: string := "Stopwatch"
  const DefaultShowEvent: string := "show"
  const DefaultStartEvent: string := "start"
  const DefaultStopEvent: string := "stop"

  /** One line written to the log stream, by shape. */
  datatype LogLine =
    | At(act: string, ev: string, n: nat)       // "<act>: <ev> at <n>mS", from Show
    | Plain(act: string, ev: string)            // "<act>: <ev>", from Start when idle
    | Stopped(act: string, ev: string, n: nat)  // "<act>: <ev> <n>mS", from Stop
    | NotStarted(act: string)                   // "<act>: not started", from Show when idle

  /**
   * A C string that is neither null nor empty (`s && s[0]`). Strings are the
   * characters before the terminating NUL.
   */
  predicate Named(s: Option<string>) {
    s.Some? && |s.value| > 0
  }

  /** `activity && activity[0] ? activity : nullptr` */
  function NormalizeActivity(a: Option<string>): (r: Option<string>)
    ensures r.Some? <==> Named(a)
    ensures r.Some? ==> r == a
    ensures r == None || Named(r)
  {
    if Named(a) then a else None
  }

  /**
   * The timer's start (`None`: not started), `m_lap`, the stored activity
   * (`None`: printing suppressed) and the lines logged so far.
   */
  datatype Snapshot = Snapshot(start: Option<nat>, lap: nat, activity: Option<string>, log: seq<LogLine>)

  predicate Running(s: Snapshot) {
    s.start.Some?
  }

  /** The clock reading `now` is not earlier than the start of a running stopwatch (`TimerBaseChrono.NotBefore` on a snapshot). */
  predicate ClockOk(s: Snapshot, now: nat) {
    StartNotAfter(s.start, now)
  }

  /** A line this activity can have written: its own label, and a non-empty event. */
  predicate LineOf(l: LogLine, activity: Option<string>) {
    activity == Some(l.act) && (l.NotStarted? || |l.ev| > 0)
  }

  /**
   * What every reachable state satisfies: the activity is normalized, and
   * every logged line carries it (so a suppressed stopwatch has an empty log).
   */
  predicate Valid(s: Snapshot) {
    && (s.activity == None || Named(s.activity))
    && (forall i :: 0 <= i < |s.log| ==> LineOf(s.log[i], s.activity))
  }

  lemma LoggedLine(s: Snapshot, i: nat)
    requires Valid(s) && i < |s.log|
    ensures LineOf(s.log[i], s.activity)
  {
  }

  /** A suppressed stopwatch in a valid state has logged nothing. */
  lemma {:induction false} SuppressedLogIsEmpty(s: Snapshot)
    requires Valid(s) && s.activity == None
    ensures s.log == []
  {
    if s.log != [] {
      LoggedLine(s, 0);
      assert false;
    }
  }

  /** `Show(event)`, stopwatch.h:167-180 */
  function ShowStep(s: Snapshot, event: Option<string>, now: nat, res: Resolution): (r: Snapshot)
    requires ClockOk(s, now)
    // the run state, the clock's start and the activity are untouched
    ensures r.start == s.start && r.activity == s.activity
    // running: the lap becomes the elapsed time, logged "at" only for a named event of a labelled stopwatch
    ensures Running(s) ==> r.lap == Elapsed(s.start.value, now, res)
    ensures Running(s) ==> r.log == s.log + (if Named(event) && s.activity.Some? then [At(s.activity.value, event.value, r.lap)] else [])
    // idle: the lap is kept, and a labelled stopwatch logs "not started" whatever the event
    ensures !Running(s) ==> r.lap == s.lap
    ensures !Running(s) ==> r.log == s.log + (if s.activity.Some? then [NotStarted(s.activity.value)] else [])
    ensures Valid(s) ==> Valid(r)
  {
    if Running(s) then
      var lap := Elapsed(s.start.value, now, res);
      if Named(event) && s.activity.Some? then
        s.(lap := lap, log := s.log + [At(s.activity.value, event.value, lap)])
      else
        s.(lap := lap)
    else if s.activity.Some? then
      s.(log := s.log + [NotStarted(s.activity.value)])
    else
      s
  }

  /** `Stop(event)`, stopwatch.h:198-208 */
  function StopStep(s: Snapshot, event: Option<string>, now: nat, res: Resolution): (r: Snapshot)
    requires ClockOk(s, now)
    // always ends idle, activity untouched
    ensures !Running(r) && r.activity == s.activity
    // running: the lap becomes the elapsed time, logged only for a named event of a labelled stopwatch
    ensures Running(s) ==> r.lap == Elapsed(s.start.value, now, res)
    ensures Running(s) ==> r.log == s.log + (if Named(event) && s.activity.Some? then [Stopped(s.activity.value, event.value, r.lap)] else [])
    // idle: neither the lap nor the log changes, not even a "not started" line
    ensures !Running(s) ==> r == s
    ensures Valid(s) ==> Valid(r)
  {
    if Running(s) then
      var lap := Elapsed(s.start.value, now, res);
      if Named(event) && s.activity.Some? then
        Snapshot(None, lap, s.activity, s.log + [Stopped(s.activity.value, event.value, lap)])
      else
        Snapshot(None, lap, s.activity, s.log)
    else
      s.(start := None)
  }

  /**
   * `Start(event)`, stopwatch.h:183-195: a running stopwatch is stopped first,
   * then the timer is restarted. The clock is read twice: `now` by the stop's
   * `GetMs()` (only when running) and `restart` by `BaseTimer::Start()`.
   */
  function StartStep(s: Snapshot, event: Option<string>, now: nat, restart: nat, res: Resolution): (r: Snapshot)
    requires ClockOk(s, now) && now <= restart
    // always ends running from the second reading, activity untouched
    ensures r.start == Some(restart) && r.activity == s.activity
    // running: the lap becomes the elapsed time and the line is the stop-shaped one, with this event
    ensures Running(s) ==> r.lap == Elapsed(s.start.value, now, res)
    ensures Running(s) ==> r.log == s.log + (if Named(event) && s.activity.Some? then [Stopped(s.activity.value, event.value, r.lap)] else [])
    // idle: the lap is kept (not cleared), and at most the event's plain line is logged
    ensures !Running(s) ==> r.lap == s.lap
    ensures !Running(s) ==> r.log == s.log + (if Named(event) && s.activity.Some? then [Plain(s.activity.value, event.value)] else [])
    ensures Valid(s) ==> Valid(r)
  {
    var stopped :=
      if Running(s) then StopStep(s, event, now, res)
      else if Named(event) && s.activity.Some? then
        s.(log := s.log + [Plain(s.activity.value, event.value)])
      else s;
    stopped.(start := Some(restart))
  }

  /** The event the destructor stops with: the default one, or nullptr when suppressed (stopwatch.h:147-150). */
  function FinalEvent(activity: Option<string>): Option<string> {
    if activity.Some? then Some(DefaultStopEvent) else None
  }

  /** The destructor `~basic_stopwatch()`, stopwatch.h:145-152 */
  function FinalizeStep(s: Snapshot, now: nat, res: Resolution): (r: Snapshot)
    requires ClockOk(s, now)
    // always ends idle, activity untouched
    ensures !Running(r) && r.activity == s.activity
    // running: exactly one stop, with the default "stop" wording when labelled and silent otherwise
    ensures Running(s) ==> r.lap == Elapsed(s.start.value, now, res)
    ensures Running(s) ==> r.log == s.log + (if s.activity.Some? then [Stopped(s.activity.value, DefaultStopEvent, r.lap)] else [])
    // idle: nothing happens
    ensures !Running(s) ==> r == s
    ensures Valid(s) ==> Valid(r)
  {
    if Running(s) then StopStep(s, FinalEvent(s.activity), now, res) else s
  }

  /** The state every constructor starts from, before its optional start. */
  function Fresh(activity: Option<string>): Snapshot {
    Snapshot(None, 0, activity, [])
  }

  /** `basic_stopwatch(bool start_now)`, stopwatch.h:107-114: the activity is always "Stopwatch". */
  function ConstructDefault(startNow: bool, now: nat, res: Resolution): (r: Snapshot)
    ensures r.activity == Some(DefaultActivity) && Valid(r)
    ensures startNow ==> r == Snapshot(Some(now), 0, Some(DefaultActivity), [Plain(DefaultActivity, DefaultStartEvent)])
    ensures !startNow ==> r == Fresh(Some(DefaultActivity))
  {
    var s := Fresh(Some(DefaultActivity));
    if startNow then StartStep(s, Some(DefaultStartEvent), now, now, res) else s
  }

  /**
   * `basic_stopwatch(activity, start_now)` and `basic_stopwatch(log, activity, start_now)`,
   * stopwatch.h:117-128 and 131-142: the activity is normalized, then
   * `Start()` or `Start(nullptr)` if asked to start.
   */
  function Construct(activity: Option<string>, startNow: bool, now: nat, res: Resolution): (r: Snapshot)
    ensures r.activity == NormalizeActivity(activity) && Valid(r)
    ensures r.lap == 0 && (Running(r) <==> startNow)
    ensures startNow ==> r.start == Some(now)
    // labelled: the start line; suppressed: nothing
    ensures startNow && Named(activity) ==> r.log == [Plain(activity.value, DefaultStartEvent)]
    ensures !startNow || !Named(activity) ==> r.log == []
  {
    var s := Fresh(NormalizeActivity(activity));
    if !startNow then s
    else if s.activity.Some? then StartStep(s, Some(DefaultStartEvent), now, now, res)
    else StartStep(s, None, now, now, res)
  }

  /** The bool-only constructor is the activity constructor given "Stopwatch". */
  lemma DefaultIsNamedStopwatch(startNow: bool, now: nat, res: Resolution)
    ensures ConstructDefault(startNow, now, res) == Construct(Some(DefaultActivity), startNow, now, res)
  {
  }

  /** Restart law: starting a running stopwatch is `Stop(event)` followed by a fresh clock start. */
  lemma RestartLaw(s: Snapshot, event: Option<string>, now: nat, restart: nat, res: Resolution)
    requires Running(s) && ClockOk(s, now) && now <= restart
    ensures StartStep(s, event, now, restart, res) == StopStep(s, event, now, res).(start := Some(restart))
  {
  }

  /** A second consecutive `Stop` changes nothing, whatever its event and time. */
  lemma StopIdempotent(s: Snapshot, e1: Option<string>, n1: nat, e2: Option<string>, n2: nat, res: Resolution)
    requires ClockOk(s, n1)
    ensures StopStep(StopStep(s, e1, n1, res), e2, n2, res) == StopStep(s, e1, n1, res)
  {
  }

  /** Successive `Show`s of a running stopwatch give non-decreasing laps. */
  lemma ShowLapsNondecreasing(s: Snapshot, e1: Option<string>, n1: nat, e2: Option<string>, n2: nat, res: Resolution)
    requires Running(s) && ClockOk(s, n1) && n1 <= n2
    ensures ShowStep(s, e1, n1, res).lap <= ShowStep(ShowStep(s, e1, n1, res), e2, n2, res).lap
  {
    ElapsedMonotone(s.start.value, n1, n2, res);
  }

  // ---------------------------------------------------------------------------
  // Sequences of calls on one stopwatch

  /**
   * A call of `Show`, `Start` or `Stop` with its event argument and the clock
   * readings it takes (`Start` takes a second one, `restart`, for the timer).
   */
  datatype Call =
    | Show(event: Option<string>, now: nat)
    | Start(event: Option<string>, now: nat, restart: nat)
    | Stop(event: Option<string>, now: nat)

  /** The last clock reading a call takes. */
  function LastReading(c: Call): nat {
    if c.Start? then c.restart else c.now
  }

  function Apply(s: Snapshot, c: Call, res: Resolution): (r: Snapshot)
    requires ClockOk(s, c.now) && c.now <= LastReading(c)
    ensures ClockOk(r, LastReading(c))
  {
    match c
    case Show(e, n) => ShowStep(s, e, n, res)
    case Start(e, n, m) => StartStep(s, e, n, m, res)
    case Stop(e, n) => StopStep(s, e, n, res)
  }

  /** Clock readings that never go back, starting no earlier than `t`. */
  predicate Chronological(t: nat, calls: seq<Call>)
    decreases |calls|
  {
    calls == [] ||
    (t <= calls[0].now <= LastReading(calls[0]) && Chronological(LastReading(calls[0]), calls[1..]))
  }

  /** The clock reading of the last call, or `t` if there is none. */
  function LastTime(t: nat, calls: seq<Call>): nat
    decreases |calls|
  {
    if calls == [] then t else LastTime(LastReading(calls[0]), calls[1..])
  }

  /** The state after performing `calls` in order, the clock standing at `t` before the first. */
  function Run(s: Snapshot, t: nat, calls: seq<Call>, res: Resolution): Snapshot
    requires ClockOk(s, t) && Chronological(t, calls)
    decreases |calls|
  {
    if calls == [] then s
    else Run(Apply(s, calls[0], res), LastReading(calls[0]), calls[1..], res)
  }

  /** The clock reading after the last call is still usable for the destructor. */
  lemma {:induction false} RunClockOk(s: Snapshot, t: nat, calls: seq<Call>, res: Resolution)
    requires ClockOk(s, t) && Chronological(t, calls)
    ensures ClockOk(Run(s, t, calls, res), LastTime(t, calls))
    decreases |calls|
  {
    if calls != [] {
      RunClockOk(Apply(s, calls[0], res), LastReading(calls[0]), calls[1..], res);
    }
  }

  /** No call changes the activity, and every call keeps the state valid. */
  lemma {:induction false} RunPreservesValid(s: Snapshot, t: nat, calls: seq<Call>, res: Resolution)
    requires ClockOk(s, t) && Chronological(t, calls)
    ensures Run(s, t, calls, res).activity == s.activity
    ensures Valid(s) ==> Valid(Run(s, t, calls, res))
    decreases |calls|
  {
    if calls != [] {
      RunPreservesValid(Apply(s, calls[0], res), LastReading(calls[0]), calls[1..], res);
    }
  }

  /** The log is only appended to, at most one line per call. */
  lemma {:induction false} RunAppendsOnly(s: Snapshot, t: nat, calls: seq<Call>, res: Resolution)
    requires ClockOk(s, t) && Chronological(t, calls)
    ensures s.log <= Run(s, t, calls, res).log
    ensures |Run(s, t, calls, res).log| <= |s.log| + |calls|
    decreases |calls|
  {
    if calls != [] {
      var s' := Apply(s, calls[0], res);
      assert s.log <= s'.log && |s'.log| <= |s.log| + 1;
      RunAppendsOnly(s', LastReading(calls[0]), calls[1..], res);
    }
  }

  /** Suppression law: with a null activity no call logs anything. */
  lemma {:induction false} SuppressionLaw(s: Snapshot, t: nat, calls: seq<Call>, res: Resolution)
    requires ClockOk(s, t) && Chronological(t, calls)
    requires s.activity == None
    ensures Run(s, t, calls, res).log == s.log
    decreases |calls|
  {
    if calls != [] {
      SuppressionLaw(Apply(s, calls[0], res), LastReading(calls[0]), calls[1..], res);
    }
  }

  /**
   * Suppression does not affect timing: whatever the activity and the log,
   * the same calls leave the same start and lap.
   */
  lemma {:induction false} TimingIgnoresActivity(s: Snapshot, activity: Option<string>, log: seq<LogLine>, t: nat, calls: seq<Call>, res: Resolution)
    requires ClockOk(s, t) && Chronological(t, calls)
    ensures Run(s.(activity := activity, log := log), t, calls, res).start == Run(s, t, calls, res).start
    ensures Run(s.(activity := activity, log := log), t, calls, res).lap == Run(s, t, calls, res).lap
    decreases |calls|
  {
    if calls != [] {
      var u := s.(activity := activity, log := log);
      var s', u' := Apply(s, calls[0], res), Apply(u, calls[0], res);
      assert u' == s'.(activity := u'.activity, log := u'.log);
      TimingIgnoresActivity(s', u'.activity, u'.log, LastReading(calls[0]), calls[1..], res);
    }
  }

  /**
   * Scoped release: a stopwatch constructed, used and destroyed ends idle and
   * valid; a suppressed one has logged nothing in its whole lifetime.
   */
  lemma Lifetime(activity: Option<string>, startNow: bool, t0: nat, calls: seq<Call>, res: Resolution)
    requires Chronological(t0, calls)
    ensures ClockOk(Run(Construct(activity, startNow, t0, res), t0, calls, res), LastTime(t0, calls))
    ensures var r := FinalizeStep(Run(Construct(activity, startNow, t0, res), t0, calls, res), LastTime(t0, calls), res);
            !Running(r) && Valid(r) && (!Named(activity) ==> r.log == [])
  {
    var s := Construct(activity, startNow, t0, res);
    RunClockOk(s, t0, calls, res);
    RunPreservesValid(s, t0, calls, res);
    if !Named(activity) {
      SuppressionLaw(s, t0, calls, res);
    }
  }

  /** Construct "Work" running, stop after 63 ticks, stop again. */
  lemma ExampleWork()
    ensures var s := Construct(Some("Work"), true, 10, 1);
            s.log == [Plain("Work", "start")]
            && StopStep(s, Some(DefaultStopEvent), 73, 1).log == [Plain("Work", "start"), Stopped("Work", "stop", 63)]
            && StopStep(s, Some(DefaultStopEvent), 73, 1).lap == 63
            && StopStep(StopStep(s, Some(DefaultStopEvent), 73, 1), Some(DefaultStopEvent), 90, 1).lap == 63
            && StopStep(StopStep(s, Some(DefaultStopEvent), 73, 1), Some(DefaultStopEvent), 90, 1).log
               == StopStep(s, Some(DefaultStopEvent), 73, 1).log
  {
  }

  /** An idle labelled stopwatch shows "not started" and returns lap 0. */
  lemma ExampleTaskIdle()
    ensures var s := ShowStep(Construct(Some("Task"), false, 0, 1), Some(DefaultShowEvent), 5, 1);
            s.log == [NotStarted("Task")] && s.lap == 0
  {
  }
}
