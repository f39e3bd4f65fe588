/**
 * `basic_stopwatch<T>`: an activity label, a lap value and a log stream over
 * an owned `TimerBaseChrono`. The template inheritance from the timer becomes
 * a field holding it. Each method is proved to leave the state that the
 * corresponding function of StopwatchModel describes.
 */
module Stopwatch {
  import opened Wrappers
  import opened Timer
  import opened StopwatchModel

  /** The stream lines are written to: `std::cout`, or one supplied by the caller. */
  datatype Sink = StandardOutput | Stream(id: nat)

  class BasicStopwatch {
    const timer: TimerBaseChrono
    /** `m_activity`; `None` is nullptr and suppresses every line */
    const activity: Option<string>
    /** `m_log` */
    const sink: Sink
    /** `m_lap`: the time of the last stop or show, or 0 */
    var lap: nat
    /** the lines this stopwatch has written to `sink`, oldest first */
    var log: seq<LogLine>

    ghost function View(): Snapshot
      reads this, timer
    {
      Snapshot(timer.start, lap, activity, log)
    }

    ghost predicate Valid()
      reads this, timer
    {
      StopwatchModel.Valid(View())
    }

    /** `basic_stopwatch(bool start_now)`: activity "Stopwatch", standard output. */
    constructor Default(startNow: bool, resolution: Resolution, now: nat)
      ensures Valid() && fresh(timer) && timer.resolution == resolution
      ensures sink == StandardOutput
      ensures View() == ConstructDefault(startNow, now, resolution)
    {
      timer := new TimerBaseChrono(resolution);
      activity := Some(DefaultActivity);
      sink := StandardOutput;
      lap := 0;
      log := [];
      new;
      if startNow {
        var _ := Start(Some(DefaultStartEvent), now, now);
      }
    }

    /** `basic_stopwatch(char const* activity, bool start_now)`: standard output. */
    constructor WithActivity(activity: Option<string>, startNow: bool, resolution: Resolution, now: nat)
      ensures Valid() && fresh(timer) && timer.resolution == resolution
      ensures sink == StandardOutput
      ensures View() == Construct(activity, startNow, now, resolution)
    {
      timer := new TimerBaseChrono(resolution);
      this.activity := NormalizeActivity(activity);
      sink := StandardOutput;
      lap := 0;
      log := [];
      new;
      if startNow {
        if this.activity.Some? {
          var _ := Start(Some(DefaultStartEvent), now, now);
        } else {
          var _ := Start(None, now, now);
        }
      }
    }

    /** `basic_stopwatch(std::ostream& log, char const* activity, bool start_now)` */
    constructor WithLog(sink: Sink, activity: Option<string>, startNow: bool, resolution: Resolution, now: nat)
      ensures Valid() && fresh(timer) && timer.resolution == resolution
      ensures this.sink == sink
      ensures View() == Construct(activity, startNow, now, resolution)
    {
      timer := new TimerBaseChrono(resolution);
      this.activity := NormalizeActivity(activity);
      this.sink := sink;
      lap := 0;
      log := [];
      new;
      if startNow {
        if this.activity.Some? {
          var _ := Start(Some(DefaultStartEvent), now, now);
        } else {
          var _ := Start(None, now, now);
        }
      }
    }

    /** The stopwatch is running exactly when its timer is. */
    predicate IsStarted()
      reads this, timer
      ensures IsStarted() <==> Running(View())
    {
      timer.IsStarted()
    }

    /** The last lap: the last shown or stopped time, or 0 if there was none. */
    function LapGet(): (r: nat)
      reads this
      ensures r == lap
    {
      lap
    }

    /** `Show(event)`: never changes the run state; returns the lap. */
    method Show(event: Option<string>, now: nat) returns (r: nat)
      requires Valid() && timer.NotBefore(now)
      modifies this
      ensures Valid() && IsStarted() == old(IsStarted())
      ensures View() == ShowStep(old(View()), event, now, timer.resolution)
      ensures r == lap
    {
      if timer.IsStarted() {
        lap := timer.GetMs(now);
        if Named(event) {
          if activity.Some? {
            log := log + [At(activity.value, event.value, lap)];
          }
        }
      } else {
        if activity.Some? {
          log := log + [NotStarted(activity.value)];
        }
      }
      r := lap;
    }

    /**
     * `Start(event)`: stops a running stopwatch with `event` (reading the clock
     * as `now`), then restarts the timer at a second reading `restart`.
     */
    method Start(event: Option<string>, now: nat, restart: nat) returns (r: nat)
      requires Valid() && timer.NotBefore(now) && now <= restart
      modifies this, timer
      ensures Valid() && IsStarted() && timer.start == Some(restart)
      ensures View() == StartStep(old(View()), event, now, restart, timer.resolution)
      ensures r == lap
    {
      if timer.IsStarted() {
        var _ := Stop(event, now);
      } else {
        if Named(event) {
          if activity.Some? {
            log := log + [Plain(activity.value, event.value)];
          }
        }
      }
      timer.Start(restart);
      r := lap;
    }

    /** `Stop(event)`: always leaves the stopwatch idle; returns the lap. */
    method Stop(event: Option<string>, now: nat) returns (r: nat)
      requires Valid() && timer.NotBefore(now)
      modifies this, timer
      ensures Valid() && !IsStarted()
      ensures View() == StopStep(old(View()), event, now, timer.resolution)
      ensures r == lap
    {
      if timer.IsStarted() {
        lap := timer.GetMs(now);
        if Named(event) {
          if activity.Some? {
            log := log + [Stopped(activity.value, event.value, lap)];
          }
        }
      }
      timer.Clear();
      r := lap;
    }

    /** The destructor: a running stopwatch is stopped once, with "stop" or silently. */
    method Finalize(now: nat)
      requires Valid() && timer.NotBefore(now)
      modifies this, timer
      ensures Valid() && !IsStarted()
      ensures View() == FinalizeStep(old(View()), now, timer.resolution)
    {
      if IsStarted() {
        if activity.Some? {
          var _ := Stop(Some(DefaultStopEvent), now);
        } else {
          var _ := Stop(None, now);
        }
      }
    }
  }

  /** The usage from the header comment: a labelled scope that shows once and is then destroyed. */
  method ScopedUsage(now0: nat, now1: nat, now2: nat) returns (lines: seq<LogLine>)
    requires now0 <= now1 <= now2
    ensures lines == [
      Plain("TheThing()", "start"),
      At("TheThing()", "Just after initialized", now1 - now0),
      Stopped("TheThing()", "stop", now2 - now0)]
  {
    var sw := new BasicStopwatch.WithActivity(Some("TheThing()"), true, 1, now0);
    var _ := sw.Show(Some("Just after initialized"), now1);
    sw.Finalize(now2);
    lines := sw.log;
  }

  /**
   * An empty activity: nothing is logged over the whole lifetime, yet the lap
   * read after the destructor's silent stop is the measured time.
   */
  method SuppressedUsage(now0: nat, now1: nat) returns (measured: nat, lines: seq<LogLine>)
    requires now0 <= now1
    ensures measured == now1 - now0 && lines == []
  {
    var sw := new BasicStopwatch.WithActivity(Some(""), true, 1, now0);
    sw.Finalize(now1);
    measured := sw.LapGet();
    lines := sw.log;
  }
}
