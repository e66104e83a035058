/**
 The poll loop as a transition system, over every history of its own steps, the people at its controls, and
 its restarts.

 Runs are sequential and each is recorded as it ends; the clock never runs backwards, and a sleep lasts at
 least as long as asked.
 */
module PollLoop {
  import opened Numbers
  import opened Text
  import opened Timestamps
  import opened Scheduler

  /** Where the loop is. `Down` is no process running. */
  datatype Phase =
    | Down
    | Waiting(left: int)       // in wait(), with this much to go
    | AtLock                   // about to look at the lock and the hold
    | AtBudget                 // past the lock, about to look at the budget
    | Cleared                  // past both, about to start the run
    | Running(started: int)

  /** The clock, the runs table, the control files, and the loop's variables. */
  datatype State = State(
    now: int, runs: seq<Run>, lock: Option<int>, hold: bool, request: bool,
    phase: Phase, attempt: nat, failures: nat)

  datatype Event =
    | Tick(elapsed: int)                       // time passes
    | SetLock | Unlock | RequestRun            // what people do
    | Start(sample: int)                       // the process starts
    | Nap(slept: int)                          // one step of a wait
    | TakeRequest                              // a wait cut short by a scrape-now
    | WaitOver
    | HeldOff(slept: int)                      // the lock or the hold is in place
    | LockClear
    | BudgetSpent | BudgetFree
    | Launch
    | Finish(error: Option<Failure>, sample: int, retry: int)
    | Crash                                    // the process stops, between runs

  function Starts(runs: seq<Run>): (s: seq<int>)
    ensures |s| == |runs| && forall i | 0 <= i < |runs| :: s[i] == runs[i].started
  {
    seq(|runs|, i requires 0 <= i < |runs| => runs[i].started)
  }

  /** Whether a lock young enough, or a hold, is in place. */
  predicate Locked(cfg: Config, s: State) {
    s.hold || (s.lock.Some? && (cfg.lockMax <= 0 || Max(s.now - s.lock.value, 0) < cfg.lockMax))
  }

  /** A request is waiting, and is not too soon after the last run. */
  predicate RunNowDue(cfg: Config, s: State) {
    s.request && (s.runs == [] || s.now - Last(s.runs).finished >= cfg.runNowMin)
  }

  predicate Enabled(cfg: Config, s: State, e: Event) {
    match e
    case Tick(d) => 0 <= d
    case SetLock => true
    case Unlock => true
    case RequestRun => true
    case Start(sample) => s.phase.Down? && cfg.pollMin <= sample
    case Nap(slept) =>
      s.phase.Waiting? && s.phase.left > 0 && !RunNowDue(cfg, s) && Min(s.phase.left, cfg.controlPoll) <= slept
    case TakeRequest => s.phase.Waiting? && s.phase.left > 0 && RunNowDue(cfg, s)
    case WaitOver => s.phase.Waiting? && s.phase.left <= 0
    case HeldOff(slept) => s.phase.AtLock? && Locked(cfg, s) && cfg.controlPoll <= slept
    case LockClear => s.phase.AtLock? && !Locked(cfg, s)
    case BudgetSpent => s.phase.AtBudget? && BudgetWait(cfg, Starts(s.runs), s.now) > 0
    case BudgetFree => s.phase.AtBudget? && BudgetWait(cfg, Starts(s.runs), s.now) == 0
    case Launch => s.phase.Cleared?
    case Finish(error, sample, retry) =>
      && s.phase.Running? && cfg.pollMin <= sample
      && (s.attempt < |cfg.retryDelays| ==> cfg.retryDelays[s.attempt] <= retry)
    case Crash => !s.phase.Down? && !s.phase.Running?
  }

  function Apply(cfg: Config, s: State, e: Event): State
    requires Enabled(cfg, s, e)
  {
    match e
    case Tick(d) => s.(now := s.now + d)
    case SetLock => s.(lock := Some(s.now))
    case Unlock => s.(lock := None, hold := false)
    case RequestRun => s.(request := true)
    case Start(sample) =>
      var wait := StartupWait(cfg, s.runs, s.now, sample);
      s.(attempt := 0, failures := Min(Trailing(s.runs), FAILURE_LOOKBACK),
         phase := if wait > 0 then Waiting(wait) else AtLock)
    case Nap(slept) =>
      s.(now := s.now + slept, phase := Waiting(s.phase.left - Min(s.phase.left, cfg.controlPoll)))
    case TakeRequest => s.(request := false, phase := AtLock)
    case WaitOver => s.(phase := AtLock)
    case HeldOff(slept) => s.(now := s.now + slept)
    case LockClear => s.(phase := AtBudget)
    case BudgetSpent => s.(phase := Waiting(BudgetWait(cfg, Starts(s.runs), s.now)))
    case BudgetFree => s.(phase := Cleared)
    case Launch => s.(phase := Running(s.now))
    case Finish(error, sample, retry) =>
      var failures := if error.Some? then s.failures + 1 else 0;
      var (seconds, attempt) := NextSleep(cfg, error, s.attempt, failures, sample, retry);
      s.(runs := s.runs + [Run(s.phase.started, s.now, error)],
         hold := s.hold || (error.Some? && error.value.needsHuman),
         failures := failures, attempt := attempt, phase := Waiting(seconds))
    case Crash => s.(phase := Down)
  }

  predicate Happens(cfg: Config, s: State, es: seq<Event>)
    decreases |es|
  {
    es == [] || (Enabled(cfg, s, es[0]) && Happens(cfg, Apply(cfg, s, es[0]), es[1..]))
  }

  function After(cfg: Config, s: State, es: seq<Event>): State
    requires Happens(cfg, s, es)
    decreases |es|
  {
    if es == [] then s else After(cfg, Apply(cfg, s, es[0]), es[1..])
  }

  /** Nothing recorded, nothing running, whatever lock, hold or request there is. */
  predicate Initial(s: State) {
    s.phase.Down? && s.runs == [] && s.attempt == 0
  }

  // ---------------------------------------------------------------------------------------------
  // The invariant

  /** Runs one after another, the last over by now. */
  ghost predicate Sequential(runs: seq<Run>, now: int) {
    && (forall i | 0 <= i < |runs| :: runs[i].started <= runs[i].finished <= now)
    && (forall i, j | 0 <= i < j < |runs| :: runs[i].finished <= runs[j].started)
  }

  /** Any `limit` runs later, more than a day has passed. */
  ghost predicate Spaced(starts: seq<int>, limit: int) {
    limit > 0 ==> forall i: nat | i + limit < |starts| :: starts[i] + DAY < starts[i + limit]
  }

  /** The shortest time the loop leaves between a run's end and the next one's start. */
  function MinGap(cfg: Config): int {
    Min(cfg.runNowMin, Min(cfg.pollMin, Least(cfg.retryDelays, cfg.pollMin)))
  }

  function Least(xs: seq<int>, bound: int): (r: int)
    ensures r <= bound && forall x | x in xs :: r <= x
  {
    if xs == [] then bound
    else
      assert xs == [xs[0]] + xs[1..];
      Min(xs[0], Least(xs[1..], bound))
  }

  /** When the last run ended. */
  function Ended(s: State): int
    requires s.runs != []
  {
    Last(s.runs).finished
  }

  ghost predicate GapKept(cfg: Config, s: State) {
    && (forall i, j | 0 <= i < j < |s.runs| :: s.runs[i].finished + MinGap(cfg) <= s.runs[j].started)
    && (s.runs != [] ==>
          match s.phase
          case Down => true
          case Waiting(left) => s.now + Max(left, 0) >= Ended(s) + MinGap(cfg)
          case Running(at) => at >= Ended(s) + MinGap(cfg)
          case _ => s.now >= Ended(s) + MinGap(cfg))
  }

  ghost predicate Inv(cfg: Config, s: State) {
    && Sequential(s.runs, s.now)
    && (s.phase.Running? ==> s.phase.started <= s.now && forall r | r in s.runs :: r.finished <= s.phase.started)
    && Spaced(Starts(s.runs) + (if s.phase.Running? then [s.phase.started] else []), cfg.maxRunsPerDay)
    && (s.phase.Cleared? ==> BudgetWait(cfg, Starts(s.runs), s.now) == 0)
    && (s.hold ==> !s.phase.AtBudget? && !s.phase.Cleared? && !s.phase.Running?)
    && (!s.phase.Down? ==> Min(s.failures, FAILURE_LOOKBACK) == Min(Trailing(s.runs), FAILURE_LOOKBACK))
    && s.attempt <= |cfg.retryDelays|
    && (!cfg.scrapeOnStartup ==> GapKept(cfg, s))
  }

  lemma {:induction false} StartsAscend(runs: seq<Run>, now: int)
    requires Sequential(runs, now)
    ensures Ascending(Starts(runs))
  {
  }

  /** A run that the budget let through keeps the spacing. */
  lemma {:induction false} LaunchKeepsSpacing(cfg: Config, starts: seq<int>, now: int)
    requires Ascending(starts) && Spaced(starts, cfg.maxRunsPerDay) && BudgetWait(cfg, starts, now) == 0
    requires forall x | x in starts :: x <= now
    ensures Spaced(starts + [now], cfg.maxRunsPerDay)
  {
    if cfg.maxRunsPerDay > 0 {
      SpentByTheLimitLast(cfg, starts, now);
    }
  }

  lemma {:induction false} SleepIsLongEnough(cfg: Config, error: Option<Failure>, attempt: nat, failures: nat,
                                             sample: int, retry: int)
    requires cfg.Valid() && cfg.pollMin <= sample
    requires attempt < |cfg.retryDelays| ==> cfg.retryDelays[attempt] <= retry
    ensures NextSleep(cfg, error, attempt, failures, sample, retry).0 >= MinGap(cfg)
  {
    BackoffShape(cfg, sample, failures, failures);
    if attempt < |cfg.retryDelays| {
      assert cfg.retryDelays[attempt] in cfg.retryDelays;
    }
  }

  lemma {:induction false} StartupWaitIsLongEnough(cfg: Config, runs: seq<Run>, now: int, sample: int)
    requires cfg.Valid() && cfg.pollMin <= sample && !cfg.scrapeOnStartup && runs != []
    ensures now + StartupWait(cfg, runs, now, sample) >= Last(runs).finished + MinGap(cfg)
  {
    var n := Min(Trailing(runs), FAILURE_LOOKBACK);
    BackoffShape(cfg, sample, n, n);
    hide PollInterval;
    assert cfg.retryDelays != [] ==> cfg.retryDelays[0] in cfg.retryDelays;
  }

  /** A run's end: the table's own conditions. */
  lemma {:induction false} FinishRecords(cfg: Config, s: State, e: Event)
    requires cfg.Valid() && Inv(cfg, s) && e.Finish? && Enabled(cfg, s, e)
    ensures var t := Apply(cfg, s, e);
            && Sequential(t.runs, t.now) && Spaced(Starts(t.runs) + [], cfg.maxRunsPerDay)
            && Trailing(t.runs) == (if e.error.Some? then Trailing(s.runs) + 1 else 0)
  {
    var t := Apply(cfg, s, e);
    hide MinGap, NextSleep, GapKept, Spaced, BudgetWait;
    assert Starts(t.runs) + [] == Starts(s.runs) + [s.phase.started];
    TrailingAfter(s.runs, Run(s.phase.started, s.now, e.error));
    assert forall i | 0 <= i < |s.runs| :: s.runs[i] in s.runs;
  }

  lemma {:induction false} TrailingAfter(runs: seq<Run>, r: Run)
    ensures Trailing(runs + [r]) == if r.error.Some? then Trailing(runs) + 1 else 0
  {
    assert (runs + [r])[..|runs|] == runs;
  }

  lemma {:induction false} FinishKeepsInv(cfg: Config, s: State, e: Event)
    requires cfg.Valid() && Inv(cfg, s) && e.Finish? && Enabled(cfg, s, e)
    ensures Inv(cfg, Apply(cfg, s, e))
  {
    FinishRecords(cfg, s, e);
    if !cfg.scrapeOnStartup {
      FinishKeepsGap(cfg, s, e);
    }
    var failures := if e.error.Some? then s.failures + 1 else 0;
    NextAttempt(cfg, e.error, s.attempt, failures, e.sample, e.retry);
    hide Sequential, Spaced, NextSleep, MinGap, Starts, Trailing, GapKept;
  }

  lemma {:induction false} FinishKeepsGap(cfg: Config, s: State, e: Event)
    requires cfg.Valid() && GapKept(cfg, s) && Sequential(s.runs, s.now) && e.Finish? && Enabled(cfg, s, e)
    ensures GapKept(cfg, Apply(cfg, s, e))
  {
    var failures := if e.error.Some? then s.failures + 1 else 0;
    SleepIsLongEnough(cfg, e.error, s.attempt, failures, e.sample, e.retry);
    hide NextSleep, MinGap;
    assert forall i | 0 <= i < |s.runs| :: s.runs[i].finished + MinGap(cfg) <= s.phase.started by {
      EarlierRunsToo(cfg, s);
    }
  }

  /** What holds of the last run's end holds of every earlier one's. */
  lemma {:induction false} EarlierRunsToo(cfg: Config, s: State)
    requires GapKept(cfg, s) && Sequential(s.runs, s.now) && s.phase.Running?
    ensures forall i | 0 <= i < |s.runs| :: s.runs[i].finished + MinGap(cfg) <= s.phase.started
  {
  }

  lemma {:induction false} NextAttempt(cfg: Config, error: Option<Failure>, attempt: nat, failures: nat, sample: int,
                                       retry: int)
    requires attempt <= |cfg.retryDelays|
    ensures NextSleep(cfg, error, attempt, failures, sample, retry).1 <= |cfg.retryDelays|
  {
  }

  lemma {:induction false} LaunchKeepsInv(cfg: Config, s: State)
    requires cfg.Valid() && Inv(cfg, s) && s.phase.Cleared?
    ensures Inv(cfg, Apply(cfg, s, Launch))
  {
    StartsAscend(s.runs, s.now);
    assert Starts(s.runs) + [] == Starts(s.runs);
    LaunchKeepsSpacing(cfg, Starts(s.runs), s.now);
    hide MinGap, BudgetWait;
  }

  lemma {:induction false} StartKeepsInv(cfg: Config, s: State, e: Event)
    requires cfg.Valid() && Inv(cfg, s) && e.Start? && Enabled(cfg, s, e)
    ensures Inv(cfg, Apply(cfg, s, e))
  {
    if !cfg.scrapeOnStartup && s.runs != [] {
      StartupWaitIsLongEnough(cfg, s.runs, s.now, e.sample);
    }
    hide MinGap, StartupWait, BudgetWait;
  }

  lemma {:induction false} TickKeepsInv(cfg: Config, s: State, e: Event)
    requires cfg.Valid() && Inv(cfg, s) && (e.Tick? || e.Nap? || e.HeldOff?) && Enabled(cfg, s, e)
    ensures Inv(cfg, Apply(cfg, s, e))
  {
    if e.Tick? && s.phase.Cleared? {
      StartsAscend(s.runs, s.now);
      BudgetStaysFree(cfg, Starts(s.runs), s.now, s.now + e.elapsed);
    }
    if !cfg.scrapeOnStartup {
      TickKeepsGap(cfg, s, e);
    }
    TickTouchesLittle(cfg, s, e);
    hide MinGap, BudgetWait, Starts, Spaced, Trailing, GapKept, Locked, RunNowDue, Apply, Enabled;
  }

  /** Time passing in one way or another moves the clock on, and the phase only along a wait. */
  lemma {:induction false} TickTouchesLittle(cfg: Config, s: State, e: Event)
    requires cfg.Valid() && (e.Tick? || e.Nap? || e.HeldOff?) && Enabled(cfg, s, e)
    ensures var t := Apply(cfg, s, e);
            && s.now <= t.now && t == s.(now := t.now, phase := t.phase)
            && (t.phase == s.phase || (s.phase.Waiting? && t.phase.Waiting?))
            && (e.Tick? ==> t.now == s.now + e.elapsed) && (s.phase.Cleared? ==> e.Tick?)
  {
    hide BudgetWait, Locked, RunNowDue, Starts;
  }

  lemma {:induction false} TickKeepsGap(cfg: Config, s: State, e: Event)
    requires GapKept(cfg, s) && (e.Tick? || e.Nap? || e.HeldOff?) && cfg.Valid() && Enabled(cfg, s, e)
    ensures GapKept(cfg, Apply(cfg, s, e))
  {
    hide MinGap, BudgetWait, Starts, Trailing, Locked, RunNowDue;
  }

  lemma {:induction false} StepKeepsInv(cfg: Config, s: State, e: Event)
    requires cfg.Valid() && Inv(cfg, s) && Enabled(cfg, s, e)
    ensures Inv(cfg, Apply(cfg, s, e))
  {
    if e.Finish? {
      FinishKeepsInv(cfg, s, e);
    } else if e.Launch? {
      LaunchKeepsInv(cfg, s);
    } else if e.Start? {
      StartKeepsInv(cfg, s, e);
    } else if e.Tick? || e.Nap? || e.HeldOff? {
      TickKeepsInv(cfg, s, e);
    } else {
      TurnKeepsInv(cfg, s, e);
    }
  }

  lemma {:induction false} TurnKeepsInv(cfg: Config, s: State, e: Event)
    requires cfg.Valid() && Inv(cfg, s) && Enabled(cfg, s, e)
    requires !e.Finish? && !e.Launch? && !e.Start? && !e.Tick? && !e.Nap? && !e.HeldOff?
    ensures Inv(cfg, Apply(cfg, s, e))
  {
    if !cfg.scrapeOnStartup {
      TurnKeepsGap(cfg, s, e);
    }
    hide MinGap, BudgetWait, Starts, Spaced, Trailing, Sequential, GapKept, RunNowDue;
  }

  lemma {:induction false} TurnKeepsGap(cfg: Config, s: State, e: Event)
    requires GapKept(cfg, s) && Enabled(cfg, s, e)
    requires !e.Finish? && !e.Launch? && !e.Start? && !e.Tick? && !e.Nap? && !e.HeldOff?
    ensures GapKept(cfg, Apply(cfg, s, e))
  {
    assert MinGap(cfg) <= cfg.runNowMin;
    hide MinGap, BudgetWait, Starts, Trailing, Locked;
  }

  lemma {:induction false} HistoryKeepsInv(cfg: Config, s: State, es: seq<Event>)
    requires cfg.Valid() && Inv(cfg, s) && Happens(cfg, s, es)
    ensures Inv(cfg, After(cfg, s, es))
    decreases |es|
  {
    hide Inv, Enabled, Apply;
    if es != [] {
      StepKeepsInv(cfg, s, es[0]);
      HistoryKeepsInv(cfg, Apply(cfg, s, es[0]), es[1..]);
    }
  }

  // ---------------------------------------------------------------------------------------------
  // Safety

  /** The starts, recorded or under way. */
  function Launches(s: State): seq<int> {
    Starts(s.runs) + if s.phase.Running? then [s.phase.started] else []
  }

  /** How many starts fall in the 24 hours from `from`, both ends included. */
  function CountIn(l: seq<int>, from: int): (n: nat)
    ensures n <= |l|
  {
    if l == [] then 0 else (if from <= l[0] <= from + DAY then 1 else 0) + CountIn(l[1..], from)
  }

  /**
   The ceiling on launches: over every history of schedules, retries, scrape-nows and restarts, no 24-hour
   window, its edges included, holds more than the budget's runs: any start is more than a day before the one that
   many later.
   */
  lemma {:induction false} AtMostTheBudgetADay(cfg: Config, s: State, es: seq<Event>, from: int)
    requires cfg.Valid() && cfg.maxRunsPerDay > 0 && Initial(s) && Happens(cfg, s, es)
    ensures CountIn(Launches(After(cfg, s, es)), from) <= cfg.maxRunsPerDay
    ensures var t := After(cfg, s, es);
            && (forall i | 0 <= i && i + cfg.maxRunsPerDay < |t.runs| ::
                  t.runs[i].started + DAY < t.runs[i + cfg.maxRunsPerDay].started)
            && (t.phase.Running? && cfg.maxRunsPerDay <= |t.runs| ==>
                  t.runs[|t.runs| - cfg.maxRunsPerDay].started + DAY < t.phase.started)
  {
    HistoryKeepsInv(cfg, s, es);
    hide *;
    var t := After(cfg, s, es);
    LaunchesAscend(cfg, t);
    LaunchesAreSpaced(cfg, t);
    WindowCount(Launches(t), cfg.maxRunsPerDay, from);
  }

  lemma {:induction false} LaunchesAscend(cfg: Config, t: State)
    requires Inv(cfg, t)
    ensures Ascending(Launches(t)) && Spaced(Launches(t), cfg.maxRunsPerDay)
  {
    StartsAscend(t.runs, t.now);
    assert t.phase.Running? ==> forall i | 0 <= i < |t.runs| :: t.runs[i] in t.runs;
    hide BudgetWait, GapKept, Trailing;
  }

  lemma {:induction false} LaunchesAreSpaced(cfg: Config, t: State)
    requires cfg.maxRunsPerDay > 0 && Spaced(Launches(t), cfg.maxRunsPerDay)
    ensures forall i | 0 <= i && i + cfg.maxRunsPerDay < |t.runs| ::
              t.runs[i].started + DAY < t.runs[i + cfg.maxRunsPerDay].started
    ensures t.phase.Running? && cfg.maxRunsPerDay <= |t.runs| ==>
              t.runs[|t.runs| - cfg.maxRunsPerDay].started + DAY < t.phase.started
  {
    var starts := Launches(t);
    assert forall i: nat | i + cfg.maxRunsPerDay < |starts| :: starts[i] + DAY < starts[i + cfg.maxRunsPerDay];
    forall i | 0 <= i && i + cfg.maxRunsPerDay < |t.runs|
      ensures t.runs[i].started + DAY < t.runs[i + cfg.maxRunsPerDay].started
    {
      assert starts[i] + DAY < starts[i + cfg.maxRunsPerDay];
    }
    if t.phase.Running? && cfg.maxRunsPerDay <= |t.runs| {
      var i := |t.runs| - cfg.maxRunsPerDay;
      assert starts[i] + DAY < starts[i + cfg.maxRunsPerDay];
    }
  }

  lemma {:induction false} WindowCount(l: seq<int>, limit: int, from: int)
    requires limit > 0 && Ascending(l) && Spaced(l, limit)
    ensures CountIn(l, from) <= limit
    decreases |l|
  {
    if |l| > limit {
      if from <= l[0] {
        assert l[0] + DAY < l[limit];
        CountSplit(l, limit, from);
        CountPast(l[limit..], from);
      } else {
        forall i: nat | i + limit < |l[1..]|
          ensures l[1..][i] + DAY < l[1..][i + limit]
        {
          assert l[i + 1] + DAY < l[i + 1 + limit];
        }
        WindowCount(l[1..], limit, from);
      }
    }
  }

  lemma {:induction false} CountSplit(l: seq<int>, k: nat, from: int)
    requires k <= |l|
    ensures CountIn(l, from) == CountIn(l[..k], from) + CountIn(l[k..], from)
    decreases k
  {
    if k > 0 {
      CountSplit(l[1..], k - 1, from);
      assert l[..k][1..] == l[1..][..k - 1] && l[k..] == l[1..][k - 1..];
    } else {
      assert l[0..] == l;
    }
  }

  lemma {:induction false} CountPast(l: seq<int>, from: int)
    requires forall i | 0 <= i < |l| :: from + DAY < l[i]
    ensures CountIn(l, from) == 0
  {
    if l != [] {
      CountPast(l[1..], from);
    }
  }

  /**
   After a run that needs a person, no run starts until someone unlocks, whatever the lock's age,
   scrape-now requests, waits or restarts come between.
   */
  lemma {:induction false} HeldUntilUnlocked(cfg: Config, s: State, es: seq<Event>)
    requires cfg.Valid() && Inv(cfg, s) && s.hold && Happens(cfg, s, es)
    requires Unlock !in es
    ensures Launch !in es && After(cfg, s, es).hold && |After(cfg, s, es).runs| == |s.runs|
    decreases |es|
  {
    if es != [] {
      StepKeepsInv(cfg, s, es[0]);
      assert es[0] != Unlock && es == [es[0]] + es[1..];
      HeldUntilUnlocked(cfg, Apply(cfg, s, es[0]), es[1..]);
    }
  }

  /** So a run that needs a person is the last, whatever was configured and whatever follows, until an unlock. */
  lemma {:induction false} NeedsHumanStopsTheLoop(cfg: Config, s: State, error: Failure, sample: int, retry: int,
                                                  es: seq<Event>)
    requires cfg.Valid() && Inv(cfg, s) && error.needsHuman
    requires Enabled(cfg, s, Finish(Some(error), sample, retry)) && Unlock !in es
    requires Happens(cfg, Apply(cfg, s, Finish(Some(error), sample, retry)), es)
    ensures var t := After(cfg, Apply(cfg, s, Finish(Some(error), sample, retry)), es);
            Launch !in es && !t.phase.Running? && |t.runs| == |s.runs| + 1
  {
    var finish := Finish(Some(error), sample, retry);
    StepKeepsInv(cfg, s, finish);
    HistoryKeepsInv(cfg, Apply(cfg, s, finish), es);
    HeldUntilUnlocked(cfg, Apply(cfg, s, finish), es);
  }

  /**
   With SCRAPE_ON_STARTUP off, the next run starts no sooner after a recorded one's end than the least of the
   scrape-now limit, the retry delays and the shortest poll interval, restarts included.
   */
  lemma {:induction false} RunsKeepTheirDistance(cfg: Config, s: State, es: seq<Event>)
    requires cfg.Valid() && !cfg.scrapeOnStartup && Initial(s) && Happens(cfg, s, es)
    ensures var runs := After(cfg, s, es).runs;
            forall i, j | 0 <= i < j < |runs| :: runs[i].finished + MinGap(cfg) <= runs[j].started
  {
    HistoryKeepsInv(cfg, s, es);
  }

  /** A restart never changes the backoff: what the loop counted and what the table says give one interval. */
  lemma {:induction false} RestartKeepsTheBackoff(cfg: Config, s: State, es: seq<Event>, sample: int)
    requires cfg.Valid() && Initial(s) && Happens(cfg, s, es) && 0 <= sample
    requires !After(cfg, s, es).phase.Down?
    ensures var t := After(cfg, s, es);
            PollInterval(cfg, sample, t.failures) == PollInterval(cfg, sample, Min(Trailing(t.runs), FAILURE_LOOKBACK))
  {
    var t := After(cfg, s, es);
    HistoryKeepsInv(cfg, s, es);
    BackoffForgetsLongRuns(cfg, sample, t.failures, Min(Trailing(t.runs), FAILURE_LOOKBACK));
  }

  /**
   What a run is followed by, over every history. A transient failure with retries left is followed by the delay next
   in line, and that retry counts; anything else by a poll interval, widened by the failures at the end of the runs
   table, with the retries starting over.
   */
  lemma {:induction false} SleepAfterARun(cfg: Config, s: State, es: seq<Event>, e: Event)
    requires cfg.Valid() && Initial(s) && Happens(cfg, s, es) && e.Finish? && Enabled(cfg, After(cfg, s, es), e)
    ensures var before := After(cfg, s, es); var t := Apply(cfg, before, e);
            var retried := e.error.Some? && e.error.value.transient && before.attempt < |cfg.retryDelays|;
            && t.phase == Waiting(if retried then e.retry
                                  else PollInterval(cfg, e.sample, Min(Trailing(t.runs), FAILURE_LOOKBACK)))
            && (retried ==> e.retry >= cfg.retryDelays[before.attempt])
            && t.attempt == (if retried then before.attempt + 1 else 0)
            && t.runs == before.runs + [Run(before.phase.started, before.now, e.error)]
            && (t.hold <==> e.error.Some? && e.error.value.needsHuman)
  {
    var before := After(cfg, s, es);
    HistoryKeepsInv(cfg, s, es);
    StepKeepsInv(cfg, before, e);
    var t := Apply(cfg, before, e);
    BackoffForgetsLongRuns(cfg, e.sample, t.failures, Min(Trailing(t.runs), FAILURE_LOOKBACK));
    hide PollInterval, Inv, Trailing;
  }

  /** What a process starts with: nothing to wait for without a recorded run, or if told so; otherwise until the
      interval after the last run is over, which is the first retry's after a transient failure. */
  lemma {:induction false} WaitAtStart(cfg: Config, s: State, e: Event)
    requires e.Start? && Enabled(cfg, s, e)
    ensures var t := Apply(cfg, s, e);
            && t.attempt == 0
            && if cfg.scrapeOnStartup || s.runs == [] then t.phase == AtLock
               else
                 var last := Last(s.runs);
                 var over := last.finished
                             + (if last.error.Some? && last.error.value.transient && |cfg.retryDelays| > 0
                                then cfg.retryDelays[0]
                                else PollInterval(cfg, e.sample, Min(Trailing(s.runs), FAILURE_LOOKBACK)));
                 t.phase == if over > s.now then Waiting(over - s.now) else AtLock
  {
    hide PollInterval, Trailing;
  }

  // ---------------------------------------------------------------------------------------------
  // Progress

  /** An event that is the loop's own doing, while no run is under way. */
  predicate IsOwn(e: Event) {
    || e.Nap? || e.TakeRequest? || e.WaitOver? || e.HeldOff? || e.LockClear? || e.BudgetSpent? || e.BudgetFree?
    || e.Launch?
  }

  /** The loop is never stuck and never has a choice: between runs there is just one thing it can do next, but for how
      long a sleep really lasts. A process not running a run can stop, and one that has stopped can start. */
  lemma {:induction false} TheLoopGoesOn(cfg: Config, s: State)
    ensures !s.phase.Down? && !s.phase.Running? ==> exists e :: IsOwn(e) && Enabled(cfg, s, e)
    ensures forall e, f | IsOwn(e) && IsOwn(f) && Enabled(cfg, s, e) && Enabled(cfg, s, f) ::
              e == f || (e.Nap? && f.Nap?) || (e.HeldOff? && f.HeldOff?)
    ensures !s.phase.Down? && !s.phase.Running? ==> Enabled(cfg, s, Crash) && Apply(cfg, s, Crash) == s.(phase := Down)
    ensures s.phase.Down? ==> forall sample | cfg.pollMin <= sample :: Enabled(cfg, s, Start(sample))
  {
    match s.phase
    case Waiting(left) =>
      assert IsOwn(Nap(Min(left, cfg.controlPoll))) && IsOwn(TakeRequest) && IsOwn(WaitOver);
      assert Enabled(cfg, s, WaitOver) || Enabled(cfg, s, TakeRequest)
             || Enabled(cfg, s, Nap(Min(left, cfg.controlPoll)));
    case AtLock =>
      assert IsOwn(HeldOff(cfg.controlPoll)) && IsOwn(LockClear);
      assert Enabled(cfg, s, HeldOff(cfg.controlPoll)) || Enabled(cfg, s, LockClear);
    case AtBudget =>
      NeverNegative(cfg, Starts(s.runs), s.now);
      assert IsOwn(BudgetSpent) && IsOwn(BudgetFree);
      assert Enabled(cfg, s, BudgetSpent) || Enabled(cfg, s, BudgetFree);
    case Cleared => assert IsOwn(Launch) && Enabled(cfg, s, Launch);
    case _ =>
  }

  lemma {:induction false} NeverNegative(cfg: Config, starts: seq<int>, at: int)
    ensures BudgetWait(cfg, starts, at) >= 0
  {
  }

  /** A lock holds until it is as old as configured, for ever if no age is; a hold, until an unlock; and an unlock ends
      both. */
  lemma {:induction false} LockRunsOut(cfg: Config, s: State, elapsed: nat)
    ensures var locked := Apply(cfg, s, SetLock); var later := Apply(cfg, locked, Tick(elapsed));
            Locked(cfg, later) <==> s.hold || cfg.lockMax <= 0 || elapsed < cfg.lockMax
    ensures !Locked(cfg, Apply(cfg, s, Unlock))
    ensures s.lock.None? ==> (Locked(cfg, s) <==> s.hold)
  {
  }

  /** A request cuts a wait short exactly if the last run, if any, ended long enough ago; it is then used up. */
  lemma {:induction false} RequestIsTaken(cfg: Config, s: State)
    requires s.phase.Waiting? && s.phase.left > 0
    ensures !s.request ==> !Enabled(cfg, s, TakeRequest)
    ensures var t := Apply(cfg, s, RequestRun);
            && (Enabled(cfg, t, TakeRequest) <==>
                  |s.runs| == 0 || s.runs[|s.runs| - 1].finished + cfg.runNowMin <= s.now)
            && (Enabled(cfg, t, TakeRequest) ==>
                  Apply(cfg, t, TakeRequest) == s.(request := false, phase := AtLock))
  {
  }

  /** While locked the loop sleeps where it is. */
  lemma {:induction false} HeldWhileLocked(cfg: Config, s: State, e: Event)
    requires s.phase.AtLock? && Locked(cfg, s) && IsOwn(e) && Enabled(cfg, s, e)
    ensures Apply(cfg, s, e).phase.AtLock? && Apply(cfg, s, e).now >= s.now + cfg.controlPoll
    ensures Apply(cfg, s, e).runs == s.runs
  {
  }

  lemma {:induction false} HappensThen(cfg: Config, s: State, es: seq<Event>, e: Event)
    requires Happens(cfg, s, es) && Enabled(cfg, After(cfg, s, es), e)
    ensures Happens(cfg, s, es + [e]) && After(cfg, s, es + [e]) == Apply(cfg, After(cfg, s, es), e)
    decreases |es|
  {
    hide Enabled, Apply;
    if es == [] {
      assert [e][1..] == [] && [] + [e] == [e];
      assert Happens(cfg, Apply(cfg, s, e), []) && After(cfg, Apply(cfg, s, e), []) == Apply(cfg, s, e);
    } else {
      assert (es + [e])[1..] == es[1..] + [e];
      HappensThen(cfg, Apply(cfg, s, es[0]), es[1..], e);
    }
  }

  /** Nobody has locked the loop or asked for a run. */
  predicate Undisturbed(s: State) {
    !s.hold && s.lock.None? && !s.request
  }

  /** Sleeping a wait out, no longer than each step asks. */
  lemma {:induction false} WaitsOut(cfg: Config, s: State, es: seq<Event>) returns (more: seq<Event>)
    requires 0 < cfg.controlPoll && Happens(cfg, s, es)
    requires Undisturbed(After(cfg, s, es)) && After(cfg, s, es).phase.Waiting?
    ensures Happens(cfg, s, more)
    ensures var t := After(cfg, s, es);
            After(cfg, s, more) == t.(now := t.now + Max(t.phase.left, 0), phase := AtBudget)
    decreases After(cfg, s, es).phase.left
  {
    hide Happens, After;
    var t := After(cfg, s, es);
    if t.phase.left > 0 {
      var nap := Nap(Min(t.phase.left, cfg.controlPoll));
      HappensThen(cfg, s, es, nap);
      more := WaitsOut(cfg, s, es + [nap]);
    } else {
      HappensThen(cfg, s, es, WaitOver);
      HappensThen(cfg, s, es + [WaitOver], LockClear);
      more := es + [WaitOver] + [LockClear];
    }
  }

  /**
   Left alone, a waiting loop starts its next run when the wait is over and, if the budget is spent then, when the
   budget is free.
   */
  lemma {:induction false} LaunchesOnTime(cfg: Config, s: State) returns (es: seq<Event>)
    requires cfg.Valid() && 0 < cfg.controlPoll && Inv(cfg, s) && Undisturbed(s) && s.phase.Waiting?
    ensures Happens(cfg, s, es)
    ensures var over := s.now + Max(s.phase.left, 0);
            var start := over + BudgetWait(cfg, Starts(s.runs), over);
            After(cfg, s, es) == s.(now := start, phase := Running(start))
  {
    var over := s.now + Max(s.phase.left, 0);
    var wait := BudgetWait(cfg, Starts(s.runs), over);
    NeverNegative(cfg, Starts(s.runs), over);
    StartsAscend(s.runs, s.now);
    FreeAfterwards(cfg, Starts(s.runs), over);
    hide *;
    NothingYet(cfg, s);
    es := WaitsOut(cfg, s, []);
    if wait > 0 {
      es := SpendsOut(cfg, s, es, wait);
    }
    es := LaunchesNext(cfg, s, es);
  }

  lemma {:induction false} FreeAfterwards(cfg: Config, starts: seq<int>, at: int)
    requires Ascending(starts)
    ensures BudgetWait(cfg, starts, at + BudgetWait(cfg, starts, at)) == 0
  {
    if cfg.maxRunsPerDay > 0 {
      BudgetWaitIsExact(cfg, starts, at);
    }
  }

  lemma {:induction false} NothingYet(cfg: Config, s: State)
    ensures Happens(cfg, s, []) && After(cfg, s, []) == s
  {
  }

  lemma {:induction false} SpendsOut(cfg: Config, s: State, es: seq<Event>, wait: int) returns (more: seq<Event>)
    requires 0 < cfg.controlPoll && Happens(cfg, s, es)
    requires var t := After(cfg, s, es);
             Undisturbed(t) && t.phase.AtBudget? && wait == BudgetWait(cfg, Starts(t.runs), t.now) > 0
    ensures Happens(cfg, s, more)
    ensures var t := After(cfg, s, es); After(cfg, s, more) == t.(now := t.now + wait)
  {
    hide Happens, After, BudgetWait, Starts;
    HappensThen(cfg, s, es, BudgetSpent);
    more := WaitsOut(cfg, s, es + [BudgetSpent]);
  }

  lemma {:induction false} LaunchesNext(cfg: Config, s: State, es: seq<Event>) returns (more: seq<Event>)
    requires Happens(cfg, s, es)
    requires var t := After(cfg, s, es); t.phase.AtBudget? && BudgetWait(cfg, Starts(t.runs), t.now) == 0
    ensures Happens(cfg, s, more)
    ensures var t := After(cfg, s, es); After(cfg, s, more) == t.(phase := Running(t.now))
  {
    hide Happens, After, BudgetWait, Starts;
    HappensThen(cfg, s, es, BudgetFree);
    HappensThen(cfg, s, es + [BudgetFree], Launch);
    more := es + [BudgetFree] + [Launch];
  }

  /** When the next run can start at the earliest. */
  function Soonest(s: State): int {
    if s.phase.Waiting? then s.now + Max(s.phase.left, 0)
    else if s.phase.Running? then s.phase.started
    else s.now
  }

  /** And no sooner: whatever people do, without a request taken or a restart no run starts before the wait is over. */
  lemma {:induction false} NoSooner(cfg: Config, s: State, es: seq<Event>)
    requires cfg.Valid() && Happens(cfg, s, es) && s.phase.Waiting?
    requires forall e | e in es :: !e.TakeRequest? && !e.Finish? && !e.Crash? && !e.Start?
    ensures var t := After(cfg, s, es);
            t.phase.Running? ==> t.phase.started >= s.now && t.phase.started >= s.now + s.phase.left
  {
    NeverSooner(cfg, s, es);
  }

  lemma {:induction false} NeverSooner(cfg: Config, s: State, es: seq<Event>)
    requires cfg.Valid() && Happens(cfg, s, es)
    requires forall e | e in es :: !e.TakeRequest? && !e.Finish? && !e.Crash? && !e.Start?
    ensures Soonest(s) <= Soonest(After(cfg, s, es))
    decreases |es|
  {
    if es != [] {
      NoSoonerBy(cfg, s, es[0]);
      hide Enabled, Apply, Soonest;
      assert es == [es[0]] + es[1..];
      NeverSooner(cfg, Apply(cfg, s, es[0]), es[1..]);
    }
  }

  lemma {:induction false} NoSoonerBy(cfg: Config, s: State, e: Event)
    requires cfg.Valid() && Enabled(cfg, s, e) && !e.TakeRequest? && !e.Finish? && !e.Crash? && !e.Start?
    ensures Soonest(s) <= Soonest(Apply(cfg, s, e))
  {
    hide BudgetWait, Locked, RunNowDue;
  }

  /** Whether every run a history ends is followed by a retry's sleep rather than a poll interval's. */
  predicate OnlyRetries(cfg: Config, s: State, es: seq<Event>)
    requires Happens(cfg, s, es)
    decreases |es|
  {
    es == [] || (var t := Apply(cfg, s, es[0]);
                 (es[0].Finish? ==> t.attempt > 0) && !es[0].Start? && OnlyRetries(cfg, t, es[1..]))
  }

  /** Without a restart, the retries between two poll intervals are no more than the delays configured. */
  lemma {:induction false} RetriesRunOut(cfg: Config, s: State, es: seq<Event>)
    requires cfg.Valid() && Inv(cfg, s) && Happens(cfg, s, es) && OnlyRetries(cfg, s, es)
    ensures |After(cfg, s, es).runs| <= |s.runs| + |cfg.retryDelays| - s.attempt
    decreases |es|
  {
    if es != [] {
      StepKeepsInv(cfg, s, es[0]);
      hide Inv, StartupWait;
      RetriesRunOut(cfg, Apply(cfg, s, es[0]), es[1..]);
      if es[0].Finish? {
        assert Apply(cfg, s, es[0]).attempt == s.attempt + 1;
      }
    } else {
      assert s.attempt <= |cfg.retryDelays|;
    }
  }
}
