/**
 When the next run of the scraper may start: the daily budget, the retries and the failure backoff. Times and
 durations are in microseconds, exact.
 */
module Scheduler {
  import opened Numbers
  import opened Text
  import opened Timestamps

  datatype Config = Config(
    maxRunsPerDay: int, retryDelays: seq<int>, pollMin: int, backoffMax: int,
    lockMax: int, runNowMin: int, controlPoll: int, scrapeOnStartup: bool)
  {
    predicate Valid() {
      0 <= pollMin && 0 <= controlPoll
    }
  }

  /** A failed run's kind: worth retrying soon, or not to be retried until someone has looked. */
  datatype Failure = Failure(transient: bool, needsHuman: bool)

  /** A runs row. */
  datatype Run = Run(started: int, finished: int, error: Option<Failure>)

  // ---------------------------------------------------------------------------------------------
  // The daily budget

  /** The starts no older than a day, oldest first. */
  function WindowStarts(starts: seq<int>, at: int): seq<int> {
    if starts == [] then []
    else (if starts[0] >= at - DAY then [starts[0]] else []) + WindowStarts(starts[1..], at)
  }

  /** The end of the day that the last `limit` starts span. */
  function NextAllowed(starts: seq<int>, limit: int): int
    requires 0 < limit <= |starts|
  {
    starts[|starts| - limit] + DAY
  }

  /** The budget's share of the next sleep: 0 if a run may start at once. */
  function BudgetWait(cfg: Config, starts: seq<int>, at: int): int {
    if cfg.maxRunsPerDay <= 0 then 0
    else
      var recent := WindowStarts(starts, at);
      if |recent| < cfg.maxRunsPerDay then 0
      else Max(0, NextAllowed(recent, cfg.maxRunsPerDay) - at) + SECOND
  }

  predicate Ascending(starts: seq<int>) {
    forall i, j | 0 <= i < j < |starts| :: starts[i] <= starts[j]
  }

  /** In time order the window is the tail of the list, from the first start that is recent enough. */
  function OldCount(starts: seq<int>, at: int): (k: nat)
    ensures k <= |starts|
    ensures forall i | 0 <= i < k :: starts[i] < at - DAY
    ensures k < |starts| ==> starts[k] >= at - DAY
  {
    if starts == [] || starts[0] >= at - DAY then 0 else 1 + OldCount(starts[1..], at)
  }

  lemma {:induction false} WindowIsTail(starts: seq<int>, at: int)
    requires Ascending(starts)
    ensures WindowStarts(starts, at) == starts[OldCount(starts, at)..]
    decreases |starts|
  {
    if starts != [] {
      WindowIsTail(starts[1..], at);
      if starts[0] >= at - DAY && |starts| > 1 {
        assert starts[1] == starts[1..][0];
        assert OldCount(starts[1..], at) == 0;
        assert starts == [starts[0]] + starts[1..];
      }
    }
  }

  lemma {:induction false} OldExactly(starts: seq<int>, at: int, i: nat)
    requires Ascending(starts) && i < |starts|
    ensures i < OldCount(starts, at) <==> starts[i] < at - DAY
  {
  }

  /** Whether the budget is spent, by the start it hangs on. */
  lemma {:induction false} SpentByTheLimitLast(cfg: Config, starts: seq<int>, at: int)
    requires cfg.maxRunsPerDay > 0 && Ascending(starts)
    ensures BudgetWait(cfg, starts, at) > 0 <==> |WindowStarts(starts, at)| >= cfg.maxRunsPerDay
    ensures BudgetWait(cfg, starts, at) > 0
       <==> cfg.maxRunsPerDay <= |starts| && starts[|starts| - cfg.maxRunsPerDay] >= at - DAY
    ensures BudgetWait(cfg, starts, at) ==
            if cfg.maxRunsPerDay <= |starts| && starts[|starts| - cfg.maxRunsPerDay] >= at - DAY
            then starts[|starts| - cfg.maxRunsPerDay] + DAY - at + SECOND else 0
  {
    WindowIsTail(starts, at);
    if cfg.maxRunsPerDay <= |starts| {
      OldExactly(starts, at, |starts| - cfg.maxRunsPerDay);
    }
  }

  /**
   The wait is positive exactly when the budget is spent. Sleeping it out frees the budget, and it is the
   second on top that does: the window's edge is inclusive, so without it the oldest start would still count.
   */
  lemma {:induction false} BudgetWaitIsExact(cfg: Config, starts: seq<int>, at: int)
    requires cfg.maxRunsPerDay > 0 && Ascending(starts)
    ensures BudgetWait(cfg, starts, at) > 0 <==> |WindowStarts(starts, at)| >= cfg.maxRunsPerDay
    ensures BudgetWait(cfg, starts, at + BudgetWait(cfg, starts, at)) == 0
    ensures BudgetWait(cfg, starts, at) > 0 ==> BudgetWait(cfg, starts, at + BudgetWait(cfg, starts, at) - SECOND) > 0
  {
    hide BudgetWait, WindowStarts;
    var wait := BudgetWait(cfg, starts, at);
    SpentByTheLimitLast(cfg, starts, at);
    SpentByTheLimitLast(cfg, starts, at + wait);
    SpentByTheLimitLast(cfg, starts, at + wait - SECOND);
  }

  /** With the budget off, or fewer starts in the last 24 hours than it allows, nothing is waited for. */
  lemma {:induction false} FreeBudgetWaitsNot(cfg: Config, starts: seq<int>, at: int)
    requires cfg.maxRunsPerDay <= 0 || |starts| < cfg.maxRunsPerDay
             || starts[|starts| - cfg.maxRunsPerDay] < at - DAY
    requires Ascending(starts)
    ensures BudgetWait(cfg, starts, at) == 0
  {
    if cfg.maxRunsPerDay > 0 {
      SpentByTheLimitLast(cfg, starts, at);
    }
  }

  /** Time passing only frees the budget. */
  lemma {:induction false} BudgetStaysFree(cfg: Config, starts: seq<int>, at: int, later: int)
    requires Ascending(starts) && at <= later && BudgetWait(cfg, starts, at) == 0
    ensures BudgetWait(cfg, starts, later) == 0
  {
    if cfg.maxRunsPerDay > 0 {
      SpentByTheLimitLast(cfg, starts, at);
      SpentByTheLimitLast(cfg, starts, later);
    }
  }

  /** The SQL prefilter on the stored text drops no start the window counts, and no other. */
  lemma {:induction false} PrefilterIsTheWindow(start: DateTime, cutoff: DateTime)
    requires start.Valid() && cutoff.Valid()
    ensures AtMost(Iso(cutoff), Iso(start)) <==> Instant(start) >= Instant(cutoff)
  {
    IsoOrder(cutoff, start);
  }

  // ---------------------------------------------------------------------------------------------
  // Retries and the failure backoff

  const FAILURE_LOOKBACK: nat := 64
  const MAX_DOUBLINGS: nat := 16

  function Pow2(n: nat): (r: int)
    ensures r >= 1
  {
    if n == 0 then 1 else 2 * Pow2(n - 1)
  }

  /** The sample, doubled with each failure in a row but the first, as far as the cap. */
  function PollInterval(cfg: Config, sample: int, failures: nat): int {
    if failures > 1 && cfg.backoffMax > 0 then
      Min(sample * Pow2(Min(failures - 1, MAX_DOUBLINGS)), Max(cfg.backoffMax, sample))
    else sample
  }

  /** How long to sleep after a run, and the retry count. */
  function NextSleep(cfg: Config, error: Option<Failure>, attempt: nat, failures: nat, sample: int,
                     retry: int): (int, nat) {
    if error.Some? && error.value.transient && attempt < |cfg.retryDelays| then (retry, attempt + 1)
    else (PollInterval(cfg, sample, failures), 0)
  }

  /** How many runs at the end of the list failed in a row. */
  function Trailing(runs: seq<Run>): (n: nat)
    ensures n <= |runs|
  {
    if runs == [] || Last(runs).error.None? then 0 else 1 + Trailing(runs[..|runs| - 1])
  }

  function Last(runs: seq<Run>): Run
    requires runs != []
  {
    runs[|runs| - 1]
  }

  /** Counts the newest runs back to a success, among the last 64. */
  method ConsecutiveFailures(runs: seq<Run>) returns (n: nat)
    ensures n == Min(Trailing(runs), FAILURE_LOOKBACK)
  {
    n := 0;
    assert runs[..|runs|] == runs;
    while n < |runs| && n < FAILURE_LOOKBACK
      invariant n <= |runs| && n <= FAILURE_LOOKBACK
      invariant Trailing(runs) == n + Trailing(runs[..|runs| - n])
    {
      if runs[|runs| - 1 - n].error.None? {
        return;
      }
      n := n + 1;
      assert runs[..|runs| - n + 1][..|runs| - n] == runs[..|runs| - n];
    }
  }

  lemma {:induction false} Pow2Grows(m: nat, n: nat)
    requires m <= n
    ensures Pow2(m) <= Pow2(n)
    decreases n
  {
    if m < n {
      Pow2Grows(m, n - 1);
    }
  }

  /** How far a failure count widens an interval. */
  function Widening(failures: nat): int {
    Pow2(if failures > 1 then Min(failures - 1, MAX_DOUBLINGS) else 0)
  }

  lemma {:induction false} Products(sample: int, k: int, l: int)
    requires 0 <= sample && 1 <= k <= l
    ensures sample <= sample * k <= sample * l
  {
  }

  /** The interval is the sample up to one failure, or without backoff; from there each failure in a row doubles it,
      as far as the cap (or a sample above that), up to the seventeenth. That is all there is to it. */
  lemma {:induction false} BackoffDoubles(cfg: Config, sample: int, n: nat)
    requires 0 <= sample
    ensures cfg.backoffMax <= 0 || n <= 1 ==> PollInterval(cfg, sample, n) == sample
    ensures cfg.backoffMax > 0 && 1 <= n <= 16 ==>
              var twice, most := 2 * PollInterval(cfg, sample, n), Max(sample, cfg.backoffMax);
              PollInterval(cfg, sample, n + 1) == if twice <= most then twice else most
    ensures n >= 17 ==> PollInterval(cfg, sample, n + 1) == PollInterval(cfg, sample, n)
  {
    if 1 <= n <= 16 {
      assert Pow2(n) == 2 * Pow2(n - 1);
      assert sample * Pow2(n) == 2 * (sample * Pow2(n - 1));
      Products(sample, 1, Pow2(n - 1));
    }
  }

  /** With the defaults, a sample of 4 hours under a cap of 24: three failures in a row make it 16, four 24. */
  lemma {:induction false} FourHoursWiden(cfg: Config)
    requires cfg.backoffMax == 24 * 3600 * SECOND
    ensures PollInterval(cfg, 4 * 3600 * SECOND, 3) == 16 * 3600 * SECOND
    ensures PollInterval(cfg, 4 * 3600 * SECOND, 4) == 24 * 3600 * SECOND
  {
    BackoffDoubles(cfg, 4 * 3600 * SECOND, 1);
    BackoffDoubles(cfg, 4 * 3600 * SECOND, 2);
    BackoffDoubles(cfg, 4 * 3600 * SECOND, 3);
  }

  /** The backoff never shortens an interval, never grows one past its cap, grows with the failures, and no
      longer changes from 17 on. */
  lemma {:induction false} BackoffShape(cfg: Config, sample: int, m: nat, n: nat)
    requires 0 <= sample && m <= n
    ensures sample <= PollInterval(cfg, sample, m) <= Max(sample, cfg.backoffMax)
    ensures PollInterval(cfg, sample, m) <= PollInterval(cfg, sample, n)
    ensures m > MAX_DOUBLINGS ==> PollInterval(cfg, sample, m) == PollInterval(cfg, sample, n)
  {
    Pow2Grows(if m > 1 then Min(m - 1, MAX_DOUBLINGS) else 0, if n > 1 then Min(n - 1, MAX_DOUBLINGS) else 0);
    Products(sample, Widening(m), Widening(n));
    hide Pow2;
  }

  /** Only the failures up to the look-back show in the interval. */
  lemma {:induction false} BackoffForgetsLongRuns(cfg: Config, sample: int, m: nat, n: nat)
    requires 0 <= sample && Min(m, FAILURE_LOOKBACK) == Min(n, FAILURE_LOOKBACK)
    ensures PollInterval(cfg, sample, m) == PollInterval(cfg, sample, n)
  {
    if m <= n {
      BackoffShape(cfg, sample, m, n);
    } else {
      BackoffShape(cfg, sample, n, m);
    }
  }

  /** The first wait of a process: the interval less what has passed of it already. */
  function StartupWait(cfg: Config, runs: seq<Run>, now: int, sample: int): int {
    if cfg.scrapeOnStartup || runs == [] then 0
    else
      var last := Last(runs);
      var interval :=
        if last.error.Some? && last.error.value.transient && cfg.retryDelays != [] then cfg.retryDelays[0]
        else PollInterval(cfg, sample, Min(Trailing(runs), FAILURE_LOOKBACK));
      Max(0, interval - (now - last.finished))
  }

  /** One wait: sleeps in steps of `poll`, looking for a due scrape-now request before each. `due(k)` is
      whether there is one after k steps. */
  method Wait(seconds: int, poll: int, due: nat -> bool) returns (steps: nat, early: bool, slept: int)
    requires 0 < poll
    ensures forall k: nat | k < steps :: !due(k)
    ensures early ==> due(steps) && slept == steps * poll < seconds
    ensures !early ==> slept == Max(seconds, 0) && steps * poll >= seconds
    ensures steps > 0 ==> (steps - 1) * poll < seconds
  {
    steps, early, slept := 0, false, 0;
    var remaining := seconds;
    while remaining > 0
      invariant forall k: nat | k < steps :: !due(k)
      invariant remaining == seconds - slept || (seconds <= 0 && slept == 0 && remaining == seconds)
      invariant remaining > 0 ==> slept == steps * poll
      invariant remaining <= 0 ==> slept == Max(seconds, 0) && steps * poll >= seconds
      invariant steps > 0 ==> (steps - 1) * poll < seconds
    {
      if due(steps) {
        return steps, true, slept;
      }
      var step := Min(remaining, poll);
      slept := slept + step;
      remaining := remaining - step;
      steps := steps + 1;
      assert steps * poll == (steps - 1) * poll + poll;
    }
  }
}
