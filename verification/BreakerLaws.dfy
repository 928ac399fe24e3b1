/** When a breaker opens, half-opens, closes and admits, told from the events of a run. */
module BreakerLaws {
  import opened Options
  import opened CircuitBreaker
  import opened BreakerRuns

  /** Nothing is stored, or what is stored has run out. */
  predicate Gone(entry: Option<Stored>, now: int) {
    entry == None || entry.value.expiresAt <= now
  }

  predicate Shows(entry: Option<Stored>, now: int, state: CircuitState) {
    !Gone(entry, now) && entry.value.value.state == state
  }

  /** CLOSED, also for want of a key. */
  predicate CountsAsClosed(entry: Option<Stored>, now: int) {
    Gone(entry, now) || entry.value.value.state == Closed
  }

  /** How many results in a row have been failures, since the last success and since the key was last gone. */
  ghost function FailureStreak(run: seq<Moment>): nat {
    if run == [] then 0
    else
      var before, last := run[..|run| - 1], run[|run| - 1];
      var earlier := if Gone(Latest(before), last.at) then 0 else FailureStreak(before);
      match last.event
      case Evaluation(_) => earlier
      case Result(success) => if success then 0 else earlier + 1
  }

  /** A live key holds the number of failures in a row. */
  lemma {:induction false} FailuresAreCounted(config: Config, run: seq<Moment>, now: int)
    requires IsFreshRun(config, run) && LastUpTo(run, now) && !Gone(Latest(run), now)
    ensures Latest(run).value.value.consecutiveFailures == FailureStreak(run)
    decreases |run|
  {
    var before, last := run[..|run| - 1], run[|run| - 1];
    if Gone(Latest(before), last.at) {
    } else {
      FailuresAreCounted(config, before, last.at);
    }
  }

  /** An evaluation of a breaker that counts as closed opens it exactly when more failures than the threshold have
      come in a row, or when there are enough samples and the error rate, in per cent, is over its threshold.
      Otherwise it writes nothing. */
  lemma OpensExactly(config: Config, run: seq<Moment>, metrics: Metrics)
    requires IsFreshRun(config, run) && run != [] && run[|run| - 1].event == Evaluation(metrics)
    requires CountsAsClosed(Latest(run[..|run| - 1]), run[|run| - 1].at)
    ensures var before, last := Latest(run[..|run| - 1]), run[|run| - 1];
      var streak := FailureStreak(run);
      last.after ==
        if streak > config.failureThreshold
          || (metrics.sampleCount >= config.minSampleCount && metrics.errorRate * 100.0 > config.errorRateThreshold)
        then Some(Stored(Breaker(Open, Some(last.at), last.at, streak, 0, None), last.at + config.cooldown + 60000))
        else before
  {
    var before, last := run[..|run| - 1], run[|run| - 1];
    FreshRunsKeep(config, before, last.at);
    if !Gone(Latest(before), last.at) { FailuresAreCounted(config, before, last.at); }
  }

  /** The last n moments are failures, each but the first on a live key. */
  ghost predicate FailsInARow(run: seq<Moment>, n: nat) {
    && n <= |run|
    && forall k :: |run| - n <= k < |run| ==>
      run[k].event == Result(false) && (k > |run| - n ==> !Gone(run[k - 1].after, run[k].at))
  }

  lemma {:induction false} RowsAreStreaks(run: seq<Moment>, n: nat)
    requires FailsInARow(run, n)
    ensures FailureStreak(run) >= n
    decreases n
  {
    if n > 1 {
      var before := run[..|run| - 1];
      assert run[|run| - 2] == before[|before| - 1];
      RowsAreStreaks(before, n - 1);
    }
  }

  /** So one failure more than the threshold, in a row and on a live key, followed by an evaluation, opens a closed
      breaker whatever the metrics say. */
  lemma FailuresInARowOpen(config: Config, run: seq<Moment>, n: nat, metrics: Metrics)
    requires IsFreshRun(config, run) && run != [] && run[|run| - 1].event == Evaluation(metrics)
    requires FailsInARow(run[..|run| - 1], n) && n > config.failureThreshold && n > 0
    requires Shows(Latest(run[..|run| - 1]), run[|run| - 1].at, Closed)
    ensures Latest(run).Some? && Latest(run).value.value.state == Open
    ensures Latest(run).value.value.openedAt == Some(run[|run| - 1].at)
  {
    RowsAreStreaks(run[..|run| - 1], n);
    OpensExactly(config, run, metrics);
  }

  /** An evaluation of an open breaker makes it half-open exactly when it has been open for the cooldown, and leaves a
      half-open one alone. */
  lemma HalfOpensExactly(config: Config, run: seq<Moment>, metrics: Metrics)
    requires IsFreshRun(config, run) && run != [] && run[|run| - 1].event == Evaluation(metrics)
    requires !CountsAsClosed(Latest(run[..|run| - 1]), run[|run| - 1].at)
    ensures var before, last := Latest(run[..|run| - 1]), run[|run| - 1];
      var b := before.value.value;
      if b.state == HalfOpen then last.after == before
      else
        b.openedAt.Some? && last.after ==
        if b.openedAt.value + config.cooldown <= last.at
        then Some(Stored(Breaker(HalfOpen, b.openedAt, last.at, FailureStreak(run), 0, None),
          last.at + config.cooldown + 60000))
        else before
  {
    var before, last := run[..|run| - 1], run[|run| - 1];
    FreshRunsKeep(config, before, last.at);
    FailuresAreCounted(config, before, last.at);
  }

  /** What a result makes of a breaker: it renews the key and counts the streaks; a closed or open breaker keeps its
      state; a half-open one opens again at a failure and closes at the last success that it needs. */
  lemma ResultsMove(config: Config, run: seq<Moment>, success: bool)
    requires IsFreshRun(config, run) && run != [] && run[|run| - 1].event == Result(success)
    ensures var before, last := Latest(run[..|run| - 1]), run[|run| - 1];
      last.after.Some? && last.after.value.expiresAt == last.at + config.cooldown + 60000 &&
      var b := last.after.value.value;
      b.consecutiveFailures == FailureStreak(run) && b.manualOverride == None &&
      if Gone(before, last.at) then b == Breaker(Closed, None, last.at, b.consecutiveFailures, 0, None)
      else if before.value.value.state == Closed then b.state == Closed
      else if before.value.value.state == Open then b.state == Open && b.openedAt == before.value.value.openedAt
      else if !success then b.state == Open && b.openedAt == Some(last.at)
      else if ProbeStreak(run) >= config.probeRequestCount then b.state == Closed && b.openedAt == None
      else b.state == HalfOpen && b.probeSuccesses == ProbeStreak(run)
  {
    var before, last := run[..|run| - 1], run[|run| - 1];
    FreshRunsKeep(config, before, last.at);
    ProbesAreCounted(config, before, last.at);
    if !Gone(Latest(before), last.at) { FailuresAreCounted(config, before, last.at); }
  }

  /** A request is admitted without a live key, by a closed breaker, and by a half-open one while fewer probes have
      succeeded in a row than it needs. */
  lemma AdmitsExactly(config: Config, run: seq<Moment>, now: int)
    requires IsFreshRun(config, run) && LastUpTo(run, now)
    ensures Allows(config, Live(Latest(run), now)) <==>
      CountsAsClosed(Latest(run), now) ||
      (Shows(Latest(run), now, HalfOpen) && ProbeStreak(run) < config.probeRequestCount)
  {
    ProbesAreCounted(config, run, now);
  }

  // ----- manual overrides -----

  /** A forced breaker is in the state asked for; forcing it closed forgets the failures. */
  lemma ForcedState(config: Config, entry: Option<Stored>, to: CircuitState, operator: string, now: int)
    ensures var forced := AfterOverride(config, Live(entry, now), to, operator, now);
      var failures := if Gone(entry, now) || to == Closed then 0 else entry.value.value.consecutiveFailures;
      forced == Stored(
        Breaker(to, if to == Open then Some(now) else None, now, failures, 0, Some(Override(to, operator, now))),
        now + config.cooldown + 60000)
  {
  }

  /** A forced breaker stays open, or closed, whatever is evaluated or recorded while its key lives. */
  lemma ForcedStays(config: Config, entry: Option<Stored>, e: Event, now: int)
    requires !Gone(entry, now) && entry.value.value.manualOverride.Some? && entry.value.value.state != HalfOpen
    ensures var later := FreshStep(config, entry, e, now);
      && later.Some? && later.value.value.state == entry.value.value.state
      && later.value.value.openedAt == entry.value.value.openedAt
      && later.value.value.manualOverride == entry.value.value.manualOverride
      && (e.Evaluation? ==> later == entry)
  {
  }
}
