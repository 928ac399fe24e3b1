/** What every run of a circuit breaker keeps: first with stale readers racing, then with fresh reads and a clock. */
module BreakerRuns {
  import opened Options
  import opened CircuitBreaker

  // ----- races: every worker acts on whatever it has read, however stale -----

  /** One conditional write of some worker. seen need not be anything the store ever held. */
  datatype Move =
    | Evaluating(seen: Reading, metrics: Metrics)
    | Recording(seen: Reading, success: bool)

  /** madeAt is when the worker worked out what to write, at is when the script ran. */
  datatype Race = Race(move: Move, config: Config, madeAt: int, at: int)

  function AttemptOf(r: Race): Option<Attempt> {
    match r.move
    case Evaluating(seen, metrics) => EvaluateAttempt(r.config, seen, metrics, r.madeAt)
    case Recording(seen, success) => Some(RecordAttempt(r.config, seen, success, r.madeAt))
  }

  function AfterRace(entry: Option<Stored>, r: Race): Option<Stored> {
    AfterAttempt(entry, AttemptOf(r), Ttl(r.config), r.at)
  }

  predicate Legal(from: CircuitState, to: CircuitState) {
    || from == to || (from == Closed && to == Open) || (from == Open && to == HalfOpen)
    || (from == HalfOpen && to != HalfOpen)
  }

  /** An attempt never skips a state: it expects one state and writes a legal successor of it. */
  lemma AttemptsAreLegal(r: Race)
    ensures AttemptOf(r).Some? ==> Legal(AttemptOf(r).value.expected, AttemptOf(r).value.value.state)
  {
  }

  /** The keys stored over a run of racing writes: entry 0 is the start, entry i + 1 follows race i. */
  ghost predicate IsRaceRun(entries: seq<Option<Stored>>, races: seq<Race>) {
    && |entries| == |races| + 1
    && forall i :: 0 <= i < |races| ==> entries[i + 1] == AfterRace(entries[i], races[i])
  }

  /** The state that race i leaves behind. */
  function StateAfter(entries: seq<Option<Stored>>, races: seq<Race>, i: nat): CircuitState
    requires |entries| == |races| + 1 && i < |races|
  {
    StateOf(Live(entries[i + 1], races[i].at))
  }

  /** The key has run out since race i. */
  predicate ExpiresBefore(entries: seq<Option<Stored>>, races: seq<Race>, i: nat)
    requires |entries| == |races| + 1 && i < |races|
  {
    0 < i && entries[i].Some? && races[i - 1].at < entries[i].value.expiresAt <= races[i].at
  }

  predicate PositiveTtls(races: seq<Race>) {
    forall i :: 0 <= i < |races| ==> Ttl(races[i].config) > 0
  }

  /** Between two writes the state moves along an edge of the machine, unless the key expires between them. */
  lemma StatesMoveAlongEdges(entries: seq<Option<Stored>>, races: seq<Race>, i: nat)
    requires IsRaceRun(entries, races) && PositiveTtls(races) && i + 1 < |races| && races[i].at <= races[i + 1].at
    requires !ExpiresBefore(entries, races, i + 1)
    ensures Legal(StateAfter(entries, races, i), StateAfter(entries, races, i + 1))
  {
    assert entries[i + 2] == AfterRace(entries[i + 1], races[i + 1]);
  }

  /** However stale the readers are, an open breaker closes only by way of HALF_OPEN or by its key expiring. */
  lemma {:induction false} OpenClosesThroughHalfOpen(entries: seq<Option<Stored>>, races: seq<Race>, i: nat, j: nat)
    requires IsRaceRun(entries, races) && PositiveTtls(races) && i <= j < |races|
    requires forall k, l :: 0 <= k < l < |races| ==> races[k].at <= races[l].at
    requires StateAfter(entries, races, i) == Open && StateAfter(entries, races, j) == Closed
    requires forall k :: i < k <= j ==> !ExpiresBefore(entries, races, k)
    ensures exists k :: i < k < j && StateAfter(entries, races, k) == HalfOpen
    decreases j - i
  {
    StatesMoveAlongEdges(entries, races, i);
    if StateAfter(entries, races, i + 1) == Open {
      OpenClosesThroughHalfOpen(entries, races, i + 1, j);
    } else {
      assert StateAfter(entries, races, i + 1) == HalfOpen;
    }
  }

  // ----- the opening time among stale workers -----

  /** The worker acts on a copy of another opening: it records a result on it, or finds its cooldown over. */
  predicate Disturbs(r: Race, openedAt: Option<int>) {
    StateOf(r.move.seen) == Open &&
    var copy := r.move.seen.value;
    match r.move
    case Recording(_, _) => copy.openedAt != openedAt
    case Evaluating(_, _) =>
      copy.manualOverride.None? && copy.openedAt.Some? && r.madeAt - copy.openedAt.value >= r.config.cooldown
  }

  /** An open breaker stays open with its opening time exactly when the worker does not disturb it. Otherwise a
      recording puts back the opening time of the copy, and an evaluation makes the breaker half-open. */
  lemma OpeningStaysExactlyWhenUndisturbed(entry: Option<Stored>, r: Race)
    requires StateOf(Live(entry, r.at)) == Open && Ttl(r.config) > 0
    ensures var later := Live(AfterRace(entry, r), r.at);
      StateOf(later) == Open && later.value.openedAt == Live(entry, r.at).value.openedAt <==>
      !Disturbs(r, Live(entry, r.at).value.openedAt)
    ensures Disturbs(r, Live(entry, r.at).value.openedAt) ==>
      var later := Live(AfterRace(entry, r), r.at);
      if r.move.Recording? then StateOf(later) == Open && later.value.openedAt == r.move.seen.value.openedAt
      else StateOf(later) == HalfOpen
  {
  }

  /** An open breaker whose key outlasts the cooldown. */
  ghost predicate OpenSince(entry: Option<Stored>, openedAt: int, cooldown: int) {
    && entry.Some? && entry.value.value.state == Open && entry.value.value.openedAt == Some(openedAt)
    && openedAt + cooldown <= entry.value.expiresAt
  }

  /** The scripts from race i up to race j run while the breaker cools down, with plans made beforehand. */
  ghost predicate WhileCooling(races: seq<Race>, i: nat, j: nat, openedAt: int, cooldown: int) {
    j <= |races| && forall k :: i <= k < j ==>
      races[k].config.cooldown == cooldown && races[k].madeAt <= races[k].at
      && openedAt <= races[k].at < openedAt + cooldown
  }

  predicate IsCopyOf(seen: Reading, openedAt: int) {
    seen.Some? && seen.value.openedAt == Some(openedAt)
  }

  /** However stale the workers are, the breaker stays open with its opening time through the whole cooldown exactly
      when none of them disturbs it. A copy of this opening never does. */
  lemma {:induction false} StaysOpenExactlyWhileUndisturbed(entries: seq<Option<Stored>>, races: seq<Race>,
      i: nat, j: nat, openedAt: int, cooldown: int)
    requires IsRaceRun(entries, races) && i <= j && WhileCooling(races, i, j, openedAt, cooldown)
    requires OpenSince(entries[i], openedAt, cooldown)
    ensures (forall k :: i <= k <= j ==> OpenSince(entries[k], openedAt, cooldown)) <==>
      (forall k :: i <= k < j ==> !Disturbs(races[k], Some(openedAt)))
    ensures forall k :: i <= k < j && IsCopyOf(races[k].move.seen, openedAt) ==> !Disturbs(races[k], Some(openedAt))
    decreases j
  {
    if i == j {
    } else {
      StaysOpenExactlyWhileUndisturbed(entries, races, i, j - 1, openedAt, cooldown);
      if OpenSince(entries[j - 1], openedAt, cooldown) {
        OneRaceWhileCooling(entries[j - 1], races[j - 1], openedAt, cooldown);
        assert entries[j] == AfterRace(entries[j - 1], races[j - 1]);
      }
    }
  }

  lemma OneRaceWhileCooling(entry: Option<Stored>, r: Race, openedAt: int, cooldown: int)
    requires OpenSince(entry, openedAt, cooldown) && WhileCooling([r], 0, 1, openedAt, cooldown)
    ensures OpenSince(AfterRace(entry, r), openedAt, cooldown) <==> !Disturbs(r, Some(openedAt))
  {
    assert [r][0] == r;
    OpeningStaysExactlyWhenUndisturbed(entry, r);
  }

  /** Then no reader of the stored state is admitted before the cooldown is over. */
  lemma NotAdmittedWhileUndisturbed(entries: seq<Option<Stored>>, races: seq<Race>, i: nat, j: nat, openedAt: int,
      config: Config, now: int)
    requires IsRaceRun(entries, races) && i <= j && WhileCooling(races, i, j, openedAt, config.cooldown)
    requires OpenSince(entries[i], openedAt, config.cooldown)
    requires forall k :: i <= k < j ==> !Disturbs(races[k], Some(openedAt))
    requires now < openedAt + config.cooldown
    ensures !Allows(config, Live(entries[j], now))
  {
    StaysOpenExactlyWhileUndisturbed(entries, races, i, j, openedAt, config.cooldown);
    assert OpenSince(entries[j], openedAt, config.cooldown);
  }

  /** Each worker acts on what the store held when it made its plan. */
  ghost predicate ActOnStoredCopies(entries: seq<Option<Stored>>, races: seq<Race>) {
    |entries| == |races| + 1 && forall k :: 0 <= k < |races| ==> ActsOnStoredCopy(entries, races, k)
  }

  ghost predicate ActsOnStoredCopy(entries: seq<Option<Stored>>, races: seq<Race>, k: nat)
    requires k < |races| < |entries|
  {
    exists m :: 0 <= m <= k && races[k].move.seen == Live(entries[m], races[k].madeAt)
  }

  /** A cooldown of 50. The breaker opens at 0 and is half-open from 50; a probe fails, and it opens again at 60. An
      evaluation that read the first opening at 50 is carried out at 61, and requests are admitted 49 too early. No
      result is recorded on an open copy in this run. */
  lemma AStaleEvaluationAdmitsEarly()
    returns (config: Config, entries: seq<Option<Stored>>, races: seq<Race>)
    ensures IsRaceRun(entries, races) && |races| == 4 && ActOnStoredCopies(entries, races)
    ensures forall k :: 0 <= k < 4 ==>
      races[k].config == config && races[k].madeAt <= races[k].at && races[k].at == [0, 50, 60, 61][k]
    ensures forall k :: 0 <= k < 4 && races[k].move.Recording? ==> StateOf(races[k].move.seen) != Open
    ensures OpenSince(entries[3], 60, config.cooldown) && 61 < 60 + config.cooldown
    ensures Allows(config, Live(entries[4], 61))
  {
    config := Config(50, 1, 1, 50.0, 5);
    var failing := Metrics(10, 1.0);
    var first := Race(Evaluating(None, failing), config, 0, 0);
    var open := AfterRace(None, first);
    var second := Race(Evaluating(Live(open, 50), failing), config, 50, 50);
    var probing := AfterRace(open, second);
    var third := Race(Recording(Live(probing, 60), false), config, 60, 60);
    var again := AfterRace(probing, third);
    var late := Race(Evaluating(Live(open, 50), failing), config, 50, 61);
    entries, races := [None, open, probing, again, AfterRace(again, late)], [first, second, third, late];
    assert races[0].move.seen == Live(entries[0], 0) && races[1].move.seen == Live(entries[1], 50);
    assert races[2].move.seen == Live(entries[2], 60) && races[3].move.seen == Live(entries[1], 50);
  }

  // ----- one fixed configuration, reads that see what is stored -----

  datatype Event = Evaluation(metrics: Metrics) | Result(success: bool)

  function FreshStep(config: Config, entry: Option<Stored>, e: Event, now: int): Option<Stored> {
    var seen := Live(entry, now);
    var attempt := match e
      case Evaluation(metrics) => EvaluateAttempt(config, seen, metrics, now)
      case Result(success) => Some(RecordAttempt(config, seen, success, now));
    AfterAttempt(entry, attempt, Ttl(config), now)
  }

  /** An event, its time, and the key afterwards. */
  datatype Moment = Moment(event: Event, at: int, after: Option<Stored>)

  function Latest(run: seq<Moment>): Option<Stored> {
    if run == [] then None else run[|run| - 1].after
  }

  /** Starts from a missing key; times do not go back. */
  ghost predicate IsFreshRun(config: Config, run: seq<Moment>) {
    run == [] ||
    (var last := run[|run| - 1];
     var before := run[..|run| - 1];
     && IsFreshRun(config, before)
     && (before != [] ==> before[|before| - 1].at <= last.at)
     && last.after == FreshStep(config, Latest(before), last.event, last.at))
  }

  predicate LastUpTo(run: seq<Moment>, now: int) {
    run == [] || run[|run| - 1].at <= now
  }

  /** A stored OPEN knows when it opened, and its key outlasts the cooldown by the margin. */
  ghost predicate OutlastsCooldown(config: Config, entry: Option<Stored>, now: int) {
    entry.Some? && entry.value.value.state == Open ==>
      && entry.value.value.openedAt.Some? && entry.value.value.openedAt.value <= now
      && entry.value.value.openedAt.value + Ttl(config) <= entry.value.expiresAt
  }

  ghost predicate NoOverride(entry: Option<Stored>) {
    entry.Some? ==> entry.value.value.manualOverride.None?
  }

  /** How many results in a row have been successes since the breaker last became half-open. */
  ghost function ProbeStreak(run: seq<Moment>): nat {
    if run == [] then 0
    else
      var before := run[..|run| - 1];
      var last := run[|run| - 1];
      if StateOf(Live(Latest(before), last.at)) != HalfOpen then 0
      else
        match last.event
        case Evaluation(_) => ProbeStreak(before)
        case Result(success) => if success then ProbeStreak(before) + 1 else 0
  }

  ghost predicate CountsProbes(run: seq<Moment>, now: int) {
    var seen := Live(Latest(run), now);
    StateOf(seen) == HalfOpen ==> seen.value.probeSuccesses == ProbeStreak(run)
  }

  lemma {:induction false} FreshRunsKeep(config: Config, run: seq<Moment>, now: int)
    requires IsFreshRun(config, run) && LastUpTo(run, now)
    ensures OutlastsCooldown(config, Latest(run), now) && NoOverride(Latest(run))
    decreases |run|
  {
    if run == [] {
    } else {
      var before, last := run[..|run| - 1], run[|run| - 1];
      FreshRunsKeep(config, before, last.at);
    }
  }

  /** run grew out of start. */
  ghost predicate Continues(start: seq<Moment>, run: seq<Moment>) {
    |start| <= |run| && run[..|start|] == start
  }

  /** An open provider is not admitted before openedAt + cooldown, whatever is recorded or evaluated meanwhile. */
  lemma {:induction false} NotAdmittedWhileCooling(config: Config, start: seq<Moment>, run: seq<Moment>, now: int)
    requires IsFreshRun(config, run) && Continues(start, run) && LastUpTo(run, now)
    requires Latest(start).Some? && Latest(start).value.value.state == Open
    requires Latest(start).value.value.openedAt.Some?
      && now < Latest(start).value.value.openedAt.value + config.cooldown
    ensures Latest(run).Some? && Latest(run).value.value.state == Open
    ensures Latest(run).value.value.openedAt == Latest(start).value.value.openedAt
    ensures !Allows(config, Live(Latest(run), now))
    decreases |run|
  {
    FreshRunsKeep(config, run, now);
    if |start| < |run| {
      var before, last := run[..|run| - 1], run[|run| - 1];
      assert before[..|start|] == start;
      NotAdmittedWhileCooling(config, start, before, last.at);
      FreshRunsKeep(config, before, last.at);
    } else {
      assert run == start;
    }
  }

  /** A live half-open key holds the number of probes that have succeeded in a row. */
  lemma {:induction false} ProbesAreCounted(config: Config, run: seq<Moment>, now: int)
    requires IsFreshRun(config, run) && LastUpTo(run, now)
    ensures CountsProbes(run, now)
    decreases |run|
  {
    if run == [] {
    } else {
      ProbesAreCounted(config, run[..|run| - 1], run[|run| - 1].at);
    }
  }

  /** The last moment of the run wrote CLOSED over a half-open breaker. */
  predicate ClosesAfterProbing(run: seq<Moment>) {
    run != [] &&
    var last := run[|run| - 1];
    && StateOf(Live(Latest(run[..|run| - 1]), last.at)) == HalfOpen
    && last.after.Some? && last.after.value.value.state == Closed
  }

  /** A half-open breaker closes exactly at the success that completes the required row of successes. */
  lemma ClosesExactlyAfterEnoughProbes(config: Config, run: seq<Moment>)
    requires IsFreshRun(config, run) && run != []
    requires StateOf(Live(Latest(run[..|run| - 1]), run[|run| - 1].at)) == HalfOpen
    ensures ClosesAfterProbing(run) <==>
      run[|run| - 1].event == Result(true) && ProbeStreak(run) >= config.probeRequestCount
    ensures ClosesAfterProbing(run) ==> ProbeStreak(run) >= 1
  {
    ProbesAreCounted(config, run[..|run| - 1], run[|run| - 1].at);
  }
}
