/** When tasks are polled, how their status moves, and that no open task is forgotten. */
module TaskPolling {
  import opened Options
  import opened TaskLifecycle
  import opened TaskBilling
  import B = Billing

  // ----- the status of a task -----

  /** What a submission makes of a pending task: where it ends, and whether the queue has to try again. */
  lemma SubmissionsEnd(config: Config, w: World, id: string, now: int, reply: SubmitReply)
    requires id in w.tasks && w.tasks[id].status == Pending
    ensures var w' := AfterSubmit(config, w, id, now, reply);
      id in w'.tasks && w'.tasks[id].status ==
        match reply
        case NoAdapter => Failed
        case Limited => Pending
        case Finished(_, _) => Success
        case Accepted(_) => Submitted
        case Rejected(retryable, _) => if retryable then Pending else Failed
    ensures AsksForRetry(reply) <==> AfterSubmit(config, w, id, now, reply).tasks[id].status == Pending
    ensures AsksForRetry(reply) ==> AfterSubmit(config, w, id, now, reply) == w
    ensures match reply
      case Finished(handle, _) => AfterSubmit(config, w, id, now, reply).tasks[id].handle == handle
      case Accepted(handle) => AfterSubmit(config, w, id, now, reply).tasks[id].handle == handle
      case _ => true
  {
  }

  /** A task is stored exactly when its billing is ready, pending and never polled; the books are those of the
      billing. */
  lemma CreationStores(config: Config, w: World, id: string, key: string, policy: Option<B.Policy>,
      estimate: Option<B.Estimate>, now: int)
    ensures var w' := AfterCreate(config, w, id, key, policy, estimate, now);
      var (books, outcome) := B.AfterInit(w.books, id, key, policy, estimate);
      w'.books == books && w'.tasks ==
        if outcome == B.Ready
        then w.tasks[id := Task(key, Pending, 0, "", now, 0, config.defaultInterval, None, config.maxPollCount,
          config.maxDuration)]
        else w.tasks
  {
  }

  /** The moves of the status over one event. */
  predicate MayMove(from: TaskStatus, to: TaskStatus) {
    match from
    case Pending => to in {Submitted, Success, Failed, Cancelled}
    case Submitted => to in {Processing, Success, Failed, Timeout, Cancelled}
    case Processing => to in {Success, Failed, Timeout}
    case _ => false
  }

  /** An event keeps every task; it counts a version exactly when the status moves, and the status moves along. */
  lemma StatusMoves(config: Config, w: World, e: Event, id: string)
    requires id in w.tasks && Proper(w, e)
    ensures var w' := Next(config, w, e);
      id in w'.tasks &&
      var t, t' := w.tasks[id], w'.tasks[id];
      && (t'.status != t.status ==> MayMove(t.status, t'.status))
      && t'.version == t.version + (if t'.status == t.status then 0 else 1)
      && t'.key == t.key && t'.createdAt == t.createdAt
      && t'.maxPollCount == t.maxPollCount && t'.maxDuration == t.maxDuration
  {
    if !Concerns(e, id) { OthersStay(config, w, e, id); }
  }

  /** A cancellation ends the task exactly for its owner and before the provider works on it. */
  lemma CancelsExactly(w: World, id: string, key: string)
    requires id in w.tasks
    ensures var w' := AfterCancel(w, id, key);
      id in w'.tasks && w'.books == w.books &&
      if key == w.tasks[id].key && (w.tasks[id].status == Pending || w.tasks[id].status == Submitted)
      then w'.tasks[id].status == Cancelled else w' == w
  {
  }

  // ----- one poll -----

  /** The task waits for its provider and its time has come. */
  predicate Waits(w: World, id: string, now: int) {
    && id in w.tasks && (w.tasks[id].status == Submitted || w.tasks[id].status == Processing)
    && w.tasks[id].nextPollAt.Some? && w.tasks[id].nextPollAt.value <= now
  }

  /** Before its time nothing happens, nor without an adapter or a provider's id. */
  lemma NotYetPolled(config: Config, w: World, id: string, g: Glance)
    requires id in w.tasks
    requires !Waits(w, id, g.now) || !g.hasAdapter || w.tasks[id].handle == ""
    ensures AfterPoll(config, w, id, g) == w
  {
  }

  /** A poll times the task out exactly when it is one poll too many or comes too late, whatever the provider says. */
  lemma TimesOutExactly(config: Config, w: World, id: string, g: Glance)
    requires Waits(w, id, g.now) && g.hasAdapter && w.tasks[id].handle != ""
    ensures id in AfterPoll(config, w, id, g).tasks
    ensures AfterPoll(config, w, id, g).tasks[id].status == Timeout <==>
      w.tasks[id].pollCount >= w.tasks[id].maxPollCount || g.now > w.tasks[id].createdAt + w.tasks[id].maxDuration
  {
  }

  /** A poll that finds the task within its limits. */
  predicate InTime(w: World, id: string, g: Glance) {
    && Waits(w, id, g.now) && g.hasAdapter && w.tasks[id].handle != ""
    && w.tasks[id].pollCount < w.tasks[id].maxPollCount && g.now <= w.tasks[id].createdAt + w.tasks[id].maxDuration
  }

  /** The wait after this one: a fifth longer, in whole milliseconds, and not over the maximum. */
  function LongerWait(config: Config, wait: int): int {
    var longer := (wait as real * 1.2).Floor;
    if longer <= config.maxInterval then longer else config.maxInterval
  }

  lemma WaitsGrow(config: Config, wait: int)
    ensures NextInterval(config, wait) == LongerWait(config, wait)
  {
    assert wait as real * 1.2 == (wait * 6) as real / 5.0;
    FloorOfFifths(wait * 6);
  }

  lemma FloorOfFifths(n: int)
    ensures (n as real / 5.0).Floor == n / 5
  {
    assert n as real == 5.0 * (n / 5) as real + (n % 5) as real;
  }

  /** What a poll within the limits makes of the task, answer by answer. */
  lemma PollsEnd(config: Config, w: World, id: string, g: Glance)
    requires InTime(w, id, g)
    ensures id in AfterPoll(config, w, id, g).tasks
    ensures var t, t' := w.tasks[id], AfterPoll(config, w, id, g).tasks[id];
      match g.reply
      case RateLimited => t' == t.(nextPollAt := Some(g.now + 1000))
      case Busy => t' == t.(nextPollAt := Some(g.now + 500))
      case QueryError(retryable) =>
        var wait := t.pollInterval + t.pollInterval;
        if !retryable then t'.status == Failed
        else t' == t.(nextPollAt := Some(g.now + if wait <= config.maxInterval then wait else config.maxInterval))
      case Succeeded(_) => t' == t || t'.status == Success
      case ProviderFailed => t'.status == Failed
      case StillProcessing =>
        var wait := LongerWait(config, t.pollInterval);
        t'.status == Processing && t'.pollCount == t.pollCount + 1 && t'.pollInterval == wait &&
        t'.nextPollAt == Some(g.now + wait)
      case OtherStatus =>
        var wait := LongerWait(config, t.pollInterval);
        t' == t.(pollCount := t.pollCount + 1, pollInterval := wait, nextPollAt := Some(g.now + wait))
  {
    WaitsGrow(config, w.tasks[id].pollInterval);
  }

  // ----- over whole runs -----

  /** A task that waits for its provider has a time for its next poll; one that waits for the queue was never
      polled. */
  ghost predicate TaskIsScheduled(config: Config, t: Task) {
    && (t.status == Submitted || t.status == Processing ==> t.nextPollAt.Some?)
    && (t.status == Pending ==> t.pollCount == 0)
    && t.maxPollCount == config.maxPollCount && t.maxDuration == config.maxDuration
    && (config.defaultInterval >= 1 && config.maxInterval >= 1 ==> t.pollInterval >= 1)
  }

  ghost predicate Scheduled(config: Config, w: World) {
    forall id :: id in w.tasks ==> TaskIsScheduled(config, w.tasks[id])
  }

  lemma PolledIsScheduled(config: Config, w: World, id: string, g: Glance)
    requires id in w.tasks && TaskIsScheduled(config, w.tasks[id])
    ensures id in AfterPoll(config, w, id, g).tasks && TaskIsScheduled(config, AfterPoll(config, w, id, g).tasks[id])
  {
    if InTime(w, id, g) {
      PollsEnd(config, w, id, g);
      if config.maxInterval >= 1 && config.defaultInterval >= 1 {
        LongerWaitIsPositive(config, w.tasks[id].pollInterval);
      }
    }
  }

  lemma StaysScheduled(config: Config, w: World, e: Event)
    requires Scheduled(config, w)
    ensures Scheduled(config, Next(config, w, e))
  {
    var w' := Next(config, w, e);
    forall id | id in w'.tasks ensures TaskIsScheduled(config, w'.tasks[id]) {
      if !Concerns(e, id) {
        OthersStay(config, w, e, id);
      } else if e.Poll? && id in w.tasks {
        PolledIsScheduled(config, w, id, e.glance);
      }
    }
  }

  lemma {:induction false} RunsAreScheduled(config: Config, events: seq<Event>)
    ensures Scheduled(config, Execute(config, NOTHING_YET, events))
    decreases |events|
  {
    if events == [] {
    } else {
      RunsAreScheduled(config, events[..|events| - 1]);
      StaysScheduled(config, Execute(config, NOTHING_YET, events[..|events| - 1]), events[|events| - 1]);
    }
  }

  /** In every reachable world each task that waits for its provider will be polled from some time on. */
  lemma NoTaskIsForgotten(config: Config, w: World, id: string)
    requires Reachable(config, w) && id in w.tasks
    requires w.tasks[id].status == Submitted || w.tasks[id].status == Processing
    ensures w.tasks[id].nextPollAt.Some?
    ensures forall now :: Waits(w, id, now) <==> now >= w.tasks[id].nextPollAt.value
  {
    var events :| ProperRun(config, NOTHING_YET, events) && w == Execute(config, NOTHING_YET, events);
    RunsAreScheduled(config, events);
  }

  /** An accepted task is due exactly from one default interval later on, with all its polls still to come. */
  lemma AcceptedIsDueAfterTheInterval(config: Config, w: World, id: string, at: int, handle: string)
    requires Reachable(config, w) && id in w.tasks && w.tasks[id].status == Pending
    ensures var w' := AfterSubmit(config, w, id, at, Accepted(handle));
      && id in w'.tasks && w'.tasks[id].status == Submitted && w'.tasks[id].pollCount == 0
      && forall now :: Waits(w', id, now) <==> now >= at + config.defaultInterval
  {
    var events :| ProperRun(config, NOTHING_YET, events) && w == Execute(config, NOTHING_YET, events);
    RunsAreScheduled(config, events);
  }

  /** A poll that leaves the task open sets a later time, except when the provider has reported success and the
      settlement did not go through, or when there is no adapter or no provider's id: then the task stays as it is. */
  lemma OpenPollsComeLater(config: Config, w: World, id: string, g: Glance)
    requires Reachable(config, w) && config.defaultInterval >= 1 && config.maxInterval >= 1
    requires Waits(w, id, g.now)
    ensures var w' := AfterPoll(config, w, id, g);
      id in w'.tasks && (w'.tasks[id].status == Submitted || w'.tasks[id].status == Processing ==>
        && w'.tasks[id].nextPollAt.Some?
        && (w'.tasks[id].nextPollAt.value > g.now <==>
            g.hasAdapter && w.tasks[id].handle != "" && !g.reply.Succeeded?)
        && (w'.tasks[id].nextPollAt.value <= g.now ==> w'.tasks[id] == w.tasks[id]))
  {
    var events :| ProperRun(config, NOTHING_YET, events) && w == Execute(config, NOTHING_YET, events);
    RunsAreScheduled(config, events);
    if !g.hasAdapter || w.tasks[id].handle == "" {
      NotYetPolled(config, w, id, g);
    } else if InTime(w, id, g) {
      PollInTimeComesLater(config, w, id, g);
    } else {
      TimesOutExactly(config, w, id, g);
    }
  }

  lemma PollInTimeComesLater(config: Config, w: World, id: string, g: Glance)
    requires InTime(w, id, g) && config.maxInterval >= 1 && w.tasks[id].pollInterval >= 1
    ensures id in AfterPoll(config, w, id, g).tasks
    ensures var t' := AfterPoll(config, w, id, g).tasks[id];
      t'.status == Submitted || t'.status == Processing ==>
        if g.reply.Succeeded? then t' == w.tasks[id] else t'.nextPollAt.Some? && t'.nextPollAt.value > g.now
  {
    PollsEnd(config, w, id, g);
    LongerWaitIsPositive(config, w.tasks[id].pollInterval);
  }

  lemma LongerWaitIsPositive(config: Config, wait: int)
    requires config.maxInterval >= 1 && wait >= 1
    ensures LongerWait(config, wait) >= 1
  {
    assert wait as real * 1.2 >= 1.0;
  }

  function Polls(id: string, glances: seq<Glance>): seq<Event> {
    seq(|glances|, i requires 0 <= i < |glances| => Poll(id, glances[i]))
  }

  /** Polls at times when the task is due and not too old, each finding the provider still at work. */
  ghost predicate StillAtWork(config: Config, w: World, id: string, glances: seq<Glance>) {
    glances == [] ||
    (var before, g := glances[..|glances| - 1], glances[|glances| - 1];
     var v := Execute(config, w, Polls(id, before));
     && StillAtWork(config, w, id, before) && Waits(v, id, g.now) && g.hasAdapter && g.reply == StillProcessing
     && g.now <= v.tasks[id].createdAt + v.tasks[id].maxDuration)
  }

  lemma OneMorePoll(config: Config, w: World, id: string, glances: seq<Glance>)
    requires glances != []
    ensures Execute(config, w, Polls(id, glances)) ==
      AfterPoll(config, Execute(config, w, Polls(id, glances[..|glances| - 1])), id, glances[|glances| - 1])
  {
    assert Polls(id, glances)[..|glances| - 1] == Polls(id, glances[..|glances| - 1]);
  }

  /** Each of these polls is counted, and the next one is due a wait later. */
  lemma {:induction false} PollsAreCounted(config: Config, w: World, id: string, glances: seq<Glance>)
    requires id in w.tasks && (w.tasks[id].status == Submitted || w.tasks[id].status == Processing)
    requires w.tasks[id].handle != "" && StillAtWork(config, w, id, glances)
    requires w.tasks[id].pollCount + |glances| <= w.tasks[id].maxPollCount
    ensures var end := Execute(config, w, Polls(id, glances));
      id in end.tasks &&
      var t := end.tasks[id];
      && (glances != [] ==> t.status == Processing)
      && (glances != [] ==> t.nextPollAt == Some(glances[|glances| - 1].now + t.pollInterval))
      && t == w.tasks[id].(status := t.status, version := t.version, nextPollAt := t.nextPollAt,
        pollInterval := t.pollInterval, pollCount := w.tasks[id].pollCount + |glances|)
    decreases |glances|
  {
    if glances == [] {
    } else {
      var before := glances[..|glances| - 1];
      PollsAreCounted(config, w, id, before);
      OneMorePoll(config, w, id, glances);
    }
  }

  /** A task whose provider never gets done: after an accepted submission it is PROCESSING through as many polls as the
      configuration allows, and the next one times it out. */
  lemma GivesUpAfterTheLastPoll(config: Config, w: World, id: string, at: int, handle: string, glances: seq<Glance>,
      last: Glance)
    requires Reachable(config, w) && id in w.tasks && w.tasks[id].status == Pending && handle != ""
    requires 0 < |glances| <= config.maxPollCount
    requires StillAtWork(config, AfterSubmit(config, w, id, at, Accepted(handle)), id, glances)
    requires last.hasAdapter
    ensures var end := Execute(config, AfterSubmit(config, w, id, at, Accepted(handle)), Polls(id, glances));
      && id in end.tasks && end.tasks[id].status == Processing && end.tasks[id].pollCount == |glances|
      && (|glances| == config.maxPollCount && Waits(end, id, last.now) ==>
          id in AfterPoll(config, end, id, last).tasks &&
          AfterPoll(config, end, id, last).tasks[id].status == Timeout)
  {
    var accepted := AfterSubmit(config, w, id, at, Accepted(handle));
    var events :| ProperRun(config, NOTHING_YET, events) && w == Execute(config, NOTHING_YET, events);
    RunsAreScheduled(config, events);
    PollsAreCounted(config, accepted, id, glances);
  }
}
