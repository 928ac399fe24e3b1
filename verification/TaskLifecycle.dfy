/** The life of a task from creation to a terminal status, and the money that moves on the way. */
module TaskLifecycle {
  import opened Options
  import B = Billing

  datatype TaskStatus = Pending | Submitted | Processing | Success | Failed | Timeout | Cancelled

  /** handle is the provider's id for the task; "" counts as missing. Times and intervals are in milliseconds. */
  datatype Task = Task(
    key: string, status: TaskStatus, version: nat, handle: string, createdAt: int,
    pollCount: nat, pollInterval: int, nextPollAt: Option<int>, maxPollCount: nat, maxDuration: int)

  type Tasks = map<string, Task>

  datatype World = World(tasks: Tasks, books: B.Books)

  datatype Config = Config(defaultInterval: int, maxInterval: int, maxPollCount: nat, maxDuration: int)

  /** How a submission to a provider ends. usage is None when the usage cannot be worked out. */
  datatype SubmitReply =
    | NoAdapter
    | Limited
    | Finished(handle: string, usage: Option<real>)
    | Accepted(handle: string)
    | Rejected(retryable: bool, outages: nat)

  /** How a query to a provider ends. */
  datatype PollReply =
    | RateLimited
    | Busy
    | QueryError(retryable: bool)
    | Succeeded(usage: Option<real>)
    | ProviderFailed
    | StillProcessing
    | OtherStatus

  /** One look at a due task; hasAdapter and outages are what the surroundings do to it. */
  datatype Glance = Glance(now: int, hasAdapter: bool, outages: nat, reply: PollReply)

  const PENDING: set<TaskStatus> := {Pending}

  const POLLABLE: set<TaskStatus> := {Submitted, Processing}

  const CANCELLABLE: set<TaskStatus> := {Pending, Submitted}

  predicate AsksForRetry(reply: SubmitReply) {
    reply.Limited? || (reply.Rejected? && reply.retryable)
  }

  predicate IsTerminal(status: TaskStatus) {
    status == Success || status == Failed || status == Timeout || status == Cancelled
  }

  // ----- what each step does -----

  predicate HasStatus(tasks: Tasks, id: string, from: set<TaskStatus>) {
    id in tasks && tasks[id].status in from
  }

  function AfterUpdateStatus(tasks: Tasks, id: string, from: set<TaskStatus>, to: TaskStatus): Tasks {
    if HasStatus(tasks, id, from) then
      tasks[id := tasks[id].(status := to, version := tasks[id].version + 1)]
    else tasks
  }

  function AfterDefer(tasks: Tasks, id: string, until: int): Tasks {
    if id in tasks then tasks[id := tasks[id].(nextPollAt := Some(until))] else tasks
  }

  function AfterIncrement(tasks: Tasks, id: string, next: int, interval: int): Tasks {
    if id in tasks then
      var t := tasks[id];
      tasks[id := t.(pollCount := t.pollCount + 1, nextPollAt := Some(next), pollInterval := interval)]
    else tasks
  }

  function Min(a: int, b: int): int {
    if a < b then a else b
  }

  /** Each wait is a fifth longer than the last one, rounded down, up to the maximum. */
  function NextInterval(config: Config, interval: int): int {
    Min(interval * 6 / 5, config.maxInterval)
  }

  function AfterSchedule(config: Config, tasks: Tasks, id: string, now: int): Tasks {
    if id in tasks then
      var interval := NextInterval(config, tasks[id].pollInterval);
      AfterIncrement(tasks, id, now + interval, interval)
    else tasks
  }

  function NewTask(config: Config, key: string, now: int): Task {
    Task(key, Pending, 0, "", now, 0, config.defaultInterval, None, config.maxPollCount, config.maxDuration)
  }

  /** The task is stored only when billing is ready. */
  function AfterCreate(config: Config, w: World, id: string, key: string, policy: Option<B.Policy>,
      estimate: Option<B.Estimate>, now: int): World
  {
    var (books, outcome) := B.AfterInit(w.books, id, key, policy, estimate);
    World(if outcome == B.Ready then w.tasks[id := NewTask(config, key, now)] else w.tasks, books)
  }

  /** A task that ends without success, and its refund. */
  function AfterFailure(w: World, id: string, from: set<TaskStatus>, to: TaskStatus, outages: nat): World {
    World(AfterUpdateStatus(w.tasks, id, from, to), B.AfterRefund(w.books, id, outages))
  }

  function AfterSubmit(config: Config, w: World, id: string, now: int, reply: SubmitReply): World {
    if !HasStatus(w.tasks, id, PENDING) then w
    else
      match reply
      case NoAdapter => w.(tasks := AfterUpdateStatus(w.tasks, id, PENDING, Failed))
      case Limited => w
      case Finished(handle, usage) =>
        var t := w.tasks[id].(status := Success, version := w.tasks[id].version + 1, handle := handle);
        World(w.tasks[id := t], if usage.None? then w.books else B.AfterSettle(w.books, id, usage.value).0)
      case Accepted(handle) =>
        var t := w.tasks[id].(status := Submitted, version := w.tasks[id].version + 1, handle := handle,
          nextPollAt := Some(now + config.defaultInterval));
        w.(tasks := w.tasks[id := t])
      case Rejected(retryable, outages) =>
        if retryable then w else AfterFailure(w, id, PENDING, Failed, outages)
  }

  predicate IsDue(tasks: Tasks, id: string, now: int) {
    HasStatus(tasks, id, POLLABLE) && tasks[id].nextPollAt.Some? && tasks[id].nextPollAt.value <= now
  }

  predicate OutOfPatience(t: Task, now: int) {
    t.pollCount + 1 > t.maxPollCount || now - t.createdAt > t.maxDuration
  }

  /** The success is recorded only once the settlement has gone through. */
  function AfterSuccess(w: World, id: string, usage: Option<real>): World {
    if usage.None? then w
    else
      var (books, ok) := B.AfterSettle(w.books, id, usage.value);
      World(if ok then AfterUpdateStatus(w.tasks, id, POLLABLE, Success) else w.tasks, books)
  }

  function AfterReply(config: Config, w: World, id: string, g: Glance): World
    requires id in w.tasks
  {
    match g.reply
    case RateLimited => w.(tasks := AfterDefer(w.tasks, id, g.now + 1000))
    case Busy => w.(tasks := AfterDefer(w.tasks, id, g.now + 500))
    case QueryError(retryable) =>
      if retryable then
        w.(tasks := AfterDefer(w.tasks, id, g.now + Min(w.tasks[id].pollInterval * 2, config.maxInterval)))
      else AfterFailure(w, id, POLLABLE, Failed, g.outages)
    case Succeeded(usage) => AfterSuccess(w, id, usage)
    case ProviderFailed => AfterFailure(w, id, POLLABLE, Failed, g.outages)
    case StillProcessing =>
      w.(tasks := AfterSchedule(config, AfterUpdateStatus(w.tasks, id, {Submitted}, Processing), id, g.now))
    case OtherStatus => w.(tasks := AfterSchedule(config, w.tasks, id, g.now))
  }

  function AfterPoll(config: Config, w: World, id: string, g: Glance): World {
    if !IsDue(w.tasks, id, g.now) || !g.hasAdapter || w.tasks[id].handle == "" then w
    else if OutOfPatience(w.tasks[id], g.now) then AfterFailure(w, id, POLLABLE, Timeout, g.outages)
    else AfterReply(config, w, id, g)
  }

  /** Only the owner can cancel; nothing is refunded. */
  function AfterCancel(w: World, id: string, key: string): World {
    if id in w.tasks && w.tasks[id].key == key then
      w.(tasks := AfterUpdateStatus(w.tasks, id, CANCELLABLE, Cancelled))
    else w
  }

  class TaskRepository {
    var tasks: Tasks

    constructor ()
      ensures tasks == map[]
    {
      tasks := map[];
    }

    method Create(id: string, t: Task)
      modifies this
      ensures tasks == old(tasks)[id := t]
    {
      tasks := tasks[id := t];
    }

    /** Changes the status only from one of the expected ones, and then counts a new version. */
    method UpdateStatus(id: string, from: set<TaskStatus>, to: TaskStatus) returns (updated: bool)
      modifies this
      ensures updated == HasStatus(old(tasks), id, from)
      ensures tasks == AfterUpdateStatus(old(tasks), id, from, to)
    {
      if id !in tasks || tasks[id].status !in from { return false; }
      tasks := tasks[id := tasks[id].(status := to, version := tasks[id].version + 1)];
      updated := true;
    }

    method SetHandle(id: string, handle: string)
      modifies this
      ensures tasks == if id in old(tasks) then old(tasks)[id := old(tasks)[id].(handle := handle)] else old(tasks)
    {
      if id in tasks { tasks := tasks[id := tasks[id].(handle := handle)]; }
    }

    method IncrementPollCount(id: string, next: int, interval: int)
      modifies this
      ensures tasks == AfterIncrement(old(tasks), id, next, interval)
    {
      if id in tasks {
        var t := tasks[id];
        tasks := tasks[id := t.(pollCount := t.pollCount + 1, nextPollAt := Some(next), pollInterval := interval)];
      }
    }

    method DeferNextPoll(id: string, until: int)
      modifies this
      ensures tasks == AfterDefer(old(tasks), id, until)
    {
      if id in tasks { tasks := tasks[id := tasks[id].(nextPollAt := Some(until))]; }
    }
  }

  /** The tasks and the books that the services share. */
  ghost function WorldOf(repo: TaskRepository, adapter: B.BillingAdapter): World
    reads repo, adapter.wallet, adapter.billing
  {
    World(repo.tasks, adapter.State())
  }

  class TaskService {
    const repo: TaskRepository
    const adapter: B.BillingAdapter
    const config: Config

    constructor (repo: TaskRepository, adapter: B.BillingAdapter, config: Config)
      ensures this.repo == repo && this.adapter == adapter && this.config == config
    {
      this.repo, this.adapter, this.config := repo, adapter, config;
    }

    /** Billing comes first: a task that cannot be paid for is never stored. */
    method CreateTask(id: string, key: string, policy: Option<B.Policy>, estimate: Option<B.Estimate>, now: int)
      returns (outcome: B.InitOutcome)
      modifies repo, adapter.wallet, adapter.billing
      ensures WorldOf(repo, adapter) == AfterCreate(config, old(WorldOf(repo, adapter)), id, key, policy, estimate, now)
    {
      outcome := adapter.InitBilling(id, key, policy, estimate);
      if outcome == B.Ready { repo.Create(id, NewTask(config, key, now)); }
    }

    method CancelTask(id: string, key: string) returns (cancelled: bool)
      modifies repo
      ensures WorldOf(repo, adapter) == AfterCancel(old(WorldOf(repo, adapter)), id, key)
      ensures cancelled <==> id in repo.tasks && repo.tasks[id] != old(repo.tasks)[id]
    {
      if id !in repo.tasks || repo.tasks[id].key != key { return false; }
      if repo.tasks[id].status !in CANCELLABLE { return false; }
      cancelled := repo.UpdateStatus(id, CANCELLABLE, Cancelled);
    }
  }

  class FeatureQueueProcessor {
    const repo: TaskRepository
    const adapter: B.BillingAdapter
    const config: Config

    constructor (repo: TaskRepository, adapter: B.BillingAdapter, config: Config)
      ensures this.repo == repo && this.adapter == adapter && this.config == config
    {
      this.repo, this.adapter, this.config := repo, adapter, config;
    }

    /** One submission; threw asks the queue to try the job again. */
    method SubmitToProvider(id: string, now: int, reply: SubmitReply) returns (threw: bool)
      modifies repo, adapter.wallet, adapter.billing
      ensures WorldOf(repo, adapter) == AfterSubmit(config, old(WorldOf(repo, adapter)), id, now, reply)
      ensures threw == (HasStatus(old(repo.tasks), id, PENDING) && AsksForRetry(reply))
    {
      if id !in repo.tasks || repo.tasks[id].status != Pending { return false; }
      match reply
      case NoAdapter =>
        var _ := repo.UpdateStatus(id, PENDING, Failed);
        threw := false;
      case Limited =>
        threw := true;
      case Finished(handle, usage) =>
        FinishNow(id, handle, usage);
        threw := false;
      case Accepted(handle) =>
        var _ := repo.UpdateStatus(id, PENDING, Submitted);
        repo.SetHandle(id, handle);
        repo.DeferNextPoll(id, now + config.defaultInterval);
        threw := false;
      case Rejected(retryable, outages) =>
        if retryable { return true; }
        var _ := repo.UpdateStatus(id, PENDING, Failed);
        adapter.Refund(id, outages);
        threw := false;
    }

    /** A provider that answers at once: the status first, then the settlement, whose failure is only logged. */
    method FinishNow(id: string, handle: string, usage: Option<real>)
      requires HasStatus(repo.tasks, id, PENDING)
      modifies repo, adapter.wallet, adapter.billing
      ensures forall now ::
        WorldOf(repo, adapter) == AfterSubmit(config, old(WorldOf(repo, adapter)), id, now, Finished(handle, usage))
    {
      var _ := repo.UpdateStatus(id, PENDING, Success);
      repo.SetHandle(id, handle);
      if usage.Some? { var _ := adapter.Settle(id, usage.value); }
    }
  }

  class PollingService {
    const repo: TaskRepository
    const adapter: B.BillingAdapter
    const config: Config

    constructor (repo: TaskRepository, adapter: B.BillingAdapter, config: Config)
      ensures this.repo == repo && this.adapter == adapter && this.config == config
    {
      this.repo, this.adapter, this.config := repo, adapter, config;
    }

    method PollSingleTask(id: string, g: Glance)
      modifies repo, adapter.wallet, adapter.billing
      ensures WorldOf(repo, adapter) == AfterPoll(config, old(WorldOf(repo, adapter)), id, g)
    {
      if !IsDue(repo.tasks, id, g.now) || !g.hasAdapter || repo.tasks[id].handle == "" { return; }
      if OutOfPatience(repo.tasks[id], g.now) {
        EndInFailure(id, Timeout, g.outages);
      } else if g.reply.Succeeded? {
        EndInSuccess(id, g.reply.usage);
      } else if g.reply.ProviderFailed? || (g.reply.QueryError? && !g.reply.retryable) {
        EndInFailure(id, Failed, g.outages);
      } else {
        PollLater(id, g);
      }
    }

    method EndInFailure(id: string, to: TaskStatus, outages: nat)
      modifies repo, adapter.wallet, adapter.billing
      ensures WorldOf(repo, adapter) == AfterFailure(old(WorldOf(repo, adapter)), id, POLLABLE, to, outages)
    {
      var _ := repo.UpdateStatus(id, POLLABLE, to);
      adapter.Refund(id, outages);
    }

    method EndInSuccess(id: string, usage: Option<real>)
      modifies repo, adapter.wallet, adapter.billing
      ensures WorldOf(repo, adapter) == AfterSuccess(old(WorldOf(repo, adapter)), id, usage)
    {
      if usage.None? { return; }
      var settled := adapter.Settle(id, usage.value);
      if !settled { return; }
      var _ := repo.UpdateStatus(id, POLLABLE, Success);
    }

    method PollLater(id: string, g: Glance)
      requires id in repo.tasks && !g.reply.Succeeded? && !g.reply.ProviderFailed?
      requires g.reply.QueryError? ==> g.reply.retryable
      modifies repo
      ensures WorldOf(repo, adapter) == AfterReply(config, old(WorldOf(repo, adapter)), id, g)
    {
      match g.reply
      case RateLimited => repo.DeferNextPoll(id, g.now + 1000);
      case Busy => repo.DeferNextPoll(id, g.now + 500);
      case QueryError(_) =>
        repo.DeferNextPoll(id, g.now + Min(repo.tasks[id].pollInterval * 2, config.maxInterval));
      case StillProcessing =>
        if repo.tasks[id].status == Submitted { var _ := repo.UpdateStatus(id, {Submitted}, Processing); }
        ScheduleNextPoll(id, g.now);
      case OtherStatus => ScheduleNextPoll(id, g.now);
    }

    method ScheduleNextPoll(id: string, now: int)
      requires id in repo.tasks
      modifies repo
      ensures repo.tasks == AfterSchedule(config, old(repo.tasks), id, now)
    {
      var interval := NextInterval(config, repo.tasks[id].pollInterval);
      repo.IncrementPollCount(id, now + interval, interval);
    }
  }
}
