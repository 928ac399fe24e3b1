/** What tasks cost over whole runs of creations, submissions, polls, cancellations and credits. */
module TaskBilling {
  import opened Options
  import opened Wallets
  import opened TaskLifecycle
  import B = Billing

  datatype Event =
    | Create(id: string, key: string, policy: Option<B.Policy>, estimate: Option<B.Estimate>, at: int)
    | Submit(id: string, at: int, reply: SubmitReply)
    | Poll(id: string, glance: Glance)
    | Cancel(id: string, key: string)
    | TopUp(key: string, amount: real)

  function Next(config: Config, w: World, e: Event): World {
    match e
    case Create(id, key, policy, estimate, at) => AfterCreate(config, w, id, key, policy, estimate, at)
    case Submit(id, at, reply) => AfterSubmit(config, w, id, at, reply)
    case Poll(id, glance) => AfterPoll(config, w, id, glance)
    case Cancel(id, key) => AfterCancel(w, id, key)
    case TopUp(key, amount) =>
      w.(books := w.books.(bank := AfterCredit(w.books.bank, key, amount, "")))
  }

  function Execute(config: Config, w: World, events: seq<Event>): World {
    if events == [] then w
    else Next(config, Execute(config, w, events[..|events| - 1]), events[|events| - 1])
  }

  /** New tasks get unused ids; estimates and credits are not negative; refunds get through within the retries. */
  ghost predicate Proper(w: World, e: Event) {
    match e
    case Create(id, _, _, estimate, _) =>
      id !in w.tasks && id !in w.books.records && (estimate.Some? ==> estimate.value.estimatedCost >= 0.0)
    case Submit(_, _, reply) => reply.Rejected? ==> reply.outages < B.MAX_RETRIES
    case Poll(_, glance) => glance.outages < B.MAX_RETRIES
    case Cancel(_, _) => true
    case TopUp(_, amount) => amount >= 0.0
  }

  ghost predicate ProperRun(config: Config, w: World, events: seq<Event>) {
    events == [] ||
    (var before := events[..|events| - 1];
     ProperRun(config, w, before) && Proper(Execute(config, w, before), events[|events| - 1]))
  }

  const NOTHING_YET: World := World(map[], B.EMPTY_BOOKS)

  /** The debits that the log has for a task. */
  function DebitsOf(log: seq<Transaction>, id: string): seq<Transaction> {
    if log == [] then []
    else
      var earlier := DebitsOf(log[..|log| - 1], id);
      var t := log[|log| - 1];
      if t.kind == Debit && t.task == id then earlier + [t] else earlier
  }

  function Debits(w: World, id: string): seq<Transaction> {
    DebitsOf(w.books.bank.log, id)
  }

  predicate NothingReserved(w: World, id: string) {
    id in w.books.records ==> !B.HasReservation(w.books.records[id])
  }

  // ----- the debits of single operations -----

  /** The log has one debit for the task: its price for the usage, taken from its owner's balance. */
  ghost predicate ChargedOnce(w: World, id: string, r: B.Record, usage: real) {
    |Debits(w, id)| == 1 &&
    var before := Debits(w, id)[0].before;
    var cost := r.estimate.unitPrice * usage;
    Debits(w, id)[0] == Transaction(r.key, Debit, cost, before, before - cost, id)
  }

  lemma ReleaseIsNoDebit(bank: Bank, r: B.Record, task: string, id: string)
    ensures DebitsOf(B.Released(bank, r, task).log, id) == DebitsOf(bank.log, id)
  {
  }

  /** The settlement of an internal task goes through. */
  predicate Settles(w: World, task: string, usage: real) {
    && task in w.books.records && w.books.records[task].policy == B.Internal
    && B.AfterSettle(w.books, task, usage).1
  }

  function AfterSettling(w: World, task: string, usage: real): World {
    w.(books := B.AfterSettle(w.books, task, usage).0)
  }

  lemma SettleCharges(w: World, task: string, usage: real)
    requires Settles(w, task, usage)
    ensures |Debits(AfterSettling(w, task, usage), task)| == |Debits(w, task)| + 1
    ensures Debits(w, task) == [] ==>
      ChargedOnce(AfterSettling(w, task, usage), task, w.books.records[task], usage)
  {
    ReleaseIsNoDebit(w.books.bank, w.books.records[task], task, task);
  }

  lemma SettleSpares(w: World, task: string, usage: real, id: string)
    requires id != task || !Settles(w, task, usage)
    ensures Debits(AfterSettling(w, task, usage), id) == Debits(w, id)
  {
    if task in w.books.records && w.books.records[task].policy == B.Internal {
      ReleaseIsNoDebit(w.books.bank, w.books.records[task], task, id);
    }
  }

  /** Settling debits only its own task, once, and only when it goes through for an internal record. */
  lemma SettleDebits(w: World, task: string, usage: real, id: string)
    ensures var later := AfterSettling(w, task, usage);
      if id == task && Settles(w, task, usage)
      then |Debits(later, id)| == |Debits(w, id)| + 1
        && (Debits(w, id) == [] ==> ChargedOnce(later, id, w.books.records[id], usage))
      else Debits(later, id) == Debits(w, id)
  {
    if id == task && Settles(w, task, usage) {
      SettleCharges(w, task, usage);
    } else {
      SettleSpares(w, task, usage, id);
    }
  }

  // ----- what one event leaves alone -----

  predicate Concerns(e: Event, id: string) {
    !e.TopUp? && e.id == id
  }

  /** Nothing about the task has changed: not the task, not its record, not its debits. */
  ghost predicate SameFor(w: World, w': World, id: string) {
    && (id in w.tasks <==> id in w'.tasks) && (id in w.tasks ==> w.tasks[id] == w'.tasks[id])
    && (id in w.books.records <==> id in w'.books.records)
    && (id in w.books.records ==> w.books.records[id] == w'.books.records[id])
    && Debits(w, id) == Debits(w', id)
  }

  lemma SubmitLeavesOthers(config: Config, w: World, task: string, at: int, reply: SubmitReply, id: string)
    requires id != task
    ensures SameFor(w, AfterSubmit(config, w, task, at, reply), id)
  {
    if reply.Finished? && reply.usage.Some? { SettleDebits(w, task, reply.usage.value, id); }
  }

  lemma SuccessLeavesOthers(w: World, task: string, usage: Option<real>, id: string)
    requires id != task
    ensures SameFor(w, AfterSuccess(w, task, usage), id)
  {
    if usage.Some? { SettleDebits(w, task, usage.value, id); }
  }

  lemma ReplyLeavesOthers(config: Config, w: World, task: string, g: Glance, id: string)
    requires id != task && task in w.tasks
    ensures SameFor(w, AfterReply(config, w, task, g), id)
  {
    match g.reply
    case Succeeded(usage) => SuccessLeavesOthers(w, task, usage, id);
    case _ =>
  }

  lemma PollLeavesOthers(config: Config, w: World, task: string, g: Glance, id: string)
    requires id != task
    ensures SameFor(w, AfterPoll(config, w, task, g), id)
  {
    if IsDue(w.tasks, task, g.now) {
      ReplyLeavesOthers(config, w, task, g, id);
    }
  }

  /** An event leaves every other task as it was. */
  lemma OthersStay(config: Config, w: World, e: Event, id: string)
    requires !Concerns(e, id)
    ensures SameFor(w, Next(config, w, e), id)
  {
    match e
    case Create(_, _, _, _, _) =>
    case Submit(task, at, reply) => SubmitLeavesOthers(config, w, task, at, reply, id);
    case Poll(task, glance) => PollLeavesOthers(config, w, task, glance, id);
    case Cancel(_, _) =>
    case TopUp(_, _) =>
  }

  /** No event touches a task in a terminal status, its record or its debits. */
  lemma TerminalStays(config: Config, w: World, e: Event, id: string)
    requires id in w.tasks && IsTerminal(w.tasks[id].status) && Proper(w, e)
    ensures SameFor(w, Next(config, w, e), id)
  {
    if !Concerns(e, id) { OthersStay(config, w, e, id); }
  }

  /** Terminal statuses are absorbing over whole runs. */
  lemma {:induction false} TerminalIsAbsorbing(config: Config, w: World, events: seq<Event>, id: string)
    requires id in w.tasks && IsTerminal(w.tasks[id].status) && ProperRun(config, w, events)
    ensures SameFor(w, Execute(config, w, events), id)
    decreases |events|
  {
    if events == [] {
    } else {
      var before := events[..|events| - 1];
      TerminalIsAbsorbing(config, w, before, id);
      TerminalStays(config, Execute(config, w, before), events[|events| - 1], id);
    }
  }

  // ----- what every run keeps -----

  /** A debit belongs to a successful task, and there is at most one. */
  ghost predicate DebitsOk(w: World, id: string) {
    |Debits(w, id)| <= 1 && (Debits(w, id) != [] ==> id in w.tasks && w.tasks[id].status == Success)
  }

  ghost predicate TaskOk(w: World, id: string) {
    DebitsOk(w, id) &&
    (id in w.tasks ==>
     w.tasks[id].pollCount <= w.tasks[id].maxPollCount && (w.tasks[id].status == Timeout ==> NothingReserved(w, id)))
  }

  ghost predicate Orderly(w: World) {
    B.Sound(w.books) && forall id :: TaskOk(w, id)
  }

  lemma BooksStaySound(config: Config, w: World, e: Event)
    requires B.Sound(w.books) && Proper(w, e)
    ensures B.Sound(Next(config, w, e).books)
  {
    match e
    case Create(id, key, policy, estimate, _) => B.InitIsSound(w.books, id, key, policy, estimate);
    case Submit(id, _, reply) =>
      if reply.Finished? && reply.usage.Some? { B.SettleIsSound(w.books, id, reply.usage.value); }
      if reply.Rejected? { B.RefundIsSound(w.books, id, reply.outages); }
    case Poll(id, glance) =>
      if glance.reply.Succeeded? && glance.reply.usage.Some? {
        B.SettleIsSound(w.books, id, glance.reply.usage.value);
      }
      B.RefundIsSound(w.books, id, glance.outages);
    case Cancel(_, _) =>
    case TopUp(key, amount) => B.CreditIsSound(w.books, key, amount, "");
  }

  lemma SuccessStaysOk(w: World, id: string, usage: Option<real>)
    requires TaskOk(w, id) && HasStatus(w.tasks, id, POLLABLE)
    ensures TaskOk(AfterSuccess(w, id, usage), id)
  {
    if usage.Some? { SettleDebits(w, id, usage.value, id); }
  }

  lemma SubmitStaysOk(config: Config, w: World, id: string, at: int, reply: SubmitReply)
    requires TaskOk(w, id) && (reply.Rejected? ==> reply.outages < B.MAX_RETRIES)
    ensures TaskOk(AfterSubmit(config, w, id, at, reply), id)
  {
    if HasStatus(w.tasks, id, PENDING) {
      match reply
      case Finished(_, usage) => if usage.Some? { SettleDebits(w, id, usage.value, id); }
      case _ =>
    }
  }

  lemma ReplyStaysOk(config: Config, w: World, id: string, g: Glance)
    requires TaskOk(w, id) && HasStatus(w.tasks, id, POLLABLE) && g.outages < B.MAX_RETRIES
    requires w.tasks[id].pollCount < w.tasks[id].maxPollCount
    ensures TaskOk(AfterReply(config, w, id, g), id)
  {
    match g.reply
    case Succeeded(usage) => SuccessStaysOk(w, id, usage);
    case _ =>
  }

  lemma PollStaysOk(config: Config, w: World, id: string, g: Glance)
    requires TaskOk(w, id) && g.outages < B.MAX_RETRIES
    ensures TaskOk(AfterPoll(config, w, id, g), id)
  {
    if IsDue(w.tasks, id, g.now) {
      if !OutOfPatience(w.tasks[id], g.now) { ReplyStaysOk(config, w, id, g); }
    }
  }

  lemma SubjectStaysOk(config: Config, w: World, e: Event, id: string)
    requires TaskOk(w, id) && Proper(w, e) && Concerns(e, id)
    ensures TaskOk(Next(config, w, e), id)
  {
    match e
    case Create(_, _, _, _, _) =>
    case Submit(_, at, reply) => SubmitStaysOk(config, w, id, at, reply);
    case Poll(_, glance) => PollStaysOk(config, w, id, glance);
    case Cancel(_, _) =>
  }

  lemma NextIsOrderly(config: Config, w: World, e: Event)
    requires Orderly(w) && Proper(w, e)
    ensures Orderly(Next(config, w, e))
  {
    BooksStaySound(config, w, e);
    forall id ensures TaskOk(Next(config, w, e), id) {
      assert TaskOk(w, id);
      if Concerns(e, id) { SubjectStaysOk(config, w, e, id); } else { OthersStay(config, w, e, id); }
    }
  }

  ghost predicate Reachable(config: Config, w: World) {
    exists events :: ProperRun(config, NOTHING_YET, events) && w == Execute(config, NOTHING_YET, events)
  }

  lemma {:induction false} RunsStayOrderly(config: Config, w: World, events: seq<Event>)
    requires Orderly(w) && ProperRun(config, w, events)
    ensures Orderly(Execute(config, w, events))
    decreases |events|
  {
    if events == [] {
    } else {
      var before := events[..|events| - 1];
      RunsStayOrderly(config, w, before);
      NextIsOrderly(config, Execute(config, w, before), events[|events| - 1]);
    }
  }

  /** Over every run: sound books, at most one debit a task, and only for a successful one. */
  lemma ReachableIsOrderly(config: Config, w: World)
    requires Reachable(config, w)
    ensures Orderly(w)
  {
    var events :| ProperRun(config, NOTHING_YET, events) && w == Execute(config, NOTHING_YET, events);
    RunsStayOrderly(config, NOTHING_YET, events);
  }

  // ----- how a task's money ends -----

  predicate IsOpenTask(w: World, id: string) {
    id in w.tasks && !IsTerminal(w.tasks[id].status)
  }

  predicate EndsIn(w: World, id: string, statuses: set<TaskStatus>) {
    id in w.tasks && w.tasks[id].status in statuses
  }

  /** A task that a poll brings to success is debited exactly once, for its price times the usage. */
  lemma PollCharges(config: Config, w: World, id: string, g: Glance)
    requires DebitsOk(w, id) && IsOpenTask(w, id) && EndsIn(AfterPoll(config, w, id, g), id, {Success})
    ensures var later := AfterPoll(config, w, id, g);
      && g.reply.Succeeded? && g.reply.usage.Some? && NothingReserved(later, id)
      && (id in w.books.records && w.books.records[id].policy == B.Internal ==>
          ChargedOnce(later, id, w.books.records[id], g.reply.usage.value))
  {
    var later := AfterPoll(config, w, id, g);
    SettleDebits(w, id, g.reply.usage.value, id);
    assert Debits(later, id) == Debits(w.(books := later.books), id);
  }

  /** The charge of a task that a poll brings to success stays the only one whatever happens later. */
  lemma PolledSuccessIsChargedOnce(config: Config, w: World, id: string, g: Glance, after: seq<Event>)
    requires Reachable(config, w) && Proper(w, Poll(id, g)) && IsOpenTask(w, id)
    requires EndsIn(AfterPoll(config, w, id, g), id, {Success}) && ProperRun(config, AfterPoll(config, w, id, g), after)
    ensures var end := Execute(config, AfterPoll(config, w, id, g), after);
      && EndsIn(end, id, {Success}) && NothingReserved(end, id) && g.reply.Succeeded? && g.reply.usage.Some?
      && (id in w.books.records && w.books.records[id].policy == B.Internal ==>
          ChargedOnce(end, id, w.books.records[id], g.reply.usage.value))
  {
    ReachableIsOrderly(config, w);
    assert TaskOk(w, id);
    PollCharges(config, w, id, g);
    TerminalIsAbsorbing(config, AfterPoll(config, w, id, g), after, id);
  }

  lemma PollRefunds(config: Config, w: World, id: string, g: Glance)
    requires DebitsOk(w, id) && IsOpenTask(w, id) && g.outages < B.MAX_RETRIES
    requires EndsIn(AfterPoll(config, w, id, g), id, {Timeout, Failed})
    ensures Debits(AfterPoll(config, w, id, g), id) == [] && NothingReserved(AfterPoll(config, w, id, g), id)
  {
  }

  /** A task that a poll ends in TIMEOUT or FAILED has no debit and nothing reserved, whatever happens later. */
  lemma PolledFailureIsFree(config: Config, w: World, id: string, g: Glance, after: seq<Event>)
    requires Reachable(config, w) && Proper(w, Poll(id, g)) && IsOpenTask(w, id)
    requires EndsIn(AfterPoll(config, w, id, g), id, {Timeout, Failed})
    requires ProperRun(config, AfterPoll(config, w, id, g), after)
    ensures var end := Execute(config, AfterPoll(config, w, id, g), after);
      Debits(end, id) == [] && NothingReserved(end, id)
  {
    ReachableIsOrderly(config, w);
    assert TaskOk(w, id);
    PollRefunds(config, w, id, g);
    TerminalIsAbsorbing(config, AfterPoll(config, w, id, g), after, id);
  }

  /** The ways to end that leave a reservation alone: a cancellation, a provider without an adapter, and a task that
      is done at once with a usage that cannot be worked out. */
  predicate Keeps(e: Event) {
    e.Cancel? || (e.Submit? && (e.reply.NoAdapter? || (e.reply.Finished? && e.reply.usage.None?)))
  }

  /** The event that brings the task to its end. */
  ghost predicate Ends(config: Config, w: World, e: Event, id: string) {
    IsOpenTask(w, id) && Proper(w, e) && !IsOpenTask(Next(config, w, e), id)
  }

  lemma EndingKeepsOrFrees(config: Config, w: World, e: Event, id: string)
    requires Ends(config, w, e, id)
    ensures Concerns(e, id)
    ensures Keeps(e) ==> Next(config, w, e).books == w.books
    ensures !Keeps(e) ==> NothingReserved(Next(config, w, e), id)
  {
    if !Concerns(e, id) { OthersStay(config, w, e, id); }
  }

  /** Of all the ways to end, these leave what the task has reserved in its owner's wallet for ever, on the same
      record; every other way frees it. */
  lemma UnrefundedMoneyStaysFrozen(config: Config, w: World, e: Event, id: string, after: seq<Event>)
    requires Reachable(config, w) && Ends(config, w, e, id) && ProperRun(config, Next(config, w, e), after)
    ensures var end := Execute(config, Next(config, w, e), after);
      && (NothingReserved(end, id) <==> NothingReserved(w, id) || !Keeps(e))
      && (!NothingReserved(end, id) ==>
          var r := w.books.records[id];
          end.books.records[id] == r && Holds(end.books.bank, r.key, r.estimate.estimatedCost))
  {
    ReachableIsOrderly(config, w);
    EndingKeepsOrFrees(config, w, e, id);
    NextIsOrderly(config, w, e);
    TerminalIsAbsorbing(config, Next(config, w, e), after, id);
    RunsStayOrderly(config, Next(config, w, e), after);
    var end := Execute(config, Next(config, w, e), after);
    if !NothingReserved(end, id) { B.ReservationIsFrozen(end.books, id); }
  }

  /** The usage is known and the owner's wallet covers its cost. */
  predicate CanPay(w: World, id: string, usage: Option<real>) {
    usage.Some? && id in w.books.records &&
    var r := w.books.records[id];
    B.Covers(w.books, r, r.estimate.unitPrice * usage.value)
  }

  lemma CanPayExactlyWhenItSettles(w: World, id: string, usage: Option<real>)
    requires B.Sound(w.books) && id in w.books.records && w.books.records[id].policy == B.Internal
    ensures CanPay(w, id, usage) <==> usage.Some? && Settles(w, id, usage.value)
  {
    if usage.Some? { B.SettlesExactlyWhenCovered(w.books, id, usage.value); }
  }

  /** One submission that a provider answers at once has the debit of its settlement, or none. */
  lemma ImmediateSettlement(config: Config, w: World, id: string, at: int, handle: string, usage: Option<real>)
    requires DebitsOk(w, id) && EndsIn(w, id, PENDING)
    requires id in w.books.records && w.books.records[id].policy == B.Internal
    ensures var later := AfterSubmit(config, w, id, at, Finished(handle, usage));
      if usage.Some? && Settles(w, id, usage.value)
      then ChargedOnce(later, id, w.books.records[id], usage.value)
      else Debits(later, id) == []
  {
    var later := AfterSubmit(config, w, id, at, Finished(handle, usage));
    if usage.Some? {
      SettleDebits(w, id, usage.value, id);
      assert Debits(later, id) == Debits(AfterSettling(w, id, usage.value), id);
    }
  }

  /** A task that is done at once succeeds even if its owner cannot pay, and then no later event makes it pay. */
  lemma ImmediateSuccessMayBeUnpaid(config: Config, w: World, id: string, at: int, handle: string,
      usage: Option<real>, after: seq<Event>)
    requires Reachable(config, w) && EndsIn(w, id, PENDING)
    requires id in w.books.records && w.books.records[id].policy == B.Internal
    requires ProperRun(config, AfterSubmit(config, w, id, at, Finished(handle, usage)), after)
    ensures var end := Execute(config, AfterSubmit(config, w, id, at, Finished(handle, usage)), after);
      && EndsIn(end, id, {Success})
      && (NothingReserved(end, id) <==> NothingReserved(w, id) || usage.Some?)
      && if CanPay(w, id, usage)
         then ChargedOnce(end, id, w.books.records[id], usage.value)
         else Debits(end, id) == []
  {
    ReachableIsOrderly(config, w);
    assert TaskOk(w, id);
    CanPayExactlyWhenItSettles(w, id, usage);
    ImmediateSettlement(config, w, id, at, handle, usage);
    EndingKeepsOrFrees(config, w, Submit(id, at, Finished(handle, usage)), id);
    TerminalIsAbsorbing(config, AfterSubmit(config, w, id, at, Finished(handle, usage)), after, id);
  }

  // ----- single runs that show where money stays -----

  /** The next event of a proper run. */
  lemma Then(config: Config, events: seq<Event>, e: Event) returns (longer: seq<Event>)
    requires ProperRun(config, NOTHING_YET, events) && Proper(Execute(config, NOTHING_YET, events), e)
    ensures longer == events + [e] && ProperRun(config, NOTHING_YET, longer)
    ensures Execute(config, NOTHING_YET, longer) == Next(config, Execute(config, NOTHING_YET, events), e)
  {
    longer := events + [e];
    assert longer[..|events|] == events;
  }

  /** A task priced by tokens, whose owner has no wallet. */
  lemma ATaskWithoutWallet(config: Config) returns (events: seq<Event>)
    ensures ProperRun(config, NOTHING_YET, events)
    ensures var w := Execute(config, NOTHING_YET, events);
      && EndsIn(w, "t", PENDING) && w.books.bank == Bank(map[], [])
      && "t" in w.books.records && w.books.records["t"].policy == B.Internal
  {
    events := Then(config, [], Create("t", "k", Some(B.Internal), Some(B.Estimate(B.Token, 1.0, 1.0)), 0));
  }

  /** It is done at once: successful and unpaid. */
  lemma AnUnpaidSuccess(config: Config) returns (events: seq<Event>)
    ensures ProperRun(config, NOTHING_YET, events)
    ensures var end := Execute(config, NOTHING_YET, events);
      EndsIn(end, "t", {Success}) && "t" in end.books.records && Debits(end, "t") == []
  {
    events := ATaskWithoutWallet(config);
    var w := Execute(config, NOTHING_YET, events);
    RunsStayOrderly(config, NOTHING_YET, events);
    assert !Settles(w, "t", 1.0) by { CanPayExactlyWhenItSettles(w, "t", Some(1.0)); }
    ImmediateSettlement(config, w, "t", 0, "h", Some(1.0));
    events := Then(config, events, Submit("t", 0, Finished("h", Some(1.0))));
  }

  /** A wallet of 10, and a task estimated at 1. */
  lemma AReservation(config: Config) returns (events: seq<Event>)
    ensures ProperRun(config, NOTHING_YET, events)
    ensures var w := Execute(config, NOTHING_YET, events);
      && EndsIn(w, "t", PENDING) && w.tasks["t"].key == "k"
      && w.books.bank.wallets == map["k" := Wallet(10.0, 1.0)]
  {
    events := Then(config, [], TopUp("k", 10.0));
    assert Execute(config, NOTHING_YET, events).books.bank.wallets == map["k" := Wallet(10.0, 0.0)];
    events := Then(config, events, Create("t", "k", Some(B.Internal), Some(B.Estimate(B.Count, 1.0, 1.0)), 0));
  }

  /** It is cancelled before it is submitted: 1 stays frozen. */
  lemma ACancelledReservation(config: Config) returns (events: seq<Event>)
    ensures ProperRun(config, NOTHING_YET, events)
    ensures var end := Execute(config, NOTHING_YET, events);
      EndsIn(end, "t", {Cancelled}) && end.books.bank.wallets == map["k" := Wallet(10.0, 1.0)]
  {
    events := AReservation(config);
    events := Then(config, events, Cancel("t", "k"));
  }

  /** It succeeds at once with an unknown usage: nothing is debited, and 1 stays frozen. */
  lemma AnUnknownUsage(config: Config) returns (events: seq<Event>)
    ensures ProperRun(config, NOTHING_YET, events)
    ensures var end := Execute(config, NOTHING_YET, events);
      EndsIn(end, "t", {Success}) && end.books.bank.wallets == map["k" := Wallet(10.0, 1.0)]
  {
    events := AReservation(config);
    events := Then(config, events, Submit("t", 0, Finished("h", None)));
  }
}
