/** Billing records, and the adapter that keeps records and wallets in step. */
module Billing {
  import opened Options
  import opened Wallets

  datatype Policy = Internal | External | Exempt

  datatype UsageType = Token | Count | Duration

  datatype Status = Estimated | PreDeducted | Settled | Refunded | Failed

  datatype Estimate = Estimate(usageType: UsageType, unitPrice: real, estimatedCost: real)

  /** settled and refunded say whether settledAt and refundedAt are set. */
  datatype Record = Record(
    key: string, policy: Policy, estimate: Estimate, status: Status,
    actualCost: Option<real>, settled: bool, refunded: bool)

  type Records = map<string, Record>

  datatype Books = Books(bank: Bank, records: Records)

  datatype InitOutcome = Ready | Insufficient | InitFailed

  const MAX_RETRIES: nat := 3

  // ----- what each operation does -----

  predicate IsOpen(status: Status) {
    status == Estimated || status == PreDeducted
  }

  function Created(key: string, policy: Policy, estimate: Estimate): Record {
    Record(key, policy, estimate, Estimated, None, false, false)
  }

  function AfterMarkPreDeducted(records: Records, task: string): Records {
    if task in records && records[task].status == Estimated then
      records[task := records[task].(status := PreDeducted)]
    else records
  }

  function AfterSettleRecord(records: Records, task: string, cost: real): Records {
    if task in records && IsOpen(records[task].status) then
      records[task := records[task].(status := Settled, actualCost := Some(cost), settled := true)]
    else records
  }

  function AfterMarkRefunded(records: Records, task: string): Records {
    if task in records && IsOpen(records[task].status) then
      records[task := records[task].(status := Refunded, refunded := true)]
    else records
  }

  function AfterMarkFailed(records: Records, task: string): Records {
    if task in records then records[task := records[task].(status := Failed)] else records
  }

  function Cost(unitPrice: real, usage: real): real {
    unitPrice * usage
  }

  predicate NeedsFreeze(policy: Policy, usageType: UsageType) {
    policy == Internal && usageType != Token
  }

  /** policy and estimate are None when their look-up throws. */
  function AfterInit(books: Books, task: string, key: string, policy: Option<Policy>, estimate: Option<Estimate>)
    : (Books, InitOutcome)
  {
    if policy.None? then (books, InitFailed)
    else if policy.value == Exempt then (books, Ready)
    else if estimate.None? || task in books.records then (books, InitFailed)
    else
      var e := estimate.value;
      var created := books.records[task := Created(key, policy.value, e)];
      if !NeedsFreeze(policy.value, e.usageType) then (books.(records := created), Ready)
      else if Affords(books.bank, key, e.estimatedCost) then
        var frozen := AfterFreeze(books.bank, key, e.estimatedCost, task);
        (Books(frozen, AfterMarkPreDeducted(created, task)), Ready)
      else (books.(records := created), Insufficient)
  }

  predicate HasReservation(r: Record) {
    r.policy == Internal && r.status == PreDeducted
  }

  /** The bank once a reservation, if there is one, is released. */
  function Released(bank: Bank, r: Record, task: string): Bank {
    if HasReservation(r) then AfterUnfreeze(bank, r.key, r.estimate.estimatedCost, task) else bank
  }

  /** The flag is false when the debit fails; the caller then sees an exception. */
  function AfterSettle(books: Books, task: string, usage: real): (Books, bool) {
    if task !in books.records then (books, true)
    else
      var r := books.records[task];
      var cost := Cost(r.estimate.unitPrice, usage);
      if r.policy != Internal then (books.(records := AfterSettleRecord(books.records, task, cost)), true)
      else
        var bank := Released(books.bank, r, task);
        if Affords(bank, r.key, cost) then
          (Books(AfterDebit(bank, r.key, cost, task), AfterSettleRecord(books.records, task, cost)), true)
        else (Books(bank, AfterMarkFailed(books.records, task)), false)
  }

  /** outages counts the attempts to release the reservation that throw before one gets through. */
  function AfterRefund(books: Books, task: string, outages: nat): Books {
    if task !in books.records then books
    else
      var bank := if outages < MAX_RETRIES then Released(books.bank, books.records[task], task) else books.bank;
      Books(bank, AfterMarkRefunded(books.records, task))
  }

  class BillingService {
    var records: Records

    constructor ()
      ensures records == map[]
    {
      records := map[];
    }

    /** taskId is a unique index: a second record for the same task is refused. */
    method CreateRecord(task: string, key: string, policy: Policy, estimate: Estimate) returns (ok: bool)
      modifies this
      ensures ok == (task !in old(records))
      ensures records == if ok then old(records)[task := Created(key, policy, estimate)] else old(records)
    {
      if task in records { return false; }
      records := records[task := Created(key, policy, estimate)];
      ok := true;
    }

    method MarkPreDeducted(task: string)
      modifies this
      ensures records == AfterMarkPreDeducted(old(records), task)
    {
      if task in records && records[task].status == Estimated {
        records := records[task := records[task].(status := PreDeducted)];
      }
    }

    method Settle(task: string, cost: real)
      modifies this
      ensures records == AfterSettleRecord(old(records), task, cost)
    {
      if task !in records || records[task].status == Settled { return; }
      if IsOpen(records[task].status) {
        records := records[task := records[task].(status := Settled, actualCost := Some(cost), settled := true)];
      }
    }

    method MarkRefunded(task: string)
      modifies this
      ensures records == AfterMarkRefunded(old(records), task)
    {
      if task !in records || records[task].status == Refunded { return; }
      if IsOpen(records[task].status) {
        records := records[task := records[task].(status := Refunded, refunded := true)];
      }
    }

    method MarkFailed(task: string)
      modifies this
      ensures records == AfterMarkFailed(old(records), task)
    {
      if task in records { records := records[task := records[task].(status := Failed)]; }
    }
  }

  class BillingAdapter {
    const wallet: WalletService
    const billing: BillingService

    ghost function State(): Books
      reads wallet, billing
    {
      Books(wallet.State(), billing.records)
    }

    constructor (wallet: WalletService, billing: BillingService)
      ensures this.wallet == wallet && this.billing == billing
    {
      this.wallet, this.billing := wallet, billing;
    }

    method InitBilling(task: string, key: string, policy: Option<Policy>, estimate: Option<Estimate>)
      returns (outcome: InitOutcome)
      modifies wallet, billing
      ensures (State(), outcome) == AfterInit(old(State()), task, key, policy, estimate)
    {
      if policy.None? { return InitFailed; }
      if policy.value == Exempt { return Ready; }
      if estimate.None? { return InitFailed; }
      var e := estimate.value;
      var created := billing.CreateRecord(task, key, policy.value, e);
      if !created { return InitFailed; }
      if policy.value == External { return Ready; }
      if e.usageType == Count || e.usageType == Duration {
        var frozen := wallet.FreezeFunds(key, e.estimatedCost, task);
        if !frozen { return Insufficient; }
        billing.MarkPreDeducted(task);
      }
      outcome := Ready;
    }

    method Settle(task: string, usage: real) returns (ok: bool)
      modifies wallet, billing
      ensures (State(), ok) == AfterSettle(old(State()), task, usage)
    {
      if task !in billing.records { return true; }
      var r := billing.records[task];
      var cost := Cost(r.estimate.unitPrice, usage);
      if r.policy == Internal {
        if r.status == PreDeducted {
          wallet.UnfreezeFunds(r.key, r.estimate.estimatedCost, task);
        }
        var debited := wallet.DebitFunds(r.key, cost, task);
        if !debited {
          billing.MarkFailed(task);
          return false;
        }
      }
      billing.Settle(task, cost);
      ok := true;
    }

    method Refund(task: string, outages: nat)
      modifies wallet, billing
      ensures State() == AfterRefund(old(State()), task, outages)
    {
      if task !in billing.records { return; }
      var r := billing.records[task];
      if r.policy == Internal && r.status == PreDeducted {
        RetryUnfreeze(r.key, r.estimate.estimatedCost, task, outages);
      }
      billing.MarkRefunded(task);
    }

    /** Up to MAX_RETRIES attempts; the first one that does not throw ends the loop. */
    method RetryUnfreeze(key: string, amount: real, task: string, outages: nat)
      modifies wallet
      ensures wallet.State() == if outages < MAX_RETRIES
        then AfterUnfreeze(old(wallet.State()), key, amount, task)
        else old(wallet.State())
    {
      var attempt := 1;
      while attempt <= MAX_RETRIES
        invariant 1 <= attempt <= MAX_RETRIES + 1 && attempt <= outages + 1
        invariant wallet.State() == old(wallet.State())
      {
        if attempt > outages {
          wallet.UnfreezeFunds(key, amount, task);
          return;
        }
        attempt := attempt + 1;
      }
    }
  }

  // ----- frozen money is accounted for -----

  /** What the record keeps frozen in the wallet of key. */
  function Held(r: Record, key: string): real {
    if HasReservation(r) && r.key == key then r.estimate.estimatedCost else 0.0
  }

  /** The sum of what all records keep frozen in the wallet of key. */
  ghost function Reserved(records: Records, key: string): real
    decreases |records|
  {
    if records == map[] then 0.0
    else
      var task :| task in records;
      Held(records[task], key) + Reserved(records - {task}, key)
  }

  lemma {:induction false} ReservedWithout(records: Records, key: string, task: string)
    requires task in records
    ensures Reserved(records, key) == Held(records[task], key) + Reserved(records - {task}, key)
    decreases |records|
  {
    var first :| first in records &&
      Reserved(records, key) == Held(records[first], key) + Reserved(records - {first}, key);
    if first != task {
      ReservedWithout(records - {first}, key, task);
      ReservedWithout(records - {task}, key, first);
      assert records - {first} - {task} == records - {task} - {first};
    }
  }

  /** Writing one record changes the sum by what that record's share changes. */
  lemma ReservedAfterWrite(records: Records, task: string, r: Record, key: string)
    ensures Reserved(records[task := r], key) ==
      Reserved(records, key) - (if task in records then Held(records[task], key) else 0.0) + Held(r, key)
  {
    var later := records[task := r];
    ReservedWithout(later, key, task);
    assert later - {task} == records - {task};
    if task in records { ReservedWithout(records, key, task); } else { assert records - {task} == records; }
  }

  /** A share is part of the sum. */
  lemma {:induction false} HeldIsReserved(records: Records, key: string, task: string)
    requires task in records && forall t :: t in records ==> records[t].estimate.estimatedCost >= 0.0
    ensures Held(records[task], key) <= Reserved(records, key)
  {
    ReservedWithout(records, key, task);
    ReservedIsNotNegative(records - {task}, key);
  }

  lemma {:induction false} ReservedIsNotNegative(records: Records, key: string)
    requires forall t :: t in records ==> records[t].estimate.estimatedCost >= 0.0
    ensures Reserved(records, key) >= 0.0
    decreases |records|
  {
    if records != map[] {
      var first :| first in records &&
        Reserved(records, key) == Held(records[first], key) + Reserved(records - {first}, key);
      assert Held(records[first], key) >= 0.0;
      ReservedIsNotNegative(records - {first}, key);
    }
  }

  /** A settled record is not refunded, and an open one is neither. */
  ghost predicate StampsAgree(r: Record) {
    && !(r.settled && r.refunded)
    && (r.settled ==> r.status == Settled || r.status == Failed)
    && (r.refunded ==> r.status == Refunded || r.status == Failed)
  }

  ghost predicate RecordOk(r: Record, bank: Bank) {
    && r.estimate.estimatedCost >= 0.0 && r.policy != Exempt && StampsAgree(r)
    && (r.status == PreDeducted ==> r.policy == Internal && r.key in bank.wallets)
  }

  /** A wallet keeps frozen exactly what the open reservations of its key add up to. */
  ghost predicate FrozenIsReserved(books: Books) {
    forall key :: WalletOf(books.bank, key).frozen == Reserved(books.records, key)
  }

  ghost predicate RecordsOk(books: Books) {
    forall t :: t in books.records ==> RecordOk(books.records[t], books.bank)
  }

  ghost predicate Sound(books: Books) {
    Solvent(books.bank) && Audited(books.bank) && RecordsOk(books) && FrozenIsReserved(books)
  }

  /** What is frozen for key changes by what the share of the task changes. */
  ghost predicate FrozenMoves(books: Books, bank: Bank, task: string, r: Record, key: string) {
    var share := if task in books.records then Held(books.records[task], key) else 0.0;
    WalletOf(bank, key).frozen == WalletOf(books.bank, key).frozen - share + Held(r, key)
  }

  /** The bank and the record of one task move together. */
  lemma WriteIsReserved(books: Books, bank: Bank, task: string, r: Record)
    requires FrozenIsReserved(books)
    requires forall key :: FrozenMoves(books, bank, task, r, key)
    ensures FrozenIsReserved(Books(bank, books.records[task := r]))
  {
    forall key ensures WalletOf(bank, key).frozen == Reserved(books.records[task := r], key) {
      ReservedAfterWrite(books.records, task, r, key);
      assert FrozenMoves(books, bank, task, r, key);
    }
  }

  /** A reservation can always be released in full. */
  lemma ReservationIsFrozen(books: Books, task: string)
    requires Sound(books) && task in books.records && HasReservation(books.records[task])
    ensures Holds(books.bank, books.records[task].key, books.records[task].estimate.estimatedCost)
  {
    var r := books.records[task];
    assert RecordOk(r, books.bank);
    HeldIsReserved(books.records, r.key, task);
    assert WalletOf(books.bank, r.key).frozen == Reserved(books.records, r.key);
  }

  lemma InitIsSound(books: Books, task: string, key: string, policy: Option<Policy>, estimate: Option<Estimate>)
    requires Sound(books) && (estimate.Some? ==> estimate.value.estimatedCost >= 0.0)
    ensures Sound(AfterInit(books, task, key, policy, estimate).0)
  {
    if policy.Some? && policy.value != Exempt && estimate.Some? && task !in books.records {
      var e := estimate.value;
      var r := Created(key, policy.value, e);
      if NeedsFreeze(policy.value, e.usageType) && Affords(books.bank, key, e.estimatedCost) {
        var bank := AfterFreeze(books.bank, key, e.estimatedCost, task);
        OperationsAreAudited(books.bank, key, e.estimatedCost, task);
        WriteIsReserved(books, bank, task, r.(status := PreDeducted));
        assert books.records[task := r][task := r.(status := PreDeducted)] ==
          books.records[task := r.(status := PreDeducted)];
      } else {
        WriteIsReserved(books, books.bank, task, r);
      }
    }
  }

  /** Releasing a reservation and closing its record keeps the books sound. */
  lemma ReleaseIsSound(books: Books, task: string, r: Record)
    requires Sound(books) && task in books.records && !HasReservation(r) && r.status != PreDeducted
    requires StampsAgree(r) && r.policy == books.records[task].policy && r.estimate == books.records[task].estimate
    ensures Sound(Books(Released(books.bank, books.records[task], task), books.records[task := r]))
  {
    var before := books.records[task];
    assert RecordOk(before, books.bank);
    var bank := Released(books.bank, before, task);
    if HasReservation(before) {
      ReservationIsFrozen(books, task);
      OperationsAreAudited(books.bank, before.key, before.estimate.estimatedCost, task);
    }
    WriteIsReserved(books, bank, task, r);
  }

  lemma DebitIsSound(books: Books, key: string, amount: real, task: string)
    requires Sound(books)
    ensures Sound(books.(bank := AfterDebit(books.bank, key, amount, task)))
  {
    OperationsAreAudited(books.bank, key, amount, task);
    var later := books.(bank := AfterDebit(books.bank, key, amount, task));
    forall k ensures WalletOf(later.bank, k).frozen == Reserved(later.records, k) {
      assert WalletOf(later.bank, k).frozen == WalletOf(books.bank, k).frozen;
    }
  }

  /** What settling writes in the record of the task. */
  ghost function SettledRecord(r: Record, ok: bool, cost: real): Record {
    if !ok then r.(status := Failed)
    else if IsOpen(r.status) then r.(status := Settled, actualCost := Some(cost), settled := true)
    else r
  }

  lemma SettleIsSound(books: Books, task: string, usage: real)
    requires Sound(books)
    ensures Sound(AfterSettle(books, task, usage).0)
  {
    if task in books.records {
      var r := books.records[task];
      assert RecordOk(r, books.bank);
      var cost := Cost(r.estimate.unitPrice, usage);
      var (later, ok) := AfterSettle(books, task, usage);
      var closed := SettledRecord(r, ok, cost);
      ReleaseIsSound(books, task, closed);
      assert books.records[task := r] == books.records;
      if r.policy == Internal && ok {
        DebitIsSound(Books(Released(books.bank, r, task), books.records[task := closed]), r.key, cost, task);
      }
    }
  }

  lemma RefundIsSound(books: Books, task: string, outages: nat)
    requires Sound(books) && outages < MAX_RETRIES
    ensures Sound(AfterRefund(books, task, outages))
  {
    if task in books.records {
      var r := books.records[task];
      assert RecordOk(r, books.bank);
      var closed := if IsOpen(r.status) then r.(status := Refunded, refunded := true) else r;
      ReleaseIsSound(books, task, closed);
      assert books.records[task := r] == books.records;
    }
  }

  lemma CreditIsSound(books: Books, key: string, amount: real, task: string)
    requires Sound(books) && amount >= 0.0
    ensures Sound(books.(bank := AfterCredit(books.bank, key, amount, task)))
  {
    OperationsAreAudited(books.bank, key, amount, task);
    var later := books.(bank := AfterCredit(books.bank, key, amount, task));
    forall k ensures WalletOf(later.bank, k).frozen == Reserved(later.records, k) {
      assert WalletOf(later.bank, k).frozen == WalletOf(books.bank, k).frozen;
    }
  }

  datatype Operation =
    | Init(task: string, key: string, policy: Option<Policy>, estimate: Option<Estimate>)
    | Settling(task: string, usage: real)
    | Refunding(task: string, outages: nat)
    | Crediting(task: string, key: string, amount: real)

  function Apply(books: Books, op: Operation): Books {
    match op
    case Init(task, key, policy, estimate) => AfterInit(books, task, key, policy, estimate).0
    case Settling(task, usage) => AfterSettle(books, task, usage).0
    case Refunding(task, outages) => AfterRefund(books, task, outages)
    case Crediting(task, key, amount) => books.(bank := AfterCredit(books.bank, key, amount, task))
  }

  /** Estimates and credits are not negative, and the wallet collection answers within the retries. */
  predicate Proper(op: Operation) {
    match op
    case Init(_, _, _, estimate) => estimate.Some? ==> estimate.value.estimatedCost >= 0.0
    case Settling(_, _) => true
    case Refunding(_, outages) => outages < MAX_RETRIES
    case Crediting(_, _, amount) => amount >= 0.0
  }

  function RunAll(books: Books, ops: seq<Operation>): Books {
    if ops == [] then books else Apply(RunAll(books, ops[..|ops| - 1]), ops[|ops| - 1])
  }

  const EMPTY_BOOKS: Books := Books(Bank(map[], []), map[])

  lemma ApplyIsSound(books: Books, op: Operation)
    requires Sound(books) && Proper(op)
    ensures Sound(Apply(books, op))
  {
    match op
    case Init(task, key, policy, estimate) => InitIsSound(books, task, key, policy, estimate);
    case Settling(task, usage) => SettleIsSound(books, task, usage);
    case Refunding(task, outages) => RefundIsSound(books, task, outages);
    case Crediting(task, key, amount) => CreditIsSound(books, key, amount, task);
  }

  /** After any sequence of operations, taken as atomic steps, the books are sound. */
  lemma {:induction false} FrozenMoneyIsAccountedFor(ops: seq<Operation>)
    requires forall op :: op in ops ==> Proper(op)
    ensures Sound(RunAll(EMPTY_BOOKS, ops))
    decreases |ops|
  {
    if ops == [] {
    } else {
      FrozenMoneyIsAccountedFor(ops[..|ops| - 1]);
      ApplyIsSound(RunAll(EMPTY_BOOKS, ops[..|ops| - 1]), ops[|ops| - 1]);
    }
  }

  /** The wallet of the record's owner covers the cost: what is available, plus what the record itself has reserved. */
  predicate Covers(books: Books, r: Record, cost: real) {
    r.key in books.bank.wallets &&
    var w := books.bank.wallets[r.key];
    cost <= w.balance - w.frozen + if HasReservation(r) then r.estimate.estimatedCost else 0.0
  }

  /** Settling an internal task, with or without a reservation, goes through exactly when the wallet covers the cost. */
  lemma SettlesExactlyWhenCovered(books: Books, task: string, usage: real)
    requires Sound(books) && task in books.records && books.records[task].policy == Internal
    ensures AfterSettle(books, task, usage).1 <==>
      Covers(books, books.records[task], books.records[task].estimate.unitPrice * usage)
  {
    if HasReservation(books.records[task]) { ReservationIsFrozen(books, task); }
  }

  /** A cost within the estimate is always covered by the reservation. */
  lemma EstimateCoversTheCost(books: Books, task: string, usage: real)
    requires Sound(books) && task in books.records && HasReservation(books.records[task])
    requires books.records[task].estimate.unitPrice * usage <= books.records[task].estimate.estimatedCost
    ensures AfterSettle(books, task, usage).1
  {
    SettlesExactlyWhenCovered(books, task, usage);
    ReservationIsFrozen(books, task);
    assert RecordOk(books.records[task], books.bank);
  }

  /** Settling an internal task a second time goes through exactly when the balance covers the cost again. It then
      takes the money twice, while the record shows a single settlement. */
  lemma SettlingAgainDebitsAgain(books: Books, task: string, usage: real)
    requires Sound(books) && task in books.records && AfterSettle(books, task, usage).1
    requires books.records[task].policy == Internal && IsOpen(books.records[task].status)
    ensures var r := books.records[task];
      var cost := r.estimate.unitPrice * usage;
      var once := AfterSettle(books, task, usage).0;
      var (twice, ok) := AfterSettle(once, task, usage);
      && (ok <==> Affords(once.bank, r.key, cost))
      && (ok ==> WalletOf(twice.bank, r.key).balance == WalletOf(books.bank, r.key).balance - cost - cost)
      && (ok ==> twice.records == once.records)
  {
    if HasReservation(books.records[task]) { ReservationIsFrozen(books, task); }
    var once := AfterSettle(books, task, usage).0;
    assert once.records[task].status == Settled && once.records[task].policy == Internal;
    assert AfterSettleRecord(once.records, task, Cost(once.records[task].estimate.unitPrice, usage)) == once.records;
  }

  lemma RunNext(ops: seq<Operation>, op: Operation) returns (longer: seq<Operation>)
    ensures longer == ops + [op]
    ensures RunAll(EMPTY_BOOKS, longer) == Apply(RunAll(EMPTY_BOOKS, ops), op)
  {
    longer := ops + [op];
  }

  const PRICE: Estimate := Estimate(Count, 1.0, 1.0)

  /** A wallet of 10 and a task of price 1, whose estimate of 1 is reserved. */
  lemma OneReservation() returns (ops: seq<Operation>)
    ensures |ops| == 2 && Proper(ops[0]) && Proper(ops[1])
    ensures var books := RunAll(EMPTY_BOOKS, ops);
      && books.bank.wallets == map["k" := Wallet(10.0, 1.0)]
      && books.records == map["t" := Record("k", Internal, PRICE, PreDeducted, None, false, false)]
  {
    ops := RunNext([], Crediting("", "k", 10.0));
    assert RunAll(EMPTY_BOOKS, ops).bank.wallets == map["k" := Wallet(10.0, 0.0)];
    ops := RunNext(ops, Init("t", "k", Some(Internal), Some(PRICE)));
  }

  /** It is settled twice for a usage of 1: 8 are left. */
  lemma TwoSettlementsOfOneTask() returns (ops: seq<Operation>)
    ensures forall op :: op in ops ==> Proper(op)
    ensures |ops| == 4 && ops[2] == Settling("t", 1.0) && ops[3] == ops[2]
    ensures var books := RunAll(EMPTY_BOOKS, ops);
      books.bank.wallets == map["k" := Wallet(8.0, 0.0)] && books.records.Keys == {"t"}
      && books.records["t"].status == Settled && books.records["t"].actualCost == Some(1.0)
  {
    ops := OneReservation();
    ops := RunNext(ops, Settling("t", 1.0));
    var once := RunAll(EMPTY_BOOKS, ops);
    assert once.bank.wallets == map["k" := Wallet(9.0, 0.0)];
    assert once.records == map["t" := Record("k", Internal, PRICE, Settled, Some(1.0), true, false)];
    ops := RunNext(ops, Settling("t", 1.0));
  }

  /** When every attempt to release a reservation throws, the books stay in step exactly if nothing was held. */
  lemma LostReleaseLeavesMoneyFrozen(books: Books, task: string, outages: nat)
    requires Sound(books) && task in books.records && outages >= 3
    ensures Sound(AfterRefund(books, task, outages)) <==>
      Held(books.records[task], books.records[task].key) == 0.0
  {
    var r := books.records[task];
    assert RecordOk(r, books.bank);
    var closed := if IsOpen(r.status) then r.(status := Refunded, refunded := true) else r;
    assert books.records[task := r] == books.records;
    ReservedAfterWrite(books.records, task, closed, r.key);
    var later := AfterRefund(books, task, outages);
    assert later == Books(books.bank, books.records[task := closed]);
    assert WalletOf(books.bank, r.key).frozen == Reserved(books.records, r.key);
    if Held(r, r.key) == 0.0 {
      WriteIsReserved(books, books.bank, task, closed);
    }
  }

  /** The wallet collection throws three times when the reservation is to be released: 1 of the 10 stays frozen, for a
      record that is closed. */
  lemma ALostRelease() returns (ops: seq<Operation>)
    ensures |ops| == 3 && ops[2] == Refunding("t", MAX_RETRIES)
    ensures var books := RunAll(EMPTY_BOOKS, ops);
      books.bank.wallets == map["k" := Wallet(10.0, 1.0)] && Reserved(books.records, "k") == 0.0 && !Sound(books)
  {
    ops := OneReservation();
    var before := RunAll(EMPTY_BOOKS, ops);
    ops := RunNext(ops, Refunding("t", MAX_RETRIES));
    var books := RunAll(EMPTY_BOOKS, ops);
    assert books.records == map["t" := before.records["t"].(status := Refunded, refunded := true)];
    ReservedAfterWrite(map[], "t", books.records["t"], "k");
    assert map[]["t" := books.records["t"]] == books.records;
    assert WalletOf(books.bank, "k").frozen != Reserved(books.records, "k");
  }
}
