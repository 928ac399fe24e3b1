/** The amounts: what each operation on wallets and records takes from whom, and when. */
module BillingLaws {
  import opened Options
  import opened Wallets
  import opened Billing

  // ----- wallets -----

  /** Of all wallets only the one of key changes, by these amounts, and the log has one more entry that says so. */
  ghost predicate Moves(bank: Bank, later: Bank, key: string, balance: real, frozen: real, entry: Transaction) {
    && later.wallets.Keys == bank.wallets.Keys + {key}
    && (forall k :: k in bank.wallets && k != key ==> later.wallets[k] == bank.wallets[k])
    && (var (b, f) := if key in bank.wallets then (bank.wallets[key].balance, bank.wallets[key].frozen) else (0.0, 0.0);
        && later.wallets[key] == Wallet(b + balance, f + frozen)
        && later.log == bank.log + [entry] && entry.key == key && entry.before == b && entry.after == b + balance)
  }

  /** A freeze takes from what is available and an unfreeze gives back; a debit takes from the balance what is
      available; a credit adds to it and makes the wallet if there is none. */
  lemma WalletsMove(bank: Bank, key: string, amount: real, task: string, kind: Kind)
    ensures var w := if key in bank.wallets then bank.wallets[key] else Wallet(0.0, 0.0);
      var (allowed, later, balance, frozen) := match kind
        case Freeze =>
          (key in bank.wallets && amount + w.frozen <= w.balance, AfterFreeze(bank, key, amount, task), 0.0, amount)
        case Unfreeze =>
          (key in bank.wallets && amount <= w.frozen, AfterUnfreeze(bank, key, amount, task), 0.0, -amount)
        case Debit =>
          (key in bank.wallets && amount + w.frozen <= w.balance, AfterDebit(bank, key, amount, task), -amount, 0.0)
        case Credit => (true, AfterCredit(bank, key, amount, task), amount, 0.0);
      if allowed
      then Moves(bank, later, key, balance, frozen,
        Transaction(key, kind, amount, w.balance, w.balance + balance, task))
      else later == bank
  {
  }

  // ----- billing records -----

  /** The cost of a usage is the unit price times the usage: nothing for nothing, and usages add up. */
  lemma CostIsTheProduct(unitPrice: real, u: real, v: real)
    ensures Cost(unitPrice, u) == unitPrice * u && Cost(unitPrice, 0.0) == 0.0
    ensures Cost(unitPrice, u + v) == Cost(unitPrice, u) + Cost(unitPrice, v)
  {
  }

  /** What an internal task that was paid for by count or duration has reserved in its owner's wallet. */
  function Reservation(r: Record): real {
    if r.policy == Internal && r.status == PreDeducted then r.estimate.estimatedCost else 0.0
  }

  /** A new task: ready when it is exempt, or priced, new, and either not paid from a wallet in advance or covered
      by one. Only a covered one has its estimate frozen. */
  lemma InitBills(books: Books, task: string, key: string, policy: Option<Policy>, estimate: Option<Estimate>)
    ensures var (later, outcome) := AfterInit(books, task, key, policy, estimate);
      if policy == Some(Exempt) then outcome == Ready && later == books
      else if policy == None || estimate == None || task in books.records then outcome == InitFailed && later == books
      else
        var e := estimate.value;
        var inAdvance := policy == Some(Internal) && (e.usageType == Count || e.usageType == Duration);
        var covered := key in books.bank.wallets &&
          e.estimatedCost + books.bank.wallets[key].frozen <= books.bank.wallets[key].balance;
        var status := if inAdvance && covered then PreDeducted else Estimated;
        && outcome == (if inAdvance && !covered then Insufficient else Ready)
        && later.records == books.records[task := Record(key, policy.value, e, status, None, false, false)]
        && if inAdvance && covered
           then
             var balance := books.bank.wallets[key].balance;
             Moves(books.bank, later.bank, key, 0.0, e.estimatedCost,
               Transaction(key, Freeze, e.estimatedCost, balance, balance, task))
           else later.bank == books.bank
  {
  }

  /** A settlement of an internal task takes the unit price times the usage from its owner's balance and frees what
      the task had reserved. It goes through exactly when the wallet, the freed reservation included, covers that;
      then an open record is settled with this cost. Otherwise nothing is taken and the record has failed. */
  lemma SettleCharges(books: Books, task: string, usage: real)
    requires Sound(books) && task in books.records && books.records[task].policy == Internal
    ensures var r := books.records[task];
      var cost := r.estimate.unitPrice * usage;
      var (later, ok) := AfterSettle(books, task, usage);
      && ok == (r.key in books.bank.wallets &&
          cost + books.bank.wallets[r.key].frozen <= books.bank.wallets[r.key].balance + Reservation(r))
      && (r.key in books.bank.wallets ==>
          r.key in later.bank.wallets &&
          later.bank.wallets[r.key].balance == books.bank.wallets[r.key].balance - (if ok then cost else 0.0) &&
          later.bank.wallets[r.key].frozen == books.bank.wallets[r.key].frozen - Reservation(r))
      && (forall k :: k in books.bank.wallets && k != r.key ==>
          k in later.bank.wallets && later.bank.wallets[k] == books.bank.wallets[k])
      && later.records == books.records[task :=
          if !ok then r.(status := Billing.Failed)
          else if r.status == Estimated || r.status == PreDeducted
          then r.(status := Settled, actualCost := Some(cost), settled := true)
          else r]
  {
    if HasReservation(books.records[task]) { ReservationIsFrozen(books, task); }
    SettledRecords(books, task, usage);
  }

  lemma SettledRecords(books: Books, task: string, usage: real)
    requires task in books.records
    ensures var r := books.records[task];
      var (later, ok) := AfterSettle(books, task, usage);
      later.records == books.records[task :=
        if !ok then r.(status := Billing.Failed)
        else if r.status == Estimated || r.status == PreDeducted
        then r.(status := Settled, actualCost := Some(r.estimate.unitPrice * usage), settled := true)
        else r]
  {
    assert books.records[task := books.records[task]] == books.records;
  }

  /** Any other settlement takes nothing: an external record is settled with its cost, and without a record nothing is
      done. */
  lemma SettleIsFree(books: Books, task: string, usage: real)
    requires task in books.records ==> books.records[task].policy != Internal
    ensures var (later, ok) := AfterSettle(books, task, usage);
      ok && later.bank == books.bank &&
      if task !in books.records then later == books
      else
        var r := books.records[task];
        later.records == books.records[task :=
          if r.status == Estimated || r.status == PreDeducted
          then r.(status := Settled, actualCost := Some(r.estimate.unitPrice * usage), settled := true)
          else r]
  {
    if task in books.records { SettledRecords(books, task, usage); }
  }

  /** And a refund of any other record, or of none, leaves all wallets alone. */
  lemma RefundMovesNothing(books: Books, task: string, outages: nat)
    requires task in books.records ==>
      books.records[task].policy != Internal || books.records[task].status != PreDeducted
    ensures AfterRefund(books, task, outages).bank == books.bank
  {
  }

  /** A refund takes nothing and frees the reservation if one of three attempts gets through; an open record is closed
      either way. */
  lemma RefundFrees(books: Books, task: string, outages: nat)
    requires Sound(books) && task in books.records
    ensures var r := books.records[task];
      var later := AfterRefund(books, task, outages);
      var freed := if outages < 3 then Reservation(r) else 0.0;
      && (r.key in books.bank.wallets ==>
          r.key in later.bank.wallets &&
          later.bank.wallets[r.key] ==
          Wallet(books.bank.wallets[r.key].balance, books.bank.wallets[r.key].frozen - freed))
      && (forall k :: k in books.bank.wallets && k != r.key ==>
          k in later.bank.wallets && later.bank.wallets[k] == books.bank.wallets[k])
      && later.records == books.records[task :=
          if r.status == Estimated || r.status == PreDeducted then r.(status := Refunded, refunded := true) else r]
  {
    if HasReservation(books.records[task]) { ReservationIsFrozen(books, task); }
    assert books.records[task := books.records[task]] == books.records;
  }
}
