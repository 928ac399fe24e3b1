/** Wallets of API clients and the log of their transactions. Amounts are exact; rounding is for display only. */
module Wallets {

  datatype Wallet = Wallet(balance: real, frozen: real)

  datatype Kind = Freeze | Unfreeze | Debit | Credit

  /** before and after are balances, not frozen amounts. task is "" when there is none. */
  datatype Transaction = Transaction(key: string, kind: Kind, amount: real, before: real, after: real, task: string)

  /** The wallet collection and the transaction collection. */
  datatype Bank = Bank(wallets: map<string, Wallet>, log: seq<Transaction>)

  predicate Affords(bank: Bank, key: string, amount: real) {
    key in bank.wallets && bank.wallets[key].balance - bank.wallets[key].frozen >= amount
  }

  predicate Holds(bank: Bank, key: string, amount: real) {
    key in bank.wallets && bank.wallets[key].frozen >= amount
  }

  function Put(bank: Bank, key: string, w: Wallet, t: Transaction): Bank {
    Bank(bank.wallets[key := w], bank.log + [t])
  }

  function AfterFreeze(bank: Bank, key: string, amount: real, task: string): Bank {
    if !Affords(bank, key, amount) then bank
    else
      var w := bank.wallets[key];
      Put(bank, key, w.(frozen := w.frozen + amount), Transaction(key, Freeze, amount, w.balance, w.balance, task))
  }

  function AfterUnfreeze(bank: Bank, key: string, amount: real, task: string): Bank {
    if !Holds(bank, key, amount) then bank
    else
      var w := bank.wallets[key];
      Put(bank, key, w.(frozen := w.frozen - amount), Transaction(key, Unfreeze, amount, w.balance, w.balance, task))
  }

  function AfterDebit(bank: Bank, key: string, amount: real, task: string): Bank {
    if !Affords(bank, key, amount) then bank
    else
      var w := bank.wallets[key];
      var after := w.balance - amount;
      Put(bank, key, w.(balance := after), Transaction(key, Debit, amount, w.balance, after, task))
  }

  function WalletOf(bank: Bank, key: string): Wallet {
    if key in bank.wallets then bank.wallets[key] else Wallet(0.0, 0.0)
  }

  function AfterCredit(bank: Bank, key: string, amount: real, task: string): Bank {
    var w := WalletOf(bank, key);
    var after := w.balance + amount;
    Put(bank, key, w.(balance := after), Transaction(key, Credit, amount, w.balance, after, task))
  }

  class WalletService {
    var wallets: map<string, Wallet>
    var log: seq<Transaction>

    function State(): Bank
      reads this
    {
      Bank(wallets, log)
    }

    constructor ()
      ensures State() == Bank(map[], [])
    {
      wallets, log := map[], [];
    }

    method Record(key: string, kind: Kind, amount: real, before: real, after: real, task: string)
      modifies this`log
      ensures log == old(log) + [Transaction(key, kind, amount, before, after, task)]
    {
      log := log + [Transaction(key, kind, amount, before, after, task)];
    }

    /** Reserves part of the available balance. */
    method FreezeFunds(key: string, amount: real, task: string) returns (ok: bool)
      modifies this
      ensures ok == old(Affords(State(), key, amount))
      ensures State() == old(AfterFreeze(State(), key, amount, task))
    {
      if key !in wallets || wallets[key].balance - wallets[key].frozen < amount { return false; }
      wallets := wallets[key := wallets[key].(frozen := wallets[key].frozen + amount)];
      Record(key, Freeze, amount, wallets[key].balance, wallets[key].balance, task);
      ok := true;
    }

    /** Releases reserved funds; when fewer are frozen it only warns. */
    method UnfreezeFunds(key: string, amount: real, task: string)
      modifies this
      ensures State() == old(AfterUnfreeze(State(), key, amount, task))
    {
      if key !in wallets || wallets[key].frozen < amount { return; }
      wallets := wallets[key := wallets[key].(frozen := wallets[key].frozen - amount)];
      Record(key, Unfreeze, amount, wallets[key].balance, wallets[key].balance, task);
    }

    /** Takes money from the available balance. */
    method DebitFunds(key: string, amount: real, task: string) returns (ok: bool)
      modifies this
      ensures ok == old(Affords(State(), key, amount))
      ensures State() == old(AfterDebit(State(), key, amount, task))
    {
      var before := if key in wallets then wallets[key].balance else 0.0;
      if key !in wallets || wallets[key].balance - wallets[key].frozen < amount { return false; }
      wallets := wallets[key := wallets[key].(balance := wallets[key].balance - amount)];
      Record(key, Debit, amount, before, wallets[key].balance, task);
      ok := true;
    }

    method EnsureWallet(key: string)
      modifies this`wallets
      ensures wallets == if key in old(wallets) then old(wallets) else old(wallets)[key := Wallet(0.0, 0.0)]
    {
      if key !in wallets { wallets := wallets[key := Wallet(0.0, 0.0)]; }
    }

    method CreditFunds(key: string, amount: real, task: string)
      modifies this
      ensures State() == old(AfterCredit(State(), key, amount, task))
    {
      EnsureWallet(key);
      var before := wallets[key].balance;
      wallets := wallets[key := wallets[key].(balance := before + amount)];
      Record(key, Credit, amount, before, wallets[key].balance, task);
    }
  }

  // ----- the log accounts for every wallet -----

  /** What a transaction adds to the balance. */
  function BalanceChange(t: Transaction): real {
    match t.kind
    case Credit => t.amount
    case Debit => -t.amount
    case _ => 0.0
  }

  /** What a transaction adds to the frozen amount. */
  function FrozenChange(t: Transaction): real {
    match t.kind
    case Freeze => t.amount
    case Unfreeze => -t.amount
    case _ => 0.0
  }

  /** The wallet that the log alone says the key has. */
  function Replay(log: seq<Transaction>, key: string): Wallet {
    if log == [] then Wallet(0.0, 0.0)
    else
      var t := log[|log| - 1];
      var w := Replay(log[..|log| - 1], key);
      if t.key != key then w else Wallet(w.balance + BalanceChange(t), w.frozen + FrozenChange(t))
  }

  /** Every logged balance is the one the earlier log gives, and every wallet is the one the whole log gives. */
  ghost predicate Audited(bank: Bank) {
    && (forall key :: WalletOf(bank, key) == Replay(bank.log, key))
    && forall i :: 0 <= i < |bank.log| ==> ChainedAt(bank.log, i)
  }

  ghost predicate ChainedAt(log: seq<Transaction>, i: nat)
    requires i < |log|
  {
    && log[i].before == Replay(log[..i], log[i].key).balance
    && log[i].after == log[i].before + BalanceChange(log[i])
  }

  /** A write of the wallet that the new transaction describes keeps the log in step. */
  lemma PutIsAudited(bank: Bank, w: Wallet, t: Transaction)
    requires Audited(bank)
    requires t.before == WalletOf(bank, t.key).balance && t.after == t.before + BalanceChange(t)
    requires w == Wallet(t.after, WalletOf(bank, t.key).frozen + FrozenChange(t))
    ensures Audited(Put(bank, t.key, w, t))
  {
    var later := Put(bank, t.key, w, t);
    forall key ensures WalletOf(later, key) == Replay(later.log, key) {
    }
    forall i | 0 <= i < |later.log| ensures ChainedAt(later.log, i) {
      assert later.log[..i] == bank.log[..i];
      assert bank.log[..|bank.log|] == bank.log;
      if i < |bank.log| { assert ChainedAt(bank.log, i) && later.log[i] == bank.log[i]; }
    }
  }

  lemma FreezeIsAudited(bank: Bank, key: string, amount: real, task: string)
    requires Audited(bank)
    ensures Audited(AfterFreeze(bank, key, amount, task))
  {
    if Affords(bank, key, amount) {
      var w := bank.wallets[key];
      assert w == WalletOf(bank, key);
      PutIsAudited(bank, w.(frozen := w.frozen + amount), Transaction(key, Freeze, amount, w.balance, w.balance, task));
    }
  }

  lemma UnfreezeIsAudited(bank: Bank, key: string, amount: real, task: string)
    requires Audited(bank)
    ensures Audited(AfterUnfreeze(bank, key, amount, task))
  {
    if Holds(bank, key, amount) {
      var w := bank.wallets[key];
      assert w == WalletOf(bank, key);
      PutIsAudited(bank, w.(frozen := w.frozen - amount),
        Transaction(key, Unfreeze, amount, w.balance, w.balance, task));
    }
  }

  lemma DebitIsAudited(bank: Bank, key: string, amount: real, task: string)
    requires Audited(bank)
    ensures Audited(AfterDebit(bank, key, amount, task))
  {
    if Affords(bank, key, amount) {
      var w := bank.wallets[key];
      assert w == WalletOf(bank, key);
      PutIsAudited(bank, w.(balance := w.balance - amount),
        Transaction(key, Debit, amount, w.balance, w.balance - amount, task));
    }
  }

  lemma CreditIsAudited(bank: Bank, key: string, amount: real, task: string)
    requires Audited(bank)
    ensures Audited(AfterCredit(bank, key, amount, task))
  {
    var w := WalletOf(bank, key);
    PutIsAudited(bank, w.(balance := w.balance + amount),
      Transaction(key, Credit, amount, w.balance, w.balance + amount, task));
  }

  /** Each of the four operations keeps the log in step with the wallets. */
  lemma OperationsAreAudited(bank: Bank, key: string, amount: real, task: string)
    requires Audited(bank)
    ensures Audited(AfterFreeze(bank, key, amount, task)) && Audited(AfterUnfreeze(bank, key, amount, task))
    ensures Audited(AfterDebit(bank, key, amount, task)) && Audited(AfterCredit(bank, key, amount, task))
  {
    FreezeIsAudited(bank, key, amount, task);
    UnfreezeIsAudited(bank, key, amount, task);
    DebitIsAudited(bank, key, amount, task);
    CreditIsAudited(bank, key, amount, task);
  }

  /** No wallet is overdrawn, and no wallet has promised more than it holds. */
  ghost predicate Solvent(bank: Bank) {
    forall key :: key in bank.wallets ==> 0.0 <= bank.wallets[key].frozen <= bank.wallets[key].balance
  }

  /** Solvency survives a debit of any amount, but a freeze or a credit only of a non-negative one. */
  lemma OperationsStaySolvent(bank: Bank, key: string, amount: real, task: string)
    requires Solvent(bank)
    ensures Solvent(AfterDebit(bank, key, amount, task))
    ensures amount >= 0.0 ==> Solvent(AfterFreeze(bank, key, amount, task))
    ensures amount >= 0.0 ==> Solvent(AfterUnfreeze(bank, key, amount, task))
    ensures amount >= 0.0 ==> Solvent(AfterCredit(bank, key, amount, task))
  {
  }
}
