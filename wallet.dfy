/**
 * The wallet store of the digital-wallet service (models/wallet.go): a table
 * of wallets, one per user, and an append-only ledger of transactions, with
 * the balance lookup and the atomic withdrawal that debits one wallet and
 * records one ledger entry inside a single database transaction.
 *
 * Amounts are integers in minor units (cents); times are opaque instants
 * handed in by the caller. Storage failures are a parameter: `failing` is the
 * set of storage calls that return an error in this run.
 */
module Wallets {
  import opened Results

  /** An amount of money in minor units. */
  type Money = int

  /** An instant read from the clock; only stored and copied, never compared. */
  type Time = int

  /** The `type` column of a ledger entry written by a withdrawal. */
  const WithdrawKind: string := "withdraw"

  /** A row of the `wallets` table. */
  datatype Wallet = Wallet(id: int, userId: int, balance: Money, createdAt: Time, updatedAt: Time)

  /** A row of the `transactions` table (a ledger entry). */
  datatype Transaction = Transaction(
    id: int,
    walletId: int,
    amount: Money,
    kind: string,
    balanceBefore: Money,
    balanceAfter: Money,
    createdAt: Time)

  /** The storage calls the core makes, each of which can fail. */
  datatype Stage =
    | Read    // the plain SELECT of GetWalletByUserID
    | Begin   // db.Begin()
    | Lock    // SELECT ... FOR UPDATE inside the withdrawal
    | Update  // UPDATE wallets
    | Insert  // INSERT INTO transactions
    | Commit  // tx.Commit()

  /** The storage calls made by a withdrawal. */
  const WithdrawStages: set<Stage> := {Begin, Lock, Update, Insert, Commit}

  /**
   * The closed set of errors: the four sentinels of the Go package, and the
   * wrapped storage error of the failing call (which matches no sentinel).
   */
  datatype WalletError =
    | WalletNotFound
    | InsufficientFunds
    | InvalidAmount
    | InvalidUserID
    | StorageError(stage: Stage)

  /** The three readings of the clock a withdrawal takes, in program order. */
  datatype Clock = Clock(atUpdate: Time, atInsert: Time, atReturn: Time)

  /** What a successful withdrawal returns: the updated wallet and the new entry. */
  datatype Receipt = Receipt(wallet: Wallet, entry: Transaction)

  /** A withdrawal's result together with the store it leaves behind. */
  datatype Outcome = Outcome(result: Result<Receipt, WalletError>, wallets: map<int, Wallet>, transactions: seq<Transaction>)

  // ---------------------------------------------------------------------------
  // Store invariants
  // ---------------------------------------------------------------------------

  /** Some wallet of the table has this wallet id. */
  ghost predicate HasWalletId(wallets: map<int, Wallet>, id: int) {
    exists u :: u in wallets && wallets[u].id == id
  }

  /**
   * The table is keyed by the owning user id (user_id is unique), wallet ids
   * are unique, and no balance is negative.
   */
  ghost predicate WalletsValid(wallets: map<int, Wallet>) {
    && (forall u | u in wallets :: wallets[u].userId == u && wallets[u].balance >= 0)
    && (forall u, v | u in wallets && v in wallets && wallets[u].id == wallets[v].id :: u == v)
  }

  /** A withdrawal entry records a positive amount and a non-negative balance after it. */
  ghost predicate EntryValid(entry: Transaction) {
    entry.kind == WithdrawKind ==>
      entry.amount > 0 && entry.balanceAfter == entry.balanceBefore - entry.amount && entry.balanceAfter >= 0
  }

  /** The most recent ledger entry of the wallet with id `walletId`, if any. */
  function LastEntryFor(log: seq<Transaction>, walletId: int): Option<Transaction>
  {
    if log == [] then None
    else if log[|log| - 1].walletId == walletId then Some(log[|log| - 1])
    else LastEntryFor(log[..|log| - 1], walletId)
  }

  /** Every wallet's balance is the balance after its most recent ledger entry. */
  ghost predicate BalancesMatchLog(wallets: map<int, Wallet>, log: seq<Transaction>) {
    forall u | u in wallets ::
      LastEntryFor(log, wallets[u].id).Some? ==> LastEntryFor(log, wallets[u].id).value.balanceAfter == wallets[u].balance
  }

  /**
   * No lost update: each entry starts from the balance the previous entry of
   * the same wallet ended with.
   */
  ghost predicate Chained(log: seq<Transaction>) {
    forall j | 0 <= j < |log| ::
      LastEntryFor(log[..j], log[j].walletId).Some? ==>
        LastEntryFor(log[..j], log[j].walletId).value.balanceAfter == log[j].balanceBefore
  }

  /**
   * The store's invariant: a valid wallet table and a ledger whose entries
   * are numbered 1, 2, ... in order, refer to existing wallets, are
   * well-formed, chain up per wallet and end at each wallet's balance.
   */
  ghost predicate LedgerValid(wallets: map<int, Wallet>, log: seq<Transaction>) {
    && WalletsValid(wallets)
    && (forall i | 0 <= i < |log| :: log[i].id == i + 1 && EntryValid(log[i]) && HasWalletId(wallets, log[i].walletId))
    && BalancesMatchLog(wallets, log)
    && Chained(log)
  }

  // ---------------------------------------------------------------------------
  // Balance lookup
  // ---------------------------------------------------------------------------

  /**
   * GetWalletByUserID: rejects a non-positive user id without touching the
   * store, then reads the wallet owned by `userId`.
   */
  function GetWalletByUserID(wallets: map<int, Wallet>, userId: int, failing: set<Stage>): (r: Result<Wallet, WalletError>)
    ensures r == Failure(InvalidUserID) <==> userId <= 0
    ensures userId > 0 && Read in failing ==> r == Failure(StorageError(Read))
    ensures r.Success? <==> userId > 0 && Read !in failing && userId in wallets
    ensures r.Success? ==> r.value == wallets[userId]
    ensures r == Failure(WalletNotFound) <==> userId > 0 && Read !in failing && userId !in wallets
    ensures r.Failure? && r.error.StorageError? ==> userId > 0 && r.error.stage == Read && Read in failing
  {
    if userId <= 0 then Failure(InvalidUserID)
    else if Read in failing then Failure(StorageError(Read))
    else if userId !in wallets then Failure(WalletNotFound)
    else Success(wallets[userId])
  }

  // ---------------------------------------------------------------------------
  // Withdrawal: specification
  // ---------------------------------------------------------------------------

  /**
   * The withdrawal as one atomic step: the result it returns and the store
   * after commit (on success) or after rollback (on any error).
   */
  function WithdrawOutcome(
    wallets: map<int, Wallet>, log: seq<Transaction>,
    userId: int, amount: Money, failing: set<Stage>, clock: Clock): (o: Outcome)
    // the amount is checked first, before any storage call
    ensures o.result == Failure(InvalidAmount) <==> amount <= 0
    // a failing begin or lock-read ends the withdrawal before the wallet is looked at
    ensures amount > 0 && Begin in failing ==> o.result == Failure(StorageError(Begin))
    ensures amount > 0 && Begin !in failing && Lock in failing ==> o.result == Failure(StorageError(Lock))
    // there is no user id check: an unknown user, whatever its id, is not found
    ensures o.result == Failure(WalletNotFound) <==>
      amount > 0 && Begin !in failing && Lock !in failing && userId !in wallets
    ensures o.result == Failure(InsufficientFunds) <==>
      amount > 0 && Begin !in failing && Lock !in failing && userId in wallets && wallets[userId].balance < amount
    // past the funds check, the first failing write or the commit decides the error
    ensures amount > 0 && userId in wallets && amount <= wallets[userId].balance && Begin !in failing && Lock !in failing ==>
      && (Update in failing ==> o.result == Failure(StorageError(Update)))
      && (Update !in failing && Insert in failing ==> o.result == Failure(StorageError(Insert)))
      && (Update !in failing && Insert !in failing && Commit in failing ==> o.result == Failure(StorageError(Commit)))
    ensures amount > 0 && userId in wallets && amount <= wallets[userId].balance && o.result.Failure? ==>
      o.result.error.StorageError?
    ensures o.result.Failure? && o.result.error.StorageError? ==> o.result.error.stage in failing * WithdrawStages
    ensures o.result.Failure? ==> !o.result.error.InvalidUserID?
    // all or nothing
    ensures o.result.Failure? ==> o.wallets == wallets && o.transactions == log
    ensures o.result.Success? <==>
      amount > 0 && userId in wallets && amount <= wallets[userId].balance && failing * WithdrawStages == {}
    // on success: one wallet debited, nothing else in the table changed
    ensures o.result.Success? ==>
      && o.wallets.Keys == wallets.Keys
      && (forall v | v in wallets && v != userId :: o.wallets[v] == wallets[v])
      && o.wallets[userId] == wallets[userId].(balance := wallets[userId].balance - amount, updatedAt := clock.atUpdate)
      && o.wallets[userId].balance >= 0
    // on success: exactly one entry appended, recording the debit
    ensures o.result.Success? ==>
      && o.transactions == log + [o.result.value.entry]
      && o.result.value.entry == Transaction(|log| + 1, wallets[userId].id, amount, WithdrawKind,
                                             wallets[userId].balance, wallets[userId].balance - amount, clock.atInsert)
    // on success: the returned wallet shows the stored balance, which the entry ends with
    ensures o.result.Success? ==>
      && o.result.value.wallet == o.wallets[userId].(updatedAt := clock.atReturn)
      && o.result.value.entry.balanceAfter == o.result.value.wallet.balance
  {
    if amount <= 0 then Outcome(Failure(InvalidAmount), wallets, log)
    else if Begin in failing then Outcome(Failure(StorageError(Begin)), wallets, log)
    else if Lock in failing then Outcome(Failure(StorageError(Lock)), wallets, log)
    else if userId !in wallets then Outcome(Failure(WalletNotFound), wallets, log)
    else
      var wallet := wallets[userId];
      if wallet.balance < amount then Outcome(Failure(InsufficientFunds), wallets, log)
      else if Update in failing then Outcome(Failure(StorageError(Update)), wallets, log)
      else if Insert in failing then Outcome(Failure(StorageError(Insert)), wallets, log)
      else if Commit in failing then Outcome(Failure(StorageError(Commit)), wallets, log)
      else
        var balanceAfter := wallet.balance - amount;
        var entry := Transaction(|log| + 1, wallet.id, amount, WithdrawKind, wallet.balance, balanceAfter, clock.atInsert);
        Outcome(
          Success(Receipt(wallet.(balance := balanceAfter, updatedAt := clock.atReturn), entry)),
          wallets[userId := wallet.(balance := balanceAfter, updatedAt := clock.atUpdate)],
          log + [entry])
  }

  // ---------------------------------------------------------------------------
  // The UPDATE statement, scoped by wallet id
  // ---------------------------------------------------------------------------

  /** UPDATE wallets SET balance, updated_at WHERE id = `id`: every row with that wallet id. */
  function UpdateBalanceById(wallets: map<int, Wallet>, id: int, balance: Money, at: Time): (r: map<int, Wallet>)
    ensures r.Keys == wallets.Keys
    ensures forall u | u in wallets && wallets[u].id == id :: r[u] == wallets[u].(balance := balance, updatedAt := at)
    ensures forall u | u in wallets && wallets[u].id != id :: r[u] == wallets[u]
  {
    map u | u in wallets :: if wallets[u].id == id then wallets[u].(balance := balance, updatedAt := at) else wallets[u]
  }

  /** With unique wallet ids, the UPDATE scoped by wallet id rewrites exactly the row of that wallet. */
  lemma UpdateByIdWritesOneRow(wallets: map<int, Wallet>, userId: int, balance: Money, at: Time)
    requires WalletsValid(wallets) && userId in wallets
    ensures UpdateBalanceById(wallets, wallets[userId].id, balance, at)
         == wallets[userId := wallets[userId].(balance := balance, updatedAt := at)]
  {
    var updated := UpdateBalanceById(wallets, wallets[userId].id, balance, at);
    var expected := wallets[userId := wallets[userId].(balance := balance, updatedAt := at)];
    assert updated.Keys == expected.Keys;
    forall u | u in updated ensures updated[u] == expected[u] {
      if u != userId {
        assert wallets[u].id != wallets[userId].id;
      }
    }
  }

  // ---------------------------------------------------------------------------
  // Withdrawal: the invariant it keeps
  // ---------------------------------------------------------------------------

  /** Appending an entry makes it the last one of its wallet and leaves the others' last entries alone. */
  lemma LastEntryAfterAppend(log: seq<Transaction>, entry: Transaction, walletId: int)
    ensures LastEntryFor(log + [entry], walletId)
         == if entry.walletId == walletId then Some(entry) else LastEntryFor(log, walletId)
  {
    assert (log + [entry])[..|log|] == log;
  }

  /** Debiting one wallet by at most its balance keeps the table valid. */
  lemma DebitKeepsWalletsValid(wallets: map<int, Wallet>, userId: int, amount: Money, at: Time)
    requires WalletsValid(wallets) && userId in wallets && amount <= wallets[userId].balance
    ensures WalletsValid(wallets[userId := wallets[userId].(balance := wallets[userId].balance - amount, updatedAt := at)])
  {
    var wallets' := wallets[userId := wallets[userId].(balance := wallets[userId].balance - amount, updatedAt := at)];
    forall u | u in wallets' ensures wallets'[u].id == wallets[u].id {}
  }

  /**
   * Debiting a wallet and appending its withdraw entry keeps every entry
   * numbered in order, well-formed and pointing at an existing wallet.
   */
  lemma DebitKeepsEntriesValid(wallets: map<int, Wallet>, log: seq<Transaction>, userId: int, amount: Money, clock: Clock)
    requires LedgerValid(wallets, log) && userId in wallets && 0 < amount <= wallets[userId].balance
    ensures var wallet := wallets[userId];
            var wallets' := wallets[userId := wallet.(balance := wallet.balance - amount, updatedAt := clock.atUpdate)];
            var log' := log + [Transaction(|log| + 1, wallet.id, amount, WithdrawKind, wallet.balance, wallet.balance - amount, clock.atInsert)];
            forall i | 0 <= i < |log'| :: log'[i].id == i + 1 && EntryValid(log'[i]) && HasWalletId(wallets', log'[i].walletId)
  {
    var wallet := wallets[userId];
    var wallets' := wallets[userId := wallet.(balance := wallet.balance - amount, updatedAt := clock.atUpdate)];
    var entry := Transaction(|log| + 1, wallet.id, amount, WithdrawKind, wallet.balance, wallet.balance - amount, clock.atInsert);
    var log' := log + [entry];
    forall i | 0 <= i < |log'|
      ensures log'[i].id == i + 1 && EntryValid(log'[i]) && HasWalletId(wallets', log'[i].walletId)
    {
      if i < |log| {
        assert log'[i] == log[i];
        var u :| u in wallets && wallets[u].id == log[i].walletId;
        assert wallets'[u].id == log[i].walletId;
      } else {
        assert log'[i] == entry;
        assert wallets'[userId].id == entry.walletId;
      }
    }
  }

  /**
   * Debiting a wallet and appending its withdraw entry keeps every wallet's
   * balance equal to the closing balance of its latest entry.
   */
  lemma DebitKeepsBalancesMatched(wallets: map<int, Wallet>, log: seq<Transaction>, userId: int, amount: Money, clock: Clock)
    requires WalletsValid(wallets) && BalancesMatchLog(wallets, log) && userId in wallets
    ensures var wallet := wallets[userId];
            BalancesMatchLog(
              wallets[userId := wallet.(balance := wallet.balance - amount, updatedAt := clock.atUpdate)],
              log + [Transaction(|log| + 1, wallet.id, amount, WithdrawKind, wallet.balance, wallet.balance - amount, clock.atInsert)])
  {
    var wallet := wallets[userId];
    var wallets' := wallets[userId := wallet.(balance := wallet.balance - amount, updatedAt := clock.atUpdate)];
    var entry := Transaction(|log| + 1, wallet.id, amount, WithdrawKind, wallet.balance, wallet.balance - amount, clock.atInsert);
    forall u | u in wallets'
      ensures LastEntryFor(log + [entry], wallets'[u].id).Some? ==>
              LastEntryFor(log + [entry], wallets'[u].id).value.balanceAfter == wallets'[u].balance
    {
      LastEntryAfterAppend(log, entry, wallets'[u].id);
      if u != userId {
        assert wallets[u].id != wallet.id;
      }
    }
  }

  /** An entry that opens at its wallet's current balance extends the chain without a lost update. */
  lemma AppendKeepsChain(wallets: map<int, Wallet>, log: seq<Transaction>, userId: int, entry: Transaction)
    requires BalancesMatchLog(wallets, log) && Chained(log) && userId in wallets
    requires entry.walletId == wallets[userId].id && entry.balanceBefore == wallets[userId].balance
    ensures Chained(log + [entry])
  {
    var log' := log + [entry];
    forall j | 0 <= j < |log'|
      ensures LastEntryFor(log'[..j], log'[j].walletId).Some? ==>
              LastEntryFor(log'[..j], log'[j].walletId).value.balanceAfter == log'[j].balanceBefore
    {
      if j < |log| {
        assert log'[..j] == log[..j];
        assert log'[j] == log[j];
      } else {
        assert log'[..j] == log;
        assert log'[j] == entry;
      }
    }
  }

  /** Every withdrawal, successful or not, leaves a valid store valid. */
  lemma WithdrawPreservesLedger(
    wallets: map<int, Wallet>, log: seq<Transaction>,
    userId: int, amount: Money, failing: set<Stage>, clock: Clock)
    requires LedgerValid(wallets, log)
    ensures var o := WithdrawOutcome(wallets, log, userId, amount, failing, clock);
            LedgerValid(o.wallets, o.transactions)
  {
    var o := WithdrawOutcome(wallets, log, userId, amount, failing, clock);
    if o.result.Success? {
      DebitKeepsWalletsValid(wallets, userId, amount, clock.atUpdate);
      DebitKeepsEntriesValid(wallets, log, userId, amount, clock);
      DebitKeepsBalancesMatched(wallets, log, userId, amount, clock);
      AppendKeepsChain(wallets, log, userId, o.result.value.entry);
    }
  }

  // ---------------------------------------------------------------------------
  // Withdrawal: consequences across calls
  // ---------------------------------------------------------------------------

  /**
   * Withdrawals against one wallet are serialized: the second sees the
   * balance the first committed, so two withdrawals that fit together both
   * succeed and no debit is lost, and when only one fits, the second fails
   * with InsufficientFunds and changes nothing.
   */
  lemma SerializedWithdrawals(
    wallets: map<int, Wallet>, log: seq<Transaction>, userId: int,
    first: Money, second: Money, clock1: Clock, clock2: Clock)
    requires userId in wallets && 0 < first <= wallets[userId].balance && 0 < second <= wallets[userId].balance
    ensures var o1 := WithdrawOutcome(wallets, log, userId, first, {}, clock1);
            var o2 := WithdrawOutcome(o1.wallets, o1.transactions, userId, second, {}, clock2);
            && o1.result.Success?
            && (first + second <= wallets[userId].balance ==>
                  && o2.result.Success?
                  && o2.wallets[userId].balance == wallets[userId].balance - first - second
                  && |o2.transactions| == |log| + 2
                  && o2.transactions[|log| + 1].balanceBefore == o1.result.value.entry.balanceAfter)
            && (first + second > wallets[userId].balance ==>
                  o2.result == Failure(InsufficientFunds) && o2.wallets == o1.wallets && o2.transactions == o1.transactions)
  {
  }

  /** After a successful withdrawal, the balance lookup reports the balance the withdrawal returned. */
  lemma ReadAfterWithdraw(
    wallets: map<int, Wallet>, log: seq<Transaction>,
    userId: int, amount: Money, failing: set<Stage>, clock: Clock)
    requires userId > 0 && Read !in failing
    ensures var o := WithdrawOutcome(wallets, log, userId, amount, failing, clock);
            o.result.Success? ==>
              && GetWalletByUserID(o.wallets, userId, failing).Success?
              && GetWalletByUserID(o.wallets, userId, failing).value.balance == o.result.value.wallet.balance
  {
  }

  /**
   * A rejected withdrawal (invalid amount, unknown wallet, insufficient
   * funds) is final: retried on the store it left, with storage working,
   * it is rejected for the same reason.
   */
  lemma RejectionIsFinal(
    wallets: map<int, Wallet>, log: seq<Transaction>,
    userId: int, amount: Money, failing: set<Stage>, clock: Clock, retryClock: Clock)
    ensures var o := WithdrawOutcome(wallets, log, userId, amount, failing, clock);
            o.result.Failure? && !o.result.error.StorageError? ==>
              WithdrawOutcome(o.wallets, o.transactions, userId, amount, {}, retryClock) == o
  {
  }

  // ---------------------------------------------------------------------------
  // Withdrawal: the imperative protocol
  // ---------------------------------------------------------------------------

  /** The database: the wallet table and the transaction ledger. */
  class Store {
    var wallets: map<int, Wallet>
    var transactions: seq<Transaction>

    ghost predicate Valid()
      reads this
    {
      LedgerValid(wallets, transactions)
    }

    /** A store whose wallets (created elsewhere) and ledger are consistent. */
    constructor (initialWallets: map<int, Wallet>, initialLog: seq<Transaction>)
      requires LedgerValid(initialWallets, initialLog)
      ensures Valid()
      ensures wallets == initialWallets && transactions == initialLog
    {
      wallets := initialWallets;
      transactions := initialLog;
    }

    /**
     * Withdraw: validate the amount, begin a unit of work, lock and read the
     * wallet of `userId`, check funds, write the new balance, append the
     * ledger entry and commit; any error after the unit of work has begun
     * rolls back every write made in it.
     */
    method Withdraw(userId: int, amount: Money, failing: set<Stage>, clock: Clock)
      returns (r: Result<Receipt, WalletError>)
      requires Valid()
      modifies this
      ensures Valid()
      ensures Outcome(r, wallets, transactions)
           == WithdrawOutcome(old(wallets), old(transactions), userId, amount, failing, clock)
    {
      if amount <= 0 {
        return Failure(InvalidAmount);
      }
      if Begin in failing {
        return Failure(StorageError(Begin));
      }
      // the unit of work has begun: on any error, the deferred rollback restores these
      var savedWallets, savedLog := wallets, transactions;
      label work: {
        if Lock in failing {
          r := Failure(StorageError(Lock));
          break work;
        }
        if userId !in wallets {
          r := Failure(WalletNotFound);
          break work;
        }
        var wallet := wallets[userId];
        if wallet.balance < amount {
          r := Failure(InsufficientFunds);
          break work;
        }
        var balanceBefore := wallet.balance;
        var balanceAfter := wallet.balance - amount;
        if Update in failing {
          r := Failure(StorageError(Update));
          break work;
        }
        wallets := UpdateBalanceById(wallets, wallet.id, balanceAfter, clock.atUpdate);
        UpdateByIdWritesOneRow(savedWallets, userId, balanceAfter, clock.atUpdate);
        var entry := Transaction(|transactions| + 1, wallet.id, amount, WithdrawKind, balanceBefore, balanceAfter, clock.atInsert);
        if Insert in failing {
          r := Failure(StorageError(Insert));
          break work;
        }
        transactions := transactions + [entry];
        if Commit in failing {
          r := Failure(StorageError(Commit));
          break work;
        }
        r := Success(Receipt(wallet.(balance := balanceAfter, updatedAt := clock.atReturn), entry));
      }
      if r.Failure? {
        wallets, transactions := savedWallets, savedLog;
      }
      WithdrawPreservesLedger(savedWallets, savedLog, userId, amount, failing, clock);
    }
  }
}
