# Digital wallet: a Dafny model of the withdrawal core

This project models the core of a small wallet service written in Go. It has two parts.

- **The store.** One wallet per user (`wallets` table) and an append-only ledger of transactions (`transactions` table). Two operations use it:
  - the balance lookup `GetWalletByUserID`;
  - the atomic withdrawal `Withdraw`. It first rejects a non-positive amount, before any storage call. Then, in one database transaction, it locks and reads the user's wallet, checks funds, writes the new balance, appends one `"withdraw"` ledger entry and commits. Any error after the transaction has begun rolls back every write made in it.
- **The HTTP handlers.** `GetBalance` and `Withdraw` turn a parsed request and the store's answer into a status code and a JSON body.

Files:

- `results.dfy`: module `Results`, the `Option` and `Result` types that stand in for Go's `(value, error)` returns.
- `wallet.dfy`: module `Wallets`, modelling `models/wallet.go`. It holds the two row types, the closed error set, the store invariant `LedgerValid`, the lookup, and the pure specification `WithdrawOutcome` of a withdrawal. It also holds class `Store`, whose `Withdraw` method carries out the protocol step by step on a `map` of wallets and a `seq` of entries, and proves that it meets `WithdrawOutcome`.
- `wallet_handlers.dfy`: module `Handlers`, modelling `handlers/wallet_handlers.go`. It holds the error-to-status tables, the reply functions and the withdraw handler, which calls `Store.Withdraw`.

Modelling choices:

- Money is an `int` in minor units (cents), so all arithmetic is exact.
- A storage failure is a parameter. `failing` is the set of storage calls (`Read`, `Begin`, `Lock`, `Update`, `Insert`, `Commit`) that return an error in this run. Each such failure becomes `StorageError(stage)`, which matches none of the four sentinel errors.
- The three `time.Now()` readings of a withdrawal are a `Clock` parameter.
- The id the database assigns to a new ledger entry is the entry's position in the ledger, counted from 1.
- The table is a map keyed by user id, because `user_id` is unique. The `UPDATE ... WHERE id = $3` statement is modelled as it is written: it rewrites every row carrying that wallet id (`UpdateBalanceById`). `UpdateByIdWritesOneRow` proves that, with unique wallet ids, this is exactly the one wallet that was read.

Two behaviours of the code around non-positive user ids, which the model keeps as written:

- `Withdraw` has no check for a user id ≤ 0 (models/wallet.go:69-109). Such an id with a positive amount reaches the lookup like any other: it fails with `WalletNotFound` when no wallet has that user id, and is debited when one does.
- `GetBalance` answers 500, not 400, for a user id ≤ 0. `GetWalletByUserID` returns `ErrInvalidUserID` for it, and the handler maps every error except `ErrWalletNotFound` to 500 (handlers/wallet_handlers.go:53-61). So a wallet owned by a user id ≤ 0 can be withdrawn from but its balance cannot be queried (`NonPositiveOwnerCanWithdrawButNotQuery`).

## Model

| member | source | states |
|---|---|---|
| `Wallets.GetWalletByUserID` | models/wallet.go:38-66 | `InvalidUserID` comes back exactly when the user id is ≤ 0, whatever the store holds and whether it works. A positive id with a failing read gives `StorageError(Read)`. Otherwise the result is a success exactly when the read works and the user has a wallet, and then it is that user's wallet unchanged. `WalletNotFound` comes back exactly when the read works and there is no wallet. A storage error comes only from a failing read. |
| `Wallets.WithdrawOutcome` | models/wallet.go:69-164 | `InvalidAmount` comes back exactly when the amount is ≤ 0, even for an unknown user. With a positive amount, a failing begin gives `StorageError(Begin)` and then a failing lock-read `StorageError(Lock)`. `WalletNotFound` comes back exactly when the amount is positive, begin and lock work, and the user (any id, no user-id check) has no wallet. `InsufficientFunds` comes back exactly when the same holds except that the wallet exists with a balance below the amount. Past the funds check, every failure is a storage error: the first failing call of update, insert and commit. `InvalidUserID` never comes back. Every failure leaves wallets and ledger exactly as they were. Success holds exactly when the amount is positive, the wallet exists, the amount is at most its balance and no storage call fails. On success: only that wallet changes; its balance becomes old − amount ≥ 0; exactly one entry is appended (id, wallet id, amount, `"withdraw"`, before = old, after = old − amount); the returned wallet carries the new stored balance, which is the entry's balance after. |
| `Wallets.UpdateBalanceById` | models/wallet.go:115-120 | The `UPDATE` scoped by wallet id: every row whose wallet id matches gets the new `balance` and `updated_at`, every other row stays as it was, and no row is added or removed. Its partner `UpdateByIdWritesOneRow` shows that with unique wallet ids this is exactly the one wallet that was read. |
| `Wallets.UpdateByIdWritesOneRow` | models/wallet.go:115-123 | With unique wallet ids, the update scoped by wallet id changes exactly the row of the wallet that was read, and no other. |
| `Wallets.LastEntryAfterAppend` | models/wallet.go:135-148 | Appending an entry makes it the latest entry of its wallet and leaves every other wallet's latest entry unchanged. |
| `Wallets.DebitKeepsWalletsValid` | models/wallet.go:107-123 | Debiting one wallet by at most its balance keeps the table valid: rows still keyed by owner, wallet ids still unique, no balance negative. |
| `Wallets.DebitKeepsEntriesValid` | models/wallet.go:126-148 | After the debit and the append, every entry is still numbered by its position, still well-formed and still refers to an existing wallet. This includes the new `"withdraw"` entry, which closes at opening − amount ≥ 0. |
| `Wallets.DebitKeepsBalancesMatched` | models/wallet.go:111-148 | After the debit and the append, every wallet's balance is still the closing balance of its latest entry: the new entry for the debited wallet, the unchanged latest entry for the others. |
| `Wallets.AppendKeepsChain` | models/wallet.go:107-148 | An entry that opens at its wallet's current balance keeps the ledger chained: every entry opens at the balance its wallet's previous entry closed with. |
| `Wallets.WithdrawPreservesLedger` | models/wallet.go:69-164 | Every withdrawal keeps the store invariant, whether it succeeds or fails. The invariant: wallets keyed by owner; unique wallet ids; no negative balance; entries numbered in order; each entry refers to an existing wallet; a withdraw entry closes at opening − amount ≥ 0; each entry opens at the balance its wallet's previous entry closed with; each wallet's balance is its latest entry's closing balance. |
| `Wallets.SerializedWithdrawals` | models/wallet.go:82-112 | Two withdrawals in a row on one wallet, both amounts positive and each at most its balance, with no storage call failing. If they fit together, both succeed, the final balance is B − a1 − a2, and the second entry opens where the first closed (no lost update). If they do not, the second fails with `InsufficientFunds` and changes nothing. |
| `Wallets.ReadAfterWithdraw` | models/wallet.go:58-65 | For a positive user id and a working read: after a successful withdrawal, the balance lookup for that user succeeds and reports the balance the withdrawal returned. |
| `Wallets.RejectionIsFinal` | models/wallet.go:71-109 | A withdrawal rejected with `InvalidAmount`, `WalletNotFound` or `InsufficientFunds` gives the same result and the same store when retried on the store it left, with working storage. |
| `Wallets.Store.Withdraw` | models/wallet.go:69-164 | The step-by-step protocol: validate the amount, begin, lock-read, check funds, update by wallet id, append the entry, commit, and roll back every write on any error after begin. It keeps `Valid()`, and its result and new store equal `WithdrawOutcome` of the old store. |
| `Handlers.BalanceErrorReply` | handlers/wallet_handlers.go:53-61 | `WalletNotFound` maps to 404 "Wallet not found". Every other error, `InvalidUserID` included, maps to 500 "Internal server error". |
| `Handlers.GetBalance` | handlers/wallet_handlers.go:37-72 | An unparsable id gives 400 "Invalid user ID" without the store being read. Every lookup error goes through `BalanceErrorReply`: a parsed id ≤ 0 and a failing read give 500 "Internal server error", and a 404 is always "Wallet not found". The reply is 200 exactly when the id is positive, the read works and the user has a wallet, and then the body carries that wallet's `user_id` and `balance`. It is 404 exactly when the id is positive, the read works and there is no wallet. |
| `Handlers.WithdrawErrorReply` | handlers/wallet_handlers.go:99-113 | `WalletNotFound` maps to 404. `InsufficientFunds` maps to 400 "Insufficient funds" and `InvalidAmount` to 400 "Amount must be greater than 0". Everything else maps to 500. Each of these holds in both directions. |
| `Handlers.WithdrawReply` | handlers/wallet_handlers.go:98-126 | The reply is 200 exactly when the store succeeded. Its body then holds the wallet's owner, the requested amount, the entry's balance before, the wallet's balance and the entry's id. A failure goes through `WithdrawErrorReply`. |
| `Handlers.SuccessReplyIsConsistent` | handlers/wallet_handlers.go:118-126 | For a valid wallet table (rows keyed by owner), a 200 withdraw reply names the requesting user. Its balance after equals its balance before minus its amount and is ≥ 0, its balance before is the wallet's stored balance, and its transaction id is the new ledger entry's. |
| `Handlers.NonPositiveOwnerCanWithdrawButNotQuery` | handlers/wallet_handlers.go:52-61 | For a wallet owned by a user id ≤ 0 and an amount within its balance, the withdraw reply is 200, while the balance reply for the same id is 500 "Internal server error". |
| `Handlers.Withdraw` | handlers/wallet_handlers.go:75-128 | An unparsable user id gives 400 "Invalid user ID" and a body that does not decode gives 400 "Invalid request body". In both cases the store is unchanged and is never called. Otherwise the store makes exactly the change `WithdrawOutcome` describes, and the reply is `WithdrawReply` of its result. |

## Left out

- SQL text, `database/sql`, `SELECT ... FOR UPDATE` row locking and concurrent interleavings: each withdrawal is one atomic method call, and serialization is stated for withdrawals run one after the other (`SerializedWithdrawals`).
- Context cancellation and lock timeouts: only a failing storage call stands for them (`StorageError(Lock)` and the rest).
- `float64` money (models/wallet.go:14, 23): amounts are exact integers in minor units, so rounding drift is not modelled.
- `time.Now()` (models/wallet.go:120, 132, 161): the three readings are the `Clock` parameter and are only stored.
- Ledger ids from the database sequence (`RETURNING id`, models/wallet.go:138): the model numbers entries by position, so the gaps a rolled-back insert leaves in a real sequence are not modelled.
- A commit that fails after the server has committed: a failed commit is modelled as a full rollback.
- Error texts of the sentinels and of wrapped storage errors (models/wallet.go:31-34, 62, 78, 103, 122, 151, 156): errors are compared by variant, as `errors.Is` does.
- `strconv.ParseInt`, `mux.Vars` and JSON decoding: each arrives as an `Option` (`None` when parsing fails), so the 64-bit range of ids and a body whose `amount` is missing (which decodes to 0) are the parser's business.
- JSON encoding, the `Content-Type` header and the writes to `http.ResponseWriter`: a reply is a status and a body value.
- database/db.go (environment reading, connection opening, ping) and main.go (router, health endpoint, server start) are not part of this model.
- Wallet creation and deposits: the source has neither. `Store`'s constructor accepts any wallets and ledger that satisfy `LedgerValid`.
