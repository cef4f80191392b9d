/**
 * The HTTP handlers of the digital-wallet service
 * (handlers/wallet_handlers.go): how each request's parse outcome and the
 * store's answer become a status code and a JSON body. Routing, header
 * writing and JSON encoding are not modelled; a request parameter arrives
 * already parsed, as an Option.
 */
module Handlers {
  import opened Results
  import opened Wallets

  const StatusOK := 200
  const StatusBadRequest := 400
  const StatusNotFound := 404
  const StatusInternalServerError := 500

  /** The decoded body of POST /api/withdraw/{user_id}. */
  datatype WithdrawRequest = WithdrawRequest(amount: Money)

  /** The JSON bodies the handlers send. */
  datatype Body =
    | ErrorResponse(error: string)
    | BalanceResponse(userId: int, balance: Money)
    | WithdrawResponse(userId: int, amount: Money, balanceBefore: Money, balanceAfter: Money, transactionId: int)

  /** A status code and the body sent with it. */
  datatype Reply = Reply(status: int, body: Body)

  const InvalidUserIdReply := Reply(StatusBadRequest, ErrorResponse("Invalid user ID"))
  const InvalidBodyReply := Reply(StatusBadRequest, ErrorResponse("Invalid request body"))
  const WalletNotFoundReply := Reply(StatusNotFound, ErrorResponse("Wallet not found"))
  const InternalErrorReply := Reply(StatusInternalServerError, ErrorResponse("Internal server error"))

  // ---------------------------------------------------------------------------
  // GET /api/balance/{user_id}
  // ---------------------------------------------------------------------------

  /** The error branch of GetBalance: only a missing wallet is a 404, every other error a 500. */
  function BalanceErrorReply(e: WalletError): (r: Reply)
    ensures r.status == StatusNotFound <==> e == WalletNotFound
    ensures r.status == StatusInternalServerError <==> e != WalletNotFound
    ensures r == WalletNotFoundReply || r == InternalErrorReply
  {
    if e == WalletNotFound then WalletNotFoundReply else InternalErrorReply
  }

  /** GetBalance: the reply to a balance inquiry for the parsed `user_id` parameter. */
  function GetBalance(wallets: map<int, Wallet>, failing: set<Stage>, userParam: Option<int>): (r: Reply)
    // an unparsable id is answered without consulting the store
    ensures userParam.None? ==> r == InvalidUserIdReply
    // a parsed but non-positive id is an internal error, not a bad request
    ensures userParam.Some? && userParam.value <= 0 ==> r == InternalErrorReply
    // every error of the lookup goes through the GetBalance error table
    ensures userParam.Some? && GetWalletByUserID(wallets, userParam.value, failing).Failure? ==>
      r == BalanceErrorReply(GetWalletByUserID(wallets, userParam.value, failing).error)
    ensures userParam.Some? && userParam.value > 0 && Read in failing ==> r == InternalErrorReply
    ensures r.status == StatusOK <==>
      userParam.Some? && userParam.value > 0 && Read !in failing && userParam.value in wallets
    ensures r.status == StatusOK ==>
      r.body == BalanceResponse(wallets[userParam.value].userId, wallets[userParam.value].balance)
    ensures r.status == StatusNotFound <==>
      userParam.Some? && userParam.value > 0 && Read !in failing && userParam.value !in wallets
    ensures r.status == StatusNotFound ==> r == WalletNotFoundReply
    ensures r.status in {StatusOK, StatusBadRequest, StatusNotFound, StatusInternalServerError}
  {
    match userParam
    case None => InvalidUserIdReply
    case Some(userId) =>
      match GetWalletByUserID(wallets, userId, failing)
      case Failure(e) => BalanceErrorReply(e)
      case Success(wallet) => Reply(StatusOK, BalanceResponse(wallet.userId, wallet.balance))
  }

  // ---------------------------------------------------------------------------
  // POST /api/withdraw/{user_id}
  // ---------------------------------------------------------------------------

  /** The error branch of Withdraw: caller mistakes are 400, a missing wallet 404, the rest 500. */
  function WithdrawErrorReply(e: WalletError): (r: Reply)
    ensures r.status == StatusNotFound <==> e == WalletNotFound
    ensures r.status == StatusBadRequest <==> e == InsufficientFunds || e == InvalidAmount
    ensures r.status == StatusInternalServerError <==> e == InvalidUserID || e.StorageError?
    ensures e == InsufficientFunds ==> r.body == ErrorResponse("Insufficient funds")
    ensures e == InvalidAmount ==> r.body == ErrorResponse("Amount must be greater than 0")
    ensures r.status != StatusBadRequest ==> r == WalletNotFoundReply || r == InternalErrorReply
  {
    match e
    case WalletNotFound => WalletNotFoundReply
    case InsufficientFunds => Reply(StatusBadRequest, ErrorResponse("Insufficient funds"))
    case InvalidAmount => Reply(StatusBadRequest, ErrorResponse("Amount must be greater than 0"))
    case _ => InternalErrorReply
  }

  /** The reply to a withdrawal of `amount` once the store has answered with `result`. */
  function WithdrawReply(amount: Money, result: Result<Receipt, WalletError>): (r: Reply)
    ensures r.status == StatusOK <==> result.Success?
    ensures result.Success? ==>
      r.body == WithdrawResponse(result.value.wallet.userId, amount, result.value.entry.balanceBefore,
                                 result.value.wallet.balance, result.value.entry.id)
    ensures result.Failure? ==> r == WithdrawErrorReply(result.error)
  {
    match result
    case Failure(e) => WithdrawErrorReply(e)
    case Success(receipt) =>
      Reply(StatusOK, WithdrawResponse(receipt.wallet.userId, amount, receipt.entry.balanceBefore,
                                       receipt.wallet.balance, receipt.entry.id))
  }

  /**
   * A successful withdrawal reply is self-consistent: it reports the
   * wallet's owner, a closing balance equal to the opening balance minus the
   * requested amount and not below zero, and the id of the new ledger entry.
   */
  lemma SuccessReplyIsConsistent(
    wallets: map<int, Wallet>, log: seq<Transaction>,
    userId: int, amount: Money, failing: set<Stage>, clock: Clock)
    requires WalletsValid(wallets)
    ensures var r := WithdrawReply(amount, WithdrawOutcome(wallets, log, userId, amount, failing, clock).result);
            r.status == StatusOK ==>
              && r.body.WithdrawResponse?
              && r.body.userId == userId
              && r.body.balanceAfter == r.body.balanceBefore - r.body.amount
              && r.body.balanceAfter >= 0
              && r.body.balanceBefore == wallets[userId].balance
              && r.body.transactionId == |log| + 1
  {
  }

  /**
   * The two handlers disagree about a wallet owned by a non-positive user id:
   * the withdrawal has no user id check and debits it, while the balance
   * inquiry rejects the id and answers 500.
   */
  lemma NonPositiveOwnerCanWithdrawButNotQuery(
    wallets: map<int, Wallet>, log: seq<Transaction>, userId: int, amount: Money, clock: Clock)
    requires userId <= 0 && userId in wallets && 0 < amount <= wallets[userId].balance
    ensures WithdrawReply(amount, WithdrawOutcome(wallets, log, userId, amount, {}, clock).result).status == StatusOK
    ensures GetBalance(wallets, {}, Some(userId)) == InternalErrorReply
  {
  }

  /**
   * Withdraw: rejects an unparsable user id, then an undecodable body, and
   * only then asks the store to withdraw; the reply follows the store's answer.
   */
  method Withdraw(store: Store, userParam: Option<int>, request: Option<WithdrawRequest>, failing: set<Stage>, clock: Clock)
    returns (r: Reply)
    requires store.Valid()
    modifies store
    ensures store.Valid()
    ensures userParam.None? ==> r == InvalidUserIdReply && unchanged(store)
    ensures userParam.Some? && request.None? ==> r == InvalidBodyReply && unchanged(store)
    ensures userParam.Some? && request.Some? ==>
      var o := WithdrawOutcome(old(store.wallets), old(store.transactions), userParam.value, request.value.amount, failing, clock);
      && r == WithdrawReply(request.value.amount, o.result)
      && store.wallets == o.wallets
      && store.transactions == o.transactions
  {
    if userParam.None? {
      return InvalidUserIdReply;
    }
    if request.None? {
      return InvalidBodyReply;
    }
    var result := store.Withdraw(userParam.value, request.value.amount, failing, clock);
    r := WithdrawReply(request.value.amount, result);
  }
}
