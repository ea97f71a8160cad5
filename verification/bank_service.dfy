/** The ledger service: a state machine over the account store and the
    transaction log. Every operation returns either its result together with
    the new state or an error; a failure carries no state, so a failing
    operation leaves both stores as they were. */
module BankService {
  import opened Wrappers
  import opened Errors
  import opened AccountModel
  import opened TransactionModel
  import AccountRepo
  import TransactionRepo

  /** Operation ceilings and the transfer floor. */
  datatype Config = Config(maxAmount: int, maxRequestAmount: int, maxTransferAmount: int, minBalance: int)

  /** 10^12 per deposit, withdrawal and donation, 10^11 per request, 10^12
      per transfer, and a floor of -10^9 on a sender's settled balance after
      a transfer. */
  const Defaults: Config := Config(1_000_000_000_000, 100_000_000_000, 1_000_000_000_000, -1_000_000_000)

  datatype State = State(accounts: AccountRepo.Store, log: TransactionRepo.Log)

  const Empty: State := State(map[], [])

  /** A successful operation: the new state and what the operation returns. */
  datatype Step<T> = Step(state: State, out: T)

  /** The account number of a user: the last nine characters of the id, or
      the whole id when it is shorter. Distinct ids may share a number. */
  function AccountNo(userId: string): (r: string)
    ensures |r| <= 9 && |r| <= |userId|
    ensures r == userId[|userId| - |r|..]
    ensures |userId| <= 9 ==> r == userId
    ensures |userId| > 9 ==> |r| == 9
  {
    if |userId| <= 9 then userId else userId[|userId| - 9..]
  }

  /** The account under `accountNo`, created with zero balances and `name`
      when there is none. */
  function GetOrCreateAccount(accounts: AccountRepo.Store, accountNo: string, name: string): (r: (AccountRepo.Store, Account))
    ensures accountNo in r.0 && r.1 == r.0[accountNo]
    ensures accountNo in accounts ==> r.0 == accounts
    ensures accountNo !in accounts ==>
      r.0.Keys == accounts.Keys + {accountNo}
      && (forall k :: k in accounts ==> r.0[k] == accounts[k])
      && r.1 == Fresh(accountNo, name)
  {
    match AccountRepo.Find(accounts, accountNo)
    case Some(a) => (accounts, a)
    case None =>
      var created := AccountRepo.Create(accounts, Fresh(accountNo, name)).value;
      (created, created[accountNo])
  }

  /** Registers the account of `userId` with zero balances. */
  function CreateAccount(s: State, userId: string, name: string): (r: Result<Step<Account>, BankError>)
    ensures var no := AccountNo(userId);
      && (r.Failure? <==> no in s.accounts)
      && (r.Failure? ==> r.error == AccountAlreadyExists(no))
      && (r.Success? ==>
            && r.value.state.log == s.log
            && r.value.state.accounts.Keys == s.accounts.Keys + {no}
            && (forall k :: k in s.accounts ==> r.value.state.accounts[k] == s.accounts[k])
            && r.value.out == r.value.state.accounts[no]
            && r.value.out.accountNo == no && r.value.out.name == name
            && r.value.out.amount == 0 && r.value.out.pending == 0 && r.value.out.share == 0)
  {
    var no := AccountNo(userId);
    if AccountRepo.Exists(s.accounts, no) then Failure(AccountAlreadyExists(no))
    else
      var record := Fresh(no, name);
      var accounts := AccountRepo.Create(s.accounts, record).value;
      Success(Step(State(accounts, s.log), AccountRepo.Find(accounts, no).value))
  }

  /** Settled and pending balance of the account of `userId`. */
  function GetBalance(s: State, userId: string): (r: Result<(int, int), BankError>)
    ensures var no := AccountNo(userId);
      && (r.Failure? <==> no !in s.accounts)
      && (r.Failure? ==> r.error == AccountNotFound(no))
      && (r.Success? ==> r.value == (s.accounts[no].amount, s.accounts[no].pending))
  {
    var no := AccountNo(userId);
    match AccountRepo.Find(s.accounts, no)
    case None => Failure(AccountNotFound(no))
    case Some(a) => Success((a.amount, a.pending))
  }

  /** An amount the service accepts under `ceiling`: positive and at most the ceiling. */
  predicate ValidAmount(amount: int, ceiling: int)
  {
    0 < amount <= ceiling
  }

  /** What a withdrawal or donation may still reserve: settled minus pending. */
  function Available(a: Account): int
  {
    a.amount - a.pending
  }

  /** `r` records a new pending `kind` transaction for `accountNo` under the
      next id, and moves that account's pending balance by `delta` and
      nothing else. */
  ghost predicate Opened(s: State, r: Step<Transaction>, accountNo: string, kind: string,
                         amount: int, memo: string, delta: int)
  {
    && r.state.log == s.log + [r.out]
    && r.out == Transaction(Some(|s.log| + 1), kind, accountNo, accountNo, Pending, amount, None, memo)
    && AccountRepo.Adjusted(s.accounts, r.state.accounts, accountNo, delta, 0)
  }

  /** Logs a pending `kind` transaction for `accountNo` and moves its pending
      balance by `delta`: the write half of deposit, withdraw, request and donate. */
  function Open(s: State, accountNo: string, kind: string, amount: int, memo: string, delta: int): (r: Step<Transaction>)
    ensures Opened(s, r, accountNo, kind, amount, memo, delta)
  {
    var created := TransactionRepo.Create(s.log, CreatePending(kind, accountNo, accountNo, amount, memo));
    var accounts := AccountRepo.UpdatePending(s.accounts, accountNo, delta);
    Step(State(accounts, created.log), TransactionRepo.FindById(created.log, created.id).value)
  }

  /** How a claim (deposit or request) ends, whatever order its checks run
      in: it succeeds exactly when the account exists and the amount is
      valid, opens a pending transaction raising `pending` by the amount, and
      a failing check alone determines the error. */
  ghost predicate ClaimOutcome(s: State, userId: string, amount: int, memo: string, kind: string,
                               ceiling: int, r: Result<Step<Transaction>, BankError>)
  {
    var no := AccountNo(userId);
    && (r.Success? <==> no in s.accounts && ValidAmount(amount, ceiling))
    && (r.Success? ==> Opened(s, r.value, no, kind, amount, memo, amount))
    && (r.Failure? ==> r.error == AccountNotFound(no) || r.error == InvalidAmount)
    && (no !in s.accounts && ValidAmount(amount, ceiling) ==> r == Failure(AccountNotFound(no)))
    && (no in s.accounts && !ValidAmount(amount, ceiling) ==> r == Failure(InvalidAmount))
  }

  /** How a reservation (withdraw or donate) ends, whatever order its checks
      run in: it succeeds exactly when the account exists, the amount is valid
      and does not exceed `Available`; it lowers `pending` by the amount. */
  ghost predicate ReserveOutcome(s: State, userId: string, amount: int, memo: string, kind: string,
                                 ceiling: int, r: Result<Step<Transaction>, BankError>)
  {
    var no := AccountNo(userId);
    && (r.Success? <==> no in s.accounts && ValidAmount(amount, ceiling) && amount <= Available(s.accounts[no]))
    && (r.Success? ==> Opened(s, r.value, no, kind, amount, memo, -amount))
    && (r.Failure? ==> r.error == AccountNotFound(no) || r.error == InvalidAmount || r.error == InsufficientBalance)
    && (no !in s.accounts && ValidAmount(amount, ceiling) ==> r == Failure(AccountNotFound(no)))
    && ((no in s.accounts && !ValidAmount(amount, ceiling) && amount <= Available(s.accounts[no]))
          ==> r == Failure(InvalidAmount))
    && ((no in s.accounts && ValidAmount(amount, ceiling) && amount > Available(s.accounts[no]))
          ==> r == Failure(InsufficientBalance))
  }

  /** Existence is checked before the amount, and the amount before the balance. */
  ghost predicate ChecksInOrder(s: State, userId: string, amount: int, ceiling: int,
                                r: Result<Step<Transaction>, BankError>)
  {
    var no := AccountNo(userId);
    && (no !in s.accounts ==> r == Failure(AccountNotFound(no)))
    && (no in s.accounts && !ValidAmount(amount, ceiling) ==> r == Failure(InvalidAmount))
  }

  /** Claims `amount` into the account of `userId`: a pending deposit. */
  function Deposit(c: Config, s: State, userId: string, amount: int, memo: string): (r: Result<Step<Transaction>, BankError>)
    ensures ClaimOutcome(s, userId, amount, memo, KindDeposit, c.maxAmount, r)
    ensures ChecksInOrder(s, userId, amount, c.maxAmount, r)
  {
    Claim(s, userId, amount, memo, KindDeposit, c.maxAmount)
  }

  /** Like `Deposit`, with the request ceiling and kind "request". */
  function Request(c: Config, s: State, userId: string, amount: int, memo: string): (r: Result<Step<Transaction>, BankError>)
    ensures ClaimOutcome(s, userId, amount, memo, KindRequest, c.maxRequestAmount, r)
  {
    Claim(s, userId, amount, memo, KindRequest, c.maxRequestAmount)
  }

  /** Reserves `amount` from the account of `userId`: a pending withdrawal. */
  function Withdraw(c: Config, s: State, userId: string, amount: int, memo: string): (r: Result<Step<Transaction>, BankError>)
    ensures ReserveOutcome(s, userId, amount, memo, KindWithdraw, c.maxAmount, r)
    ensures ChecksInOrder(s, userId, amount, c.maxAmount, r)
  {
    Reserve(s, userId, amount, memo, KindWithdraw, c.maxAmount)
  }

  /** Like `Withdraw`, with kind "donate". */
  function Donate(c: Config, s: State, userId: string, amount: int, memo: string): (r: Result<Step<Transaction>, BankError>)
    ensures ReserveOutcome(s, userId, amount, memo, KindDonate, c.maxAmount, r)
  {
    Reserve(s, userId, amount, memo, KindDonate, c.maxAmount)
  }

  function Claim(s: State, userId: string, amount: int, memo: string, kind: string, ceiling: int): Result<Step<Transaction>, BankError>
  {
    var no := AccountNo(userId);
    match AccountRepo.Find(s.accounts, no)
    case None => Failure(AccountNotFound(no))
    case Some(_) =>
      if !ValidAmount(amount, ceiling) then Failure(InvalidAmount)
      else Success(Open(s, no, kind, amount, memo, amount))
  }

  function Reserve(s: State, userId: string, amount: int, memo: string, kind: string, ceiling: int): Result<Step<Transaction>, BankError>
  {
    var no := AccountNo(userId);
    match AccountRepo.Find(s.accounts, no)
    case None => Failure(AccountNotFound(no))
    case Some(a) =>
      if !ValidAmount(amount, ceiling) then Failure(InvalidAmount)
      else if amount > Available(a) then Failure(InsufficientBalance)
      else Success(Open(s, no, kind, amount, memo, -amount))
  }

  /** The two-sided update approval applies to a record between two different
      accounts: the sender's pending rises and settled balance falls by
      `amount`, the receiver's the other way round. */
  function Mirror(accounts: AccountRepo.Store, from: string, to: string, amount: int): (r: AccountRepo.Store)
    requires from != to
    ensures r.Keys == accounts.Keys
    ensures from in accounts ==> r[from] == accounts[from].(
      pending := accounts[from].pending + amount, amount := accounts[from].amount - amount)
    ensures to in accounts ==> r[to] == accounts[to].(
      pending := accounts[to].pending - amount, amount := accounts[to].amount + amount)
    ensures forall k :: k in accounts && k != from && k != to ==> r[k] == accounts[k]
    ensures AccountRepo.SameTotals(accounts, r)
  {
    var debited := AccountRepo.UpdatePendingAndAmount(accounts, from, amount, -amount);
    var credited := AccountRepo.UpdatePendingAndAmount(debited, to, -amount, amount);
    MirrorSteps(accounts, debited, credited, from, to, amount);
    credited
  }

  /** Debiting `from` and then crediting `to` has exactly Mirror's effect. */
  lemma MirrorSteps(a: AccountRepo.Store, b: AccountRepo.Store, c: AccountRepo.Store,
                    from: string, to: string, amount: int)
    requires from != to
    requires AccountRepo.Adjusted(a, b, from, amount, -amount)
    requires AccountRepo.Adjusted(b, c, to, -amount, amount)
    ensures c.Keys == a.Keys
    ensures from in a ==> c[from] == a[from].(pending := a[from].pending + amount, amount := a[from].amount - amount)
    ensures to in a ==> c[to] == a[to].(pending := a[to].pending - amount, amount := a[to].amount + amount)
    ensures forall k :: k in a && k != from && k != to ==> c[k] == a[k]
    ensures AccountRepo.SameTotals(a, c)
  {
    AccountRepo.AdjustedApart(a, b, c, from, amount, -amount, to, -amount, amount);
    AccountRepo.BalancedKeepsTotals(a, b, from, amount, -amount);
    AccountRepo.BalancedKeepsTotals(b, c, to, -amount, amount);
    AccountRepo.SameTotalsTransitive(a, b, c);
  }

  /** Approval's effect on balances: a claim moves its amount from pending
      into settled, a reservation moves it back out of both, and any other
      kind between two accounts is mirrored on sender and receiver. */
  function Settle(accounts: AccountRepo.Store, t: Transaction): (r: AccountRepo.Store)
    ensures Credits(t.kind) ==> AccountRepo.Adjusted(accounts, r, t.receiver, -t.amount, t.amount)
    ensures Debits(t.kind) ==> AccountRepo.Adjusted(accounts, r, t.receiver, t.amount, -t.amount)
    ensures !Credits(t.kind) && !Debits(t.kind) && t.sender == t.receiver ==> r == accounts
    ensures r.Keys == accounts.Keys
    ensures (!Credits(t.kind) && !Debits(t.kind) && t.sender != t.receiver) ==>
      && (t.sender in accounts ==> r[t.sender] == accounts[t.sender].(
            pending := accounts[t.sender].pending + t.amount, amount := accounts[t.sender].amount - t.amount))
      && (t.receiver in accounts ==> r[t.receiver] == accounts[t.receiver].(
            pending := accounts[t.receiver].pending - t.amount, amount := accounts[t.receiver].amount + t.amount))
      && forall k :: k in accounts && k != t.sender && k != t.receiver ==> r[k] == accounts[k]
    ensures forall k :: k in accounts ==> TotalBalance(r[k]) == TotalBalance(accounts[k])
    ensures forall k :: k in accounts ==> r[k].share == accounts[k].share && r[k].name == accounts[k].name
  {
    if Credits(t.kind) then
      AccountRepo.UpdatePendingAndAmount(accounts, t.receiver, -t.amount, t.amount)
    else if Debits(t.kind) then
      AccountRepo.UpdatePendingAndAmount(accounts, t.receiver, t.amount, -t.amount)
    else if t.sender != t.receiver then
      Mirror(accounts, t.sender, t.receiver, t.amount)
    else
      accounts
  }

  /** Denial's effect on balances: only the pending delta applied at creation
      is reversed; settled balances are untouched. */
  function Revert(accounts: AccountRepo.Store, t: Transaction): (r: AccountRepo.Store)
    ensures Credits(t.kind) ==> AccountRepo.Adjusted(accounts, r, t.receiver, -t.amount, 0)
    ensures Debits(t.kind) ==> AccountRepo.Adjusted(accounts, r, t.receiver, t.amount, 0)
    ensures !Credits(t.kind) && !Debits(t.kind) ==> r == accounts
    ensures r.Keys == accounts.Keys
    ensures forall k :: k in accounts ==> r[k].amount == accounts[k].amount
  {
    if Credits(t.kind) then AccountRepo.UpdatePending(accounts, t.receiver, -t.amount)
    else if Debits(t.kind) then AccountRepo.UpdatePending(accounts, t.receiver, t.amount)
    else accounts
  }

  /** `after` is `s.log` with record `id` given `status` and `operator`, all
      its other fields and every other record unchanged. */
  ghost predicate Audited(log: TransactionRepo.Log, after: TransactionRepo.Log, id: int, status: Status, operator: string)
    requires 1 <= id <= |log|
  {
    && |after| == |log|
    && after[id - 1] == log[id - 1].(status := status, operator := Some(operator))
    && forall i :: 0 <= i < |log| && i != id - 1 ==> after[i] == log[i]
  }

  /** Settles pending transaction `id` as done. */
  function Approve(s: State, id: int, operator: string): (r: Result<State, BankError>)
    ensures TransactionRepo.FindById(s.log, id).None? ==> r == Failure(TransactionNotFound(id))
    ensures TransactionRepo.FindById(s.log, id).Some? && s.log[id - 1].status != Pending
      ==> r == Failure(InvalidTransactionStatus(id))
    ensures r.Success? <==> 1 <= id <= |s.log| && s.log[id - 1].status == Pending
    ensures r.Success? ==> Audited(s.log, r.value.log, id, Done, operator)
    ensures r.Success? ==> r.value.accounts == Settle(s.accounts, s.log[id - 1])
  {
    match TransactionRepo.FindById(s.log, id)
    case None => Failure(TransactionNotFound(id))
    case Some(t) =>
      if t.status != Pending then Failure(InvalidTransactionStatus(id))
      else Success(State(Settle(s.accounts, t), TransactionRepo.UpdateStatus(s.log, id, Done, operator)))
  }

  /** Rejects pending transaction `id`, reversing only its pending delta. */
  function Deny(s: State, id: int, operator: string): (r: Result<State, BankError>)
    ensures TransactionRepo.FindById(s.log, id).None? ==> r == Failure(TransactionNotFound(id))
    ensures TransactionRepo.FindById(s.log, id).Some? && s.log[id - 1].status != Pending
      ==> r == Failure(InvalidTransactionStatus(id))
    ensures r.Success? <==> 1 <= id <= |s.log| && s.log[id - 1].status == Pending
    ensures r.Success? ==> Audited(s.log, r.value.log, id, Denied, operator)
    ensures r.Success? ==> r.value.accounts == Revert(s.accounts, s.log[id - 1])
  {
    match TransactionRepo.FindById(s.log, id)
    case None => Failure(TransactionNotFound(id))
    case Some(t) =>
      if t.status != Pending then Failure(InvalidTransactionStatus(id))
      else Success(State(Revert(s.accounts, t), TransactionRepo.UpdateStatus(s.log, id, Denied, operator)))
  }

  /** Every check a transfer makes passes. */
  predicate TransferAllowed(c: Config, s: State, fromUser: string, toUser: string, amount: int)
  {
    var from := AccountNo(fromUser);
    && from in s.accounts
    && from != AccountNo(toUser)
    && 0 < amount <= c.maxTransferAmount
    && amount <= s.accounts[from].amount
    && s.accounts[from].amount - amount >= c.minBalance
  }

  /** Moves `amount` of settled balance from the account of `fromUser` to the
      account of `toUser` at once, creating the receiver if needed, and logs
      a transaction that is already done. */
  function Transfer(c: Config, s: State, fromUser: string, toUser: string, amount: int, memo: string)
    : (r: Result<Step<Transaction>, BankError>)
    ensures var from, to := AccountNo(fromUser), AccountNo(toUser);
      && (from !in s.accounts ==> r == Failure(AccountNotFound(from)))
      && (r.Success? <==> TransferAllowed(c, s, fromUser, toUser, amount))
      && (r.Failure? ==> r.error in {AccountNotFound(from), InvalidTransfer, InvalidAmount, InsufficientBalance})
      && ((from in s.accounts && from == to && 0 < amount <= c.maxTransferAmount
             && amount <= s.accounts[from].amount && s.accounts[from].amount - amount >= c.minBalance)
            ==> r == Failure(InvalidTransfer))
      && ((from in s.accounts && from != to && (amount <= 0 || amount > c.maxTransferAmount)
             && amount <= s.accounts[from].amount && s.accounts[from].amount - amount >= c.minBalance)
            ==> r == Failure(InvalidAmount))
      && ((from in s.accounts && from != to && 0 < amount <= c.maxTransferAmount
             && (amount > s.accounts[from].amount || s.accounts[from].amount - amount < c.minBalance))
            ==> r == Failure(InsufficientBalance))
    ensures r.Success? ==> TransferDone(s, r.value, AccountNo(fromUser), AccountNo(toUser), toUser, amount, memo)
  {
    var from, to := AccountNo(fromUser), AccountNo(toUser);
    match AccountRepo.Find(s.accounts, from)
    case None => Failure(AccountNotFound(from))
    case Some(sender) =>
      if from == to then Failure(InvalidTransfer)
      else if amount <= 0 || amount > c.maxTransferAmount then Failure(InvalidAmount)
      else if amount > sender.amount then Failure(InsufficientBalance)
      else if sender.amount - amount < c.minBalance then Failure(InsufficientBalance)
      else
        var withReceiver := GetOrCreateAccount(s.accounts, to, toUser).0;
        var debited := AccountRepo.UpdateAmount(withReceiver, from, -amount);
        var credited := AccountRepo.UpdateAmount(debited, to, amount);
        var created := TransactionRepo.Create(s.log,
          Transaction(None, KindTransfer, from, to, Done, amount, None, memo));
        Success(Step(State(credited, created.log), TransactionRepo.FindById(created.log, created.id).value))
  }

  /** A completed transfer: one done "transfer" record appended; the sender's
      settled balance down by `amount`, the receiver's (created with zero
      balances and `receiverName` if absent) up by it; nothing else changed. */
  ghost predicate TransferDone(s: State, r: Step<Transaction>, from: string, to: string,
                               receiverName: string, amount: int, memo: string)
  {
    var after := r.state.accounts;
    && r.state.log == s.log + [r.out]
    && r.out == Transaction(Some(|s.log| + 1), KindTransfer, from, to, Done, amount, None, memo)
    && after.Keys == s.accounts.Keys + {to}
    && from in s.accounts
    && after[from] == s.accounts[from].(amount := s.accounts[from].amount - amount)
    && (to in s.accounts ==> after[to] == s.accounts[to].(amount := s.accounts[to].amount + amount))
    && (to !in s.accounts ==> after[to] == Account(to, receiverName, amount, 0, 0))
    && forall k :: k in s.accounts && k != from && k != to ==> after[k] == s.accounts[k]
  }

  /** The `n` most recent non-denied transactions of the account of `userId`. */
  function PullTransactions(s: State, userId: string, n: int): (r: seq<Transaction>)
    ensures forall i :: 0 <= i < |r| ==> r[i].status != Denied && r[i] in s.log
    ensures forall i :: 0 <= i < |r| ==> r[i].sender == AccountNo(userId) || r[i].receiver == AccountNo(userId)
    ensures n >= 0 ==> |r| <= n
  {
    TransactionRepo.FindByAccount(s.log, AccountNo(userId), n)
  }

  /** Up to `limit` transactions awaiting audit, oldest first. */
  function GetPendingTransactions(s: State, limit: int): (r: seq<Transaction>)
    ensures forall i :: 0 <= i < |r| ==> r[i].status == Pending && r[i] in s.log
    ensures limit >= 0 ==> |r| <= limit
  {
    TransactionRepo.FindPending(s.log, limit)
  }
}
