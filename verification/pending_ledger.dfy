/** The ledger invariant: in every state the service can reach, each
    account's `pending` is the signed sum of its transactions still awaiting
    audit (+amount for a claim, -amount for a reservation). */
module PendingLedger {
  import opened Wrappers
  import opened Errors
  import opened AccountModel
  import opened TransactionModel
  import AccountRepo
  import TransactionRepo
  import opened BankService

  /** What transaction `t` contributes to the pending balance of `accountNo`. */
  function Contribution(t: Transaction, accountNo: string): int
  {
    if t.status == Pending && t.receiver == accountNo then
      if Credits(t.kind) then t.amount else if Debits(t.kind) then -t.amount else 0
    else 0
  }

  /** Signed sum of the still-pending transactions of `accountNo` in `log`. */
  function PendingSum(log: seq<Transaction>, accountNo: string): int
  {
    if |log| == 0 then 0
    else PendingSum(log[..|log| - 1], accountNo) + Contribution(log[|log| - 1], accountNo)
  }

  /** A pending transaction is a claim or a reservation on an existing account. */
  ghost predicate Awaiting(s: State, t: Transaction)
  {
    (Credits(t.kind) || Debits(t.kind)) && t.receiver in s.accounts
  }

  ghost predicate Inv(s: State)
  {
    && TransactionRepo.IdsSequential(s.log)
    && AccountRepo.KeyedByNumber(s.accounts)
    && (forall i :: 0 <= i < |s.log| && s.log[i].status == Pending ==> Awaiting(s, s.log[i]))
    && (forall k :: k in s.accounts ==> s.accounts[k].pending == PendingSum(s.log, k))
  }

  lemma PendingSumAppend(log: seq<Transaction>, t: Transaction, accountNo: string)
    ensures PendingSum(log + [t], accountNo) == PendingSum(log, accountNo) + Contribution(t, accountNo)
  {
    assert (log + [t])[..|log|] == log;
  }

  /** Replacing one record changes the sum by the difference of the two
      records' contributions. */
  lemma {:induction false} PendingSumReplace(log: seq<Transaction>, j: int, t: Transaction, accountNo: string)
    requires 0 <= j < |log|
    ensures PendingSum(log[j := t], accountNo)
         == PendingSum(log, accountNo) - Contribution(log[j], accountNo) + Contribution(t, accountNo)
    decreases |log|
  {
    var n := |log|;
    var updated := log[j := t];
    if j == n - 1 {
      assert updated[..n - 1] == log[..n - 1];
    } else {
      assert updated[..n - 1] == log[..n - 1][j := t];
      PendingSumReplace(log[..n - 1], j, t, accountNo);
    }
  }

  /** A number no pending transaction is addressed to has a zero sum. */
  lemma {:induction false} PendingSumUnreferenced(log: seq<Transaction>, accountNo: string)
    requires forall i :: 0 <= i < |log| && log[i].status == Pending ==> log[i].receiver != accountNo
    ensures PendingSum(log, accountNo) == 0
    decreases |log|
  {
    if |log| > 0 {
      PendingSumUnreferenced(log[..|log| - 1], accountNo);
    }
  }

  lemma EmptyInv()
    ensures Inv(Empty)
  {
  }

  /** Opening a pending claim or reservation keeps the invariant: the new
      record adds exactly the delta that was applied to `pending`. */
  lemma OpenKeepsInv(s: State, r: Step<Transaction>, accountNo: string, kind: string,
                     amount: int, memo: string, delta: int)
    requires Inv(s)
    requires accountNo in s.accounts
    requires (Credits(kind) && delta == amount) || (Debits(kind) && delta == -amount)
    requires Opened(s, r, accountNo, kind, amount, memo, delta)
    ensures Inv(r.state)
  {
    var s' := r.state;
    forall k | k in s'.accounts
      ensures s'.accounts[k].pending == PendingSum(s'.log, k)
    {
      PendingSumAppend(s.log, r.out, k);
    }
  }

  lemma CreateAccountKeepsInv(s: State, userId: string, name: string)
    requires Inv(s)
    requires CreateAccount(s, userId, name).Success?
    ensures Inv(CreateAccount(s, userId, name).value.state)
  {
    var s' := CreateAccount(s, userId, name).value.state;
    var no := AccountNo(userId);
    PendingSumUnreferenced(s.log, no);
  }

  lemma DepositKeepsInv(c: Config, s: State, userId: string, amount: int, memo: string)
    requires Inv(s)
    requires Deposit(c, s, userId, amount, memo).Success?
    ensures Inv(Deposit(c, s, userId, amount, memo).value.state)
  {
    OpenKeepsInv(s, Deposit(c, s, userId, amount, memo).value, AccountNo(userId), KindDeposit, amount, memo, amount);
  }

  lemma RequestKeepsInv(c: Config, s: State, userId: string, amount: int, memo: string)
    requires Inv(s)
    requires Request(c, s, userId, amount, memo).Success?
    ensures Inv(Request(c, s, userId, amount, memo).value.state)
  {
    OpenKeepsInv(s, Request(c, s, userId, amount, memo).value, AccountNo(userId), KindRequest, amount, memo, amount);
  }

  lemma WithdrawKeepsInv(c: Config, s: State, userId: string, amount: int, memo: string)
    requires Inv(s)
    requires Withdraw(c, s, userId, amount, memo).Success?
    ensures Inv(Withdraw(c, s, userId, amount, memo).value.state)
  {
    OpenKeepsInv(s, Withdraw(c, s, userId, amount, memo).value, AccountNo(userId), KindWithdraw, amount, memo, -amount);
  }

  lemma DonateKeepsInv(c: Config, s: State, userId: string, amount: int, memo: string)
    requires Inv(s)
    requires Donate(c, s, userId, amount, memo).Success?
    ensures Inv(Donate(c, s, userId, amount, memo).value.state)
  {
    OpenKeepsInv(s, Donate(c, s, userId, amount, memo).value, AccountNo(userId), KindDonate, amount, memo, -amount);
  }

  /** `after` is `before` with the contribution of the pending record `t`
      taken out of every pending balance; keys and account numbers are kept. */
  ghost predicate Withdrawn(before: AccountRepo.Store, after: AccountRepo.Store, t: Transaction)
  {
    && after.Keys == before.Keys
    && forall k :: k in before ==> && after[k].accountNo == before[k].accountNo
                                   && after[k].pending == before[k].pending - Contribution(t, k)
  }

  /** Settling a pending claim or reservation takes its contribution out of pending. */
  lemma SettleWithdrawsContribution(accounts: AccountRepo.Store, t: Transaction)
    requires t.status == Pending && (Credits(t.kind) || Debits(t.kind))
    ensures Withdrawn(accounts, Settle(accounts, t), t)
  {
    var after := Settle(accounts, t);
    forall k | k in accounts
      ensures after[k].accountNo == accounts[k].accountNo
      ensures after[k].pending == accounts[k].pending - Contribution(t, k)
    {
      if k != t.receiver {
        assert after[k] == accounts[k];
      }
    }
  }

  /** Reverting a pending claim or reservation takes its contribution out of pending. */
  lemma RevertWithdrawsContribution(accounts: AccountRepo.Store, t: Transaction)
    requires t.status == Pending && (Credits(t.kind) || Debits(t.kind))
    ensures Withdrawn(accounts, Revert(accounts, t), t)
  {
    var after := Revert(accounts, t);
    forall k | k in accounts
      ensures after[k].accountNo == accounts[k].accountNo
      ensures after[k].pending == accounts[k].pending - Contribution(t, k)
    {
      if k != t.receiver {
        assert after[k] == accounts[k];
      }
    }
  }

  /** Approving or denying record `id` removes its contribution from the sum,
      and the balance update removes the same amount from `pending`. */
  lemma AuditKeepsInv(s: State, s': State, id: int, status: Status, operator: string)
    requires Inv(s)
    requires 1 <= id <= |s.log| && s.log[id - 1].status == Pending && status != Pending
    requires Audited(s.log, s'.log, id, status, operator)
    requires Withdrawn(s.accounts, s'.accounts, s.log[id - 1])
    ensures Inv(s')
  {
    var t := s.log[id - 1];
    var t' := t.(status := status, operator := Some(operator));
    assert s'.log == s.log[id - 1 := t'];
    forall k | k in s'.accounts
      ensures s'.accounts[k].pending == PendingSum(s'.log, k)
    {
      PendingSumReplace(s.log, id - 1, t', k);
    }
  }

  lemma ApproveKeepsInv(s: State, id: int, operator: string)
    requires Inv(s)
    requires Approve(s, id, operator).Success?
    ensures Inv(Approve(s, id, operator).value)
  {
    SettleWithdrawsContribution(s.accounts, s.log[id - 1]);
    AuditKeepsInv(s, Approve(s, id, operator).value, id, Done, operator);
  }

  lemma DenyKeepsInv(s: State, id: int, operator: string)
    requires Inv(s)
    requires Deny(s, id, operator).Success?
    ensures Inv(Deny(s, id, operator).value)
  {
    RevertWithdrawsContribution(s.accounts, s.log[id - 1]);
    AuditKeepsInv(s, Deny(s, id, operator).value, id, Denied, operator);
  }

  /** A completed transfer moves only settled balances and appends a done
      record, so every pending balance still matches the log. */
  lemma TransferDoneKeepsInv(s: State, r: Step<Transaction>, from: string, to: string,
                             receiverName: string, amount: int, memo: string)
    requires Inv(s)
    requires TransferDone(s, r, from, to, receiverName, amount, memo)
    ensures Inv(r.state)
  {
    if to !in s.accounts {
      PendingSumUnreferenced(s.log, to);
    }
    forall k | k in r.state.accounts
      ensures r.state.accounts[k].pending == PendingSum(r.state.log, k)
    {
      PendingSumAppend(s.log, r.out, k);
    }
  }

  lemma TransferKeepsInv(c: Config, s: State, fromUser: string, toUser: string, amount: int, memo: string)
    requires Inv(s)
    requires Transfer(c, s, fromUser, toUser, amount, memo).Success?
    ensures Inv(Transfer(c, s, fromUser, toUser, amount, memo).value.state)
  {
    TransferDoneKeepsInv(s, Transfer(c, s, fromUser, toUser, amount, memo).value,
                         AccountNo(fromUser), AccountNo(toUser), toUser, amount, memo);
  }

  /** One call to the service, as the command layer issues it. */
  datatype Op =
    | Register(userId: string, name: string)
    | DepositOp(userId: string, amount: int, memo: string)
    | WithdrawOp(userId: string, amount: int, memo: string)
    | RequestOp(userId: string, amount: int, memo: string)
    | DonateOp(userId: string, amount: int, memo: string)
    | TransferOp(fromUser: string, toUser: string, amount: int, memo: string)
    | ApproveOp(id: int, operator: string)
    | DenyOp(id: int, operator: string)

  /** The state after `op`, or the error it raised. */
  function Apply(c: Config, s: State, op: Op): Result<State, BankError>
  {
    match op
    case Register(u, name) =>
      var r := CreateAccount(s, u, name); if r.Success? then Success(r.value.state) else Failure(r.error)
    case DepositOp(u, a, m) =>
      var r := Deposit(c, s, u, a, m); if r.Success? then Success(r.value.state) else Failure(r.error)
    case WithdrawOp(u, a, m) =>
      var r := Withdraw(c, s, u, a, m); if r.Success? then Success(r.value.state) else Failure(r.error)
    case RequestOp(u, a, m) =>
      var r := Request(c, s, u, a, m); if r.Success? then Success(r.value.state) else Failure(r.error)
    case DonateOp(u, a, m) =>
      var r := Donate(c, s, u, a, m); if r.Success? then Success(r.value.state) else Failure(r.error)
    case TransferOp(f, t, a, m) =>
      var r := Transfer(c, s, f, t, a, m); if r.Success? then Success(r.value.state) else Failure(r.error)
    case ApproveOp(id, o) => Approve(s, id, o)
    case DenyOp(id, o) => Deny(s, id, o)
  }

  /** Runs `ops` in order; a failing call leaves the state as it was. */
  function Run(c: Config, s: State, ops: seq<Op>): State
    decreases |ops|
  {
    if |ops| == 0 then s
    else
      var r := Apply(c, s, ops[0]);
      Run(c, if r.Success? then r.value else s, ops[1..])
  }

  lemma ApplyKeepsInv(c: Config, s: State, op: Op)
    requires Inv(s)
    requires Apply(c, s, op).Success?
    ensures Inv(Apply(c, s, op).value)
  {
    match op
    case Register(u, name) => CreateAccountKeepsInv(s, u, name);
    case DepositOp(u, a, m) => DepositKeepsInv(c, s, u, a, m);
    case WithdrawOp(u, a, m) => WithdrawKeepsInv(c, s, u, a, m);
    case RequestOp(u, a, m) => RequestKeepsInv(c, s, u, a, m);
    case DonateOp(u, a, m) => DonateKeepsInv(c, s, u, a, m);
    case TransferOp(f, t, a, m) => TransferKeepsInv(c, s, f, t, a, m);
    case ApproveOp(id, o) => ApproveKeepsInv(s, id, o);
    case DenyOp(id, o) => DenyKeepsInv(s, id, o);
  }

  /** From the empty ledger, any sequence of service calls yields a state in
      which every account's pending balance is the signed sum of its
      transactions awaiting audit. */
  lemma {:induction false} ReachableKeepsPendingSum(c: Config, s: State, ops: seq<Op>)
    requires Inv(s)
    ensures Inv(Run(c, s, ops))
    ensures forall k :: k in Run(c, s, ops).accounts ==>
      Run(c, s, ops).accounts[k].pending == PendingSum(Run(c, s, ops).log, k)
    decreases |ops|
  {
    if |ops| > 0 {
      var r := Apply(c, s, ops[0]);
      if r.Success? {
        ApplyKeepsInv(c, s, ops[0]);
      }
      ReachableKeepsPendingSum(c, if r.Success? then r.value else s, ops[1..]);
    }
  }

  /** The errors each call can raise; `Unauthorized` is never among them. */
  predicate MayRaise(op: Op, e: BankError)
  {
    match op
    case Register(u, _) => e == AccountAlreadyExists(AccountNo(u))
    case DepositOp(u, _, _) => e == AccountNotFound(AccountNo(u)) || e == InvalidAmount
    case RequestOp(u, _, _) => e == AccountNotFound(AccountNo(u)) || e == InvalidAmount
    case WithdrawOp(u, _, _) => e == AccountNotFound(AccountNo(u)) || e == InvalidAmount || e == InsufficientBalance
    case DonateOp(u, _, _) => e == AccountNotFound(AccountNo(u)) || e == InvalidAmount || e == InsufficientBalance
    case TransferOp(f, _, _, _) =>
      e == AccountNotFound(AccountNo(f)) || e == InvalidTransfer || e == InvalidAmount || e == InsufficientBalance
    case ApproveOp(id, _) => e == TransactionNotFound(id) || e == InvalidTransactionStatus(id)
    case DenyOp(id, _) => e == TransactionNotFound(id) || e == InvalidTransactionStatus(id)
  }

  lemma ErrorsAreDeclared(c: Config, s: State, op: Op)
    requires Apply(c, s, op).Failure?
    ensures MayRaise(op, Apply(c, s, op).error)
    ensures !Apply(c, s, op).error.Unauthorized?
    ensures Apply(c, s, op).error.AccountAlreadyExists? ==> op.Register?
  {
  }
}
