/** Properties that relate several service calls: audit round trips, the
    finality of an audit decision, and the scenarios that the service's
    tests assert. */
module RoundTrips {
  import opened Wrappers
  import opened Errors
  import opened AccountModel
  import opened TransactionModel
  import AccountRepo
  import TransactionRepo
  import opened BankService

  /** Auditing the record just appended rewrites only that record. */
  lemma AuditLast(log: TransactionRepo.Log, t: Transaction, after: TransactionRepo.Log, status: Status, operator: string)
    requires Audited(log + [t], after, |log| + 1, status, operator)
    ensures after == log + [t.(status := status, operator := Some(operator))]
  {
    var expected := log + [t.(status := status, operator := Some(operator))];
    forall i | 0 <= i < |after| ensures after[i] == expected[i] {
      if i < |log| {
        assert (log + [t])[i] == log[i];
      }
    }
  }

  /** Approving a freshly opened pending transaction returns `pending` to
      its value before the call and moves the opened amount into the settled
      balance (with the sign of `delta`); every other account is unchanged. */
  lemma OpenThenApprove(s: State, r: Step<Transaction>, no: string, kind: string,
                        amount: int, memo: string, delta: int, operator: string)
    requires no in s.accounts
    requires (Credits(kind) && delta == amount) || (Debits(kind) && delta == -amount)
    requires Opened(s, r, no, kind, amount, memo, delta)
    ensures Approve(r.state, |s.log| + 1, operator).Success?
    ensures var after := Approve(r.state, |s.log| + 1, operator).value;
      && after.accounts == s.accounts[no := s.accounts[no].(amount := s.accounts[no].amount + delta)]
      && after.log == s.log + [r.out.(status := Done, operator := Some(operator))]
  {
    var id := |s.log| + 1;
    assert r.state.log[id - 1] == r.out;
    var after := Approve(r.state, id, operator).value;
    assert after.accounts == Settle(r.state.accounts, r.out);
    if Credits(kind) {
      assert AccountRepo.Adjusted(r.state.accounts, after.accounts, no, -amount, amount);
      AccountRepo.AdjustedTwice(s.accounts, r.state.accounts, after.accounts, no, amount, 0, -amount, amount);
    } else {
      assert AccountRepo.Adjusted(r.state.accounts, after.accounts, no, amount, -amount);
      AccountRepo.AdjustedTwice(s.accounts, r.state.accounts, after.accounts, no, -amount, 0, amount, -amount);
    }
    AuditLast(s.log, r.out, after.log, Done, operator);
  }

  /** Denying a freshly opened pending transaction restores every account. */
  lemma OpenThenDeny(s: State, r: Step<Transaction>, no: string, kind: string,
                     amount: int, memo: string, delta: int, operator: string)
    requires no in s.accounts
    requires (Credits(kind) && delta == amount) || (Debits(kind) && delta == -amount)
    requires Opened(s, r, no, kind, amount, memo, delta)
    ensures Deny(r.state, |s.log| + 1, operator).Success?
    ensures var after := Deny(r.state, |s.log| + 1, operator).value;
      && after.accounts == s.accounts
      && after.log == s.log + [r.out.(status := Denied, operator := Some(operator))]
  {
    var id := |s.log| + 1;
    assert r.state.log[id - 1] == r.out;
    var after := Deny(r.state, id, operator).value;
    assert after.accounts == Revert(r.state.accounts, r.out);
    if Credits(kind) {
      AccountRepo.AdjustedTwice(s.accounts, r.state.accounts, after.accounts, no, amount, 0, -amount, 0);
    } else {
      AccountRepo.AdjustedTwice(s.accounts, r.state.accounts, after.accounts, no, -amount, 0, amount, 0);
    }
    AuditLast(s.log, r.out, after.log, Denied, operator);
  }

  /** Deposit n, then approve: pending as before, settled balance up by n. */
  lemma DepositThenApprove(c: Config, s: State, userId: string, n: int, memo: string, operator: string)
    requires Deposit(c, s, userId, n, memo).Success?
    ensures var s1 := Deposit(c, s, userId, n, memo).value.state;
      && Approve(s1, |s.log| + 1, operator).Success?
      && var before, after := GetBalance(s, userId), GetBalance(Approve(s1, |s.log| + 1, operator).value, userId);
         before.Success? && after == Success((before.value.0 + n, before.value.1))
  {
    OpenThenApprove(s, Deposit(c, s, userId, n, memo).value, AccountNo(userId), KindDeposit, n, memo, n, operator);
  }

  /** Deposit n, then deny: every account exactly as before the deposit. */
  lemma DepositThenDeny(c: Config, s: State, userId: string, n: int, memo: string, operator: string)
    requires Deposit(c, s, userId, n, memo).Success?
    ensures var s1 := Deposit(c, s, userId, n, memo).value.state;
      Deny(s1, |s.log| + 1, operator).Success? && Deny(s1, |s.log| + 1, operator).value.accounts == s.accounts
  {
    OpenThenDeny(s, Deposit(c, s, userId, n, memo).value, AccountNo(userId), KindDeposit, n, memo, n, operator);
  }

  /** Withdraw n, then approve: pending as before, settled balance down by n. */
  lemma WithdrawThenApprove(c: Config, s: State, userId: string, n: int, memo: string, operator: string)
    requires Withdraw(c, s, userId, n, memo).Success?
    ensures var s1 := Withdraw(c, s, userId, n, memo).value.state;
      && Approve(s1, |s.log| + 1, operator).Success?
      && var before, after := GetBalance(s, userId), GetBalance(Approve(s1, |s.log| + 1, operator).value, userId);
         before.Success? && after == Success((before.value.0 - n, before.value.1))
  {
    OpenThenApprove(s, Withdraw(c, s, userId, n, memo).value, AccountNo(userId), KindWithdraw, n, memo, -n, operator);
  }

  /** Withdraw n, then deny: every account exactly as before the withdrawal. */
  lemma WithdrawThenDeny(c: Config, s: State, userId: string, n: int, memo: string, operator: string)
    requires Withdraw(c, s, userId, n, memo).Success?
    ensures var s1 := Withdraw(c, s, userId, n, memo).value.state;
      Deny(s1, |s.log| + 1, operator).Success? && Deny(s1, |s.log| + 1, operator).value.accounts == s.accounts
  {
    OpenThenDeny(s, Withdraw(c, s, userId, n, memo).value, AccountNo(userId), KindWithdraw, n, memo, -n, operator);
  }

  /** Request n, then deny: pending back to its value before the request,
      and the record is marked denied. */
  lemma RequestThenDeny(c: Config, s: State, userId: string, n: int, memo: string, operator: string)
    requires Request(c, s, userId, n, memo).Success?
    ensures var s1 := Request(c, s, userId, n, memo).value.state;
      && Deny(s1, |s.log| + 1, operator).Success?
      && var s2 := Deny(s1, |s.log| + 1, operator).value;
         s2.accounts == s.accounts && TransactionRepo.FindById(s2.log, |s.log| + 1).value.status == Denied
  {
    OpenThenDeny(s, Request(c, s, userId, n, memo).value, AccountNo(userId), KindRequest, n, memo, n, operator);
  }

  /** Donate n, then approve: pending as before, settled balance down by n. */
  lemma DonateThenApprove(c: Config, s: State, userId: string, n: int, memo: string, operator: string)
    requires Donate(c, s, userId, n, memo).Success?
    ensures var s1 := Donate(c, s, userId, n, memo).value.state;
      && Approve(s1, |s.log| + 1, operator).Success?
      && var before, after := GetBalance(s, userId), GetBalance(Approve(s1, |s.log| + 1, operator).value, userId);
         before.Success? && after == Success((before.value.0 - n, before.value.1))
  {
    OpenThenApprove(s, Donate(c, s, userId, n, memo).value, AccountNo(userId), KindDonate, n, memo, -n, operator);
  }

  /** An audit decision is final: once record `id` is denied, approving or
      denying it again fails with InvalidTransactionStatus. */
  lemma DenialIsFinal(s: State, id: int, operator: string, again: string)
    requires Deny(s, id, operator).Success?
    ensures Deny(Deny(s, id, operator).value, id, again) == Failure(InvalidTransactionStatus(id))
    ensures Approve(Deny(s, id, operator).value, id, again) == Failure(InvalidTransactionStatus(id))
  {
  }

  /** Once record `id` is approved, approving or denying it again fails. */
  lemma ApprovalIsFinal(s: State, id: int, operator: string, again: string)
    requires Approve(s, id, operator).Success?
    ensures Approve(Approve(s, id, operator).value, id, again) == Failure(InvalidTransactionStatus(id))
    ensures Deny(Approve(s, id, operator).value, id, again) == Failure(InvalidTransactionStatus(id))
  {
  }

  /** Approval moves funds between `pending` and `amount` without changing
      any account's total balance. */
  lemma ApproveKeepsTotalBalance(s: State, id: int, operator: string)
    requires Approve(s, id, operator).Success?
    ensures var after := Approve(s, id, operator).value.accounts;
      after.Keys == s.accounts.Keys
      && forall k :: k in s.accounts ==> TotalBalance(after[k]) == TotalBalance(s.accounts[k])
  {
  }

  /** `PullTransactions` lists the account's most recent non-denied records,
      newest first: any such record it leaves out is older than all it lists. */
  lemma PullIsNewestFirst(s: State, userId: string, n: int)
    requires TransactionRepo.IdsSequential(s.log)
    ensures TransactionRepo.Descending(PullTransactions(s, userId, n))
    ensures forall t :: (t in s.log && TransactionRepo.IsVisibleTo(AccountNo(userId), t)
                         && t !in PullTransactions(s, userId, n)) ==>
      n >= 0 && |PullTransactions(s, userId, n)| == n
      && forall j :: 0 <= j < n ==> TransactionRepo.Key(PullTransactions(s, userId, n)[j]) > TransactionRepo.Key(t)
  {
    TransactionRepo.FindByAccountIsNewestFirst(s.log, AccountNo(userId), n);
  }

  /** Register "1234567890" (account "234567890"), deposit 1000: pending
      1000, settled 0; approve record 1: pending 0, settled 1000. */
  lemma RegisterDepositApproveScenario()
    ensures AccountNo("1234567890") == "234567890"
    ensures var s1 := CreateAccount(Empty, "1234567890", "Alice");
      && s1.Success?
      && var s2 := Deposit(Defaults, s1.value.state, "1234567890", 1000, "");
      && s2.Success? && s2.value.out.status == Pending && s2.value.out.id == Some(1)
      && GetBalance(s2.value.state, "1234567890") == Success((0, 1000))
      && var s3 := Approve(s2.value.state, 1, "admin");
      && s3.Success? && GetBalance(s3.value, "1234567890") == Success((1000, 0))
  {
    var no := "234567890";
    assert AccountNo("1234567890") == no;
    var s1 := CreateAccount(Empty, "1234567890", "Alice");
    assert s1.value.state.accounts == map[no := Fresh(no, "Alice")];
    var s2 := Deposit(Defaults, s1.value.state, "1234567890", 1000, "");
    assert s2.value.state.accounts[no] == Fresh(no, "Alice").(pending := 1000);
    DepositThenApprove(Defaults, s1.value.state, "1234567890", 1000, "", "admin");
  }

  /** The deposit ceiling is inclusive: 10^12 is accepted, 10^12 + 1 is not. */
  lemma DepositCeilingScenario(s: State, userId: string)
    requires AccountNo(userId) in s.accounts
    ensures Deposit(Defaults, s, userId, 1_000_000_000_000, "").Success?
    ensures Deposit(Defaults, s, userId, 1_000_000_000_001, "") == Failure(InvalidAmount)
    ensures Request(Defaults, s, userId, 100_000_000_000, "").Success?
    ensures Request(Defaults, s, userId, 100_000_000_001, "") == Failure(InvalidAmount)
  {
  }

  /** Withdrawing 1000 from a settled balance of 500 fails and changes nothing. */
  lemma InsufficientWithdrawScenario(s: State, userId: string)
    requires AccountNo(userId) in s.accounts
    requires s.accounts[AccountNo(userId)].amount == 500 && s.accounts[AccountNo(userId)].pending == 0
    ensures Withdraw(Defaults, s, userId, 1000, "") == Failure(InsufficientBalance)
    ensures Donate(Defaults, s, userId, 1000, "") == Failure(InsufficientBalance)
  {
  }

  /** The available balance subtracts `pending`, so a pending withdrawal makes
      more, not less, available: from a settled 1000, two withdrawals of 1000
      are both accepted, and approving both leaves the account at -1000. */
  lemma SecondWithdrawalStillAccepted(s: State, userId: string)
    requires AccountNo(userId) in s.accounts
    requires s.accounts[AccountNo(userId)].amount == 1000 && s.accounts[AccountNo(userId)].pending == 0
    ensures var w1 := Withdraw(Defaults, s, userId, 1000, "");
      && w1.Success?
      && var w2 := Withdraw(Defaults, w1.value.state, userId, 1000, "");
      && w2.Success?
      && var a1 := Approve(w2.value.state, |s.log| + 1, "admin");
      && a1.Success?
      && var a2 := Approve(a1.value, |s.log| + 2, "admin");
      && a2.Success? && GetBalance(a2.value, userId) == Success((-1000, 0))
  {
    var no := AccountNo(userId);
    var acct := s.accounts[no];
    var w1 := Withdraw(Defaults, s, userId, 1000, "");
    assert Opened(s, w1.value, no, KindWithdraw, 1000, "", -1000);
    assert w1.value.state.accounts[no] == acct.(pending := -1000);
    var w2 := Withdraw(Defaults, w1.value.state, userId, 1000, "");
    assert Opened(w1.value.state, w2.value, no, KindWithdraw, 1000, "", -1000);
    assert w2.value.state.accounts[no] == acct.(pending := -2000);
    assert w2.value.state.log[|s.log|] == w1.value.out;
    assert w2.value.state.log[|s.log| + 1] == w2.value.out;
    var a1 := Approve(w2.value.state, |s.log| + 1, "admin");
    assert AccountRepo.Adjusted(w2.value.state.accounts, a1.value.accounts, no, 1000, -1000);
    assert a1.value.accounts[no] == acct.(pending := -1000, amount := 0);
    assert a1.value.log[|s.log| + 1] == w2.value.out;
    var a2 := Approve(a1.value, |s.log| + 2, "admin");
    assert AccountRepo.Adjusted(a1.value.accounts, a2.value.accounts, no, 1000, -1000);
  }

  /** A transfer between two registered accounts moves settled funds at once
      and logs a done record. */
  lemma TransferScenario(s: State)
    requires AccountNo("1111111111") in s.accounts && AccountNo("2222222222") in s.accounts
    requires s.accounts[AccountNo("1111111111")].amount == 10000
    requires s.accounts[AccountNo("2222222222")].amount == 0
    ensures var r := Transfer(Defaults, s, "1111111111", "2222222222", 5000, "test");
      && r.Success? && r.value.out.status == Done && r.value.out.kind == KindTransfer
      && r.value.state.accounts[AccountNo("1111111111")].amount == 5000
      && r.value.state.accounts[AccountNo("2222222222")].amount == 5000
    ensures Transfer(Defaults, s, "1111111111", "1111111111", 100, "") == Failure(InvalidTransfer)
  {
    var from, to := "111111111", "222222222";
    assert AccountNo("1111111111") == from;
    assert AccountNo("2222222222") == to;
    assert TransferAllowed(Defaults, s, "1111111111", "2222222222", 5000);
    var r := Transfer(Defaults, s, "1111111111", "2222222222", 5000, "test");
    assert TransferDone(s, r.value, from, to, "2222222222", 5000, "test");
  }

  /** The transfer ceiling is inclusive: 10^12 is accepted, 10^12 + 1 fails
      with InvalidAmount even when the sender could cover it. */
  lemma TransferCeilingScenario(s: State)
    requires AccountNo("1111111111") in s.accounts
    requires s.accounts[AccountNo("1111111111")].amount == 3_000_000_000_000
    ensures Transfer(Defaults, s, "1111111111", "2222222222", 1_000_000_000_000, "").Success?
    ensures Transfer(Defaults, s, "1111111111", "2222222222", 1_000_000_000_001, "") == Failure(InvalidAmount)
  {
    assert AccountNo("1111111111") == "111111111";
    assert AccountNo("2222222222") == "222222222";
    assert TransferAllowed(Defaults, s, "1111111111", "2222222222", 1_000_000_000_000);
  }
}
