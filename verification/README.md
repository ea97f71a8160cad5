# Ledger core of the TeaBank bot, in Dafny

This project models the ledger behind a community bank bot. Member accounts
hold a settled balance (`amount`) and a net unsettled delta (`pending`).
Deposits, requests, withdrawals and donations open *pending* transactions
that move only `pending`. An auditor then approves a pending transaction,
which settles it into `amount`, or denies it, which reverses its pending
delta. A transfer moves settled funds at once and is logged as already done.

The model has three layers.

- `AccountRepo` is the account store: a `map<string, Account>` keyed by account number.
- `TransactionRepo` is the append-only log: a `seq<Transaction>` in which id `n` sits at index `n - 1`.
- `BankService` is the service. Each operation is a pure function over `State = (accounts, log)`. It returns either `Success(Step(newState, output))` or `Failure(BankError)`.

`Errors.BankError` is the closed error taxonomy. `PendingLedger` states the
ledger invariant and proves that every service operation preserves it: in
every reachable state, each account's `pending` equals the signed sum of its
still-pending transactions (+amount for a deposit or request, −amount for a
withdrawal or donation). `RoundTrips` proves the audit round trips and the
finality of audit decisions. It also proves the concrete scenarios that the
service's tests assert.

A failure carries no state. The source runs every check of `create_account`,
`deposit`, `withdraw` and `approve_transaction` before its first write. So
"a failing call leaves both stores unchanged" holds in the model by
construction: the caller keeps its old state.

Constants:

- ceiling per deposit, withdrawal and donation: 10^12;
- ceiling per request: 10^11;
- ceiling per transfer: 10^12;
- transfer floor on the sender's settled balance: −10^9.

These come from `config/settings.py:29-32` and the service's `max_amount`
default (`src/services/bank_service.py:25`). They are bundled as `BankService.Defaults`, and every operation
takes its `Config` as a parameter.

Withdraw's sufficiency check is modelled exactly as written:
`available = amount - pending` (`src/services/bank_service.py:240`). A
pending withdrawal makes `pending` negative, and so makes *more* funds
available. `RoundTrips.SecondWithdrawalStillAccepted` shows the effect. From
a settled 1000, two withdrawals of 1000 are both accepted, and approving
both leaves the account at −1000. The test comment at
`tests/test_bank_service_withdraw.py:159` computes "1000 - 200 = 800", but
the call it asserts succeeds under either reading. The model therefore does
not claim that `amount + pending` stays non-negative.

Request, donate, transfer and deny are specified by what
`tests/test_bank_service_remaining.py` and
`tests/test_bank_service_transfer.py` assert. Where those tests leave the
check order open, so does the contract.

- An operation succeeds exactly when all of its checks pass. When a single check fails, that check alone determines the error. Any other failure is one of the operation's declared error kinds.
- Request checks the account first, then the amount, as deposit does. Donate checks as withdraw does. Transfer checks the sender, then that the two accounts differ, then the amount, then the balance, then the floor. Deny checks as approve does.
- The transfer contract promises only one part of that order: a missing sender always yields AccountNotFound.

## Model

| member | source | states |
|---|---|---|
| BankService.AccountNo | src/services/bank_service.py:41-51 | the account number is a suffix of the user id of length at most 9: the whole id when it has at most 9 characters, otherwise exactly its last 9 |
| BankService.GetOrCreateAccount | src/services/bank_service.py:53-81 | the returned record is the one stored under the number; an existing account leaves the store untouched, a missing one is added with zero balances and the given name, all others kept |
| BankService.CreateAccount | src/services/bank_service.py:97-116 | fails with AccountAlreadyExists exactly when the derived number is present; otherwise adds exactly one account with that number, the name and zero amount, pending and share, and leaves the log alone |
| BankService.GetBalance | src/services/bank_service.py:131-137 | AccountNotFound exactly when the derived number is absent, otherwise the pair (amount, pending) of that account |
| BankService.Open | src/services/bank_service.py:179-195 | one pending record with sender = receiver = the account is appended under the next id and returned, and only that account's pending moves by the delta |
| BankService.Deposit | src/services/bank_service.py:159-195 | AccountNotFound for a missing account whatever the amount; else InvalidAmount unless 0 < amount <= ceiling (the ceiling itself accepted); success exactly then, appending a pending "deposit" and raising pending only |
| BankService.Withdraw | src/services/bank_service.py:218-262 | same existence and amount checks as deposit, then InsufficientBalance exactly when amount > amount − pending; on success a pending "withdraw" lowers pending by the amount, settled balance unchanged |
| BankService.Request | tests/test_bank_service_remaining.py:47-98 | succeeds exactly when the account exists and 0 < amount <= 10^11; a pending "request" raises pending only; a lone failing check gives its own error |
| BankService.Donate | tests/test_bank_service_remaining.py:101-144 | behaves as withdraw with kind "donate": success exactly when the account exists, the amount is valid and does not exceed amount − pending; lowers pending only |
| BankService.Mirror | src/services/bank_service.py:310-323 | between two different accounts, the sender's pending rises and settled balance falls by the amount, the receiver's the other way round; every other account, every total balance, share and name unchanged |
| BankService.Settle | src/services/bank_service.py:290-323 | claims move the amount from pending into settled on the receiver, reservations the reverse; any other kind between two accounts gives the sender pending +a and amount −a and the receiver pending −a and amount +a, every other account unchanged; no account's total balance, name or share changes |
| BankService.Approve | src/services/bank_service.py:280-326 | TransactionNotFound for an unknown id, InvalidTransactionStatus for a non-pending one, success exactly otherwise; status becomes done with the operator recorded, every other field and record unchanged |
| BankService.Revert | tests/test_bank_service_remaining.py:147-171 | denial reverses only the creation-time pending delta of a claim or reservation; no settled balance changes |
| BankService.Deny | tests/test_bank_service_remaining.py:147-177 | TransactionNotFound for an unknown id, InvalidTransactionStatus for a non-pending one; otherwise pending is restored and the record becomes denied with the operator |
| BankService.Transfer | tests/test_bank_service_transfer.py:47-193 | AccountNotFound for a missing sender; success exactly when sender ≠ receiver, 0 < amount <= the 10^12 transfer ceiling, amount <= sender.amount and the floor holds; then sender.amount −= n, receiver (auto-created if absent) += n, a done "transfer" record appended |
| BankService.PullTransactions | tests/test_bank_service_remaining.py:180-225 | only non-denied records of the user's account, at most n of them |
| BankService.GetPendingTransactions | tests/test_bank_service_remaining.py:228-257 | only pending records from the log, at most limit of them |
| AccountRepo.Find | src/repositories/account_repo.py:39-66 | None exactly for an absent number, otherwise the stored record |
| AccountRepo.Exists | src/repositories/account_repo.py:91-103 | true exactly when Find returns a record |
| AccountRepo.Create | src/repositories/account_repo.py:68-89 | AccountAlreadyExists exactly when the number is present; otherwise adds exactly that key, keeps every other record and keeps the store keyed by number |
| AccountRepo.CreateThenFind | src/repositories/account_repo.py:68-89 | after a successful create, find returns a record with the created name, amount, pending and share |
| AccountRepo.UpdatePending | src/repositories/account_repo.py:105-118 | adds the delta to that account's pending only; every other account unchanged; an absent number is a silent no-op |
| AccountRepo.UpdateAmount | src/repositories/account_repo.py:120-133 | adds the delta to that account's amount only; absent number is a no-op |
| AccountRepo.UpdatePendingAndAmount | src/repositories/account_repo.py:135-154 | adds both deltas to the one account, nothing else changes; absent number is a no-op |
| AccountRepo.AdjustedTwice | src/repositories/account_repo.py:135-154 | two successive adjustments of one account add up, every other account untouched |
| AccountRepo.CombinedUpdateComposes | src/repositories/account_repo.py:135-154 | the combined update equals the pending update followed by the amount update |
| AccountRepo.UpdatesKeepShare | src/repositories/account_repo.py:105-154 | no update writes share or name |
| TransactionRepo.Create | src/repositories/transaction_repo.py:42-70 | appends without touching earlier records; the assigned id is 1 for an empty log and greater than every earlier id; find_by_id of that id returns the record with that id |
| TransactionRepo.FindById | src/repositories/transaction_repo.py:72-103 | with sequential ids: a record is returned exactly when some record carries that id, and it carries it |
| TransactionRepo.UpdateStatus | src/repositories/transaction_repo.py:176-190 | changes only status and operator of that record whatever its current status; unknown id leaves the log unchanged |
| TransactionRepo.FindPendingIsOldestFirst | src/repositories/transaction_repo.py:105-136 | results are pending, in ascending id order, and a pending record is left out only when limit older ones were returned |
| TransactionRepo.FindByAccountIsNewestFirst | src/repositories/transaction_repo.py:138-174 | results involve the account and are not denied, in descending id order, and a matching record is left out only when limit newer ones were returned |
| TransactionRepo.Select | src/repositories/transaction_repo.py:153-156 | keeps exactly the records satisfying the filter and no more records than the log holds |
| TransactionRepo.SelectInOrder | src/repositories/transaction_repo.py:153-156 | the selected records form a subsequence of the log, so log order is kept |
| TransactionRepo.FindPending | src/repositories/transaction_repo.py:105-136 | returns only pending records of the log, at most `limit` of them when the limit is non-negative |
| TransactionRepo.FindByAccount | src/repositories/transaction_repo.py:138-174 | returns only non-denied records with the account as sender or receiver, at most `limit` of them when the limit is non-negative |
| TransactionRepo.Take | src/repositories/transaction_repo.py:116-119 | a prefix of at most limit rows; a negative limit keeps all rows |
| TransactionModel.CreatePending | src/models/transaction.py:21-53 | no id, status pending, no operator; kind, sender, receiver, amount and memo exactly as given, with no validation |
| AccountModel.TotalBalance | src/models/account.py:17-20 | total balance is settled plus pending; approval keeps it (RoundTrips.ApproveKeepsTotalBalance) and a fresh account's is zero (AccountModel.Fresh) |
| AccountModel.Fresh | src/services/bank_service.py:104-111 | a created account has the given number and name and zero amount, pending, share and total balance |
| PendingLedger.PendingSumReplace | src/repositories/transaction_repo.py:176-190 | rewriting one record changes the pending sum by the difference of the old and new record's contributions |
| PendingLedger.PendingSumUnreferenced | src/services/bank_service.py:70-77 | a number no pending record addresses has pending sum zero, matching a newly created account |
| PendingLedger.CreateAccountKeepsInv | src/services/bank_service.py:97-116 | registration preserves the ledger invariant |
| PendingLedger.DepositKeepsInv | src/services/bank_service.py:188-192 | a deposit's +amount on pending equals its new record's contribution |
| PendingLedger.WithdrawKeepsInv | src/services/bank_service.py:255-259 | a withdrawal's −amount on pending equals its new record's contribution |
| PendingLedger.RequestKeepsInv | tests/test_bank_service_remaining.py:47-71 | a request preserves the ledger invariant |
| PendingLedger.DonateKeepsInv | tests/test_bank_service_remaining.py:101-129 | a donation preserves the ledger invariant |
| PendingLedger.SettleWithdrawsContribution | src/services/bank_service.py:294-306 | settling a pending claim or reservation lowers each account's pending by exactly that record's contribution, keeping keys and account numbers |
| PendingLedger.RevertWithdrawsContribution | tests/test_bank_service_remaining.py:147-171 | reverting a pending claim or reservation lowers each account's pending by exactly that record's contribution, keeping keys and account numbers |
| PendingLedger.AuditKeepsInv | src/services/bank_service.py:264-326 | rewriting one pending record as done or denied, while pending balances drop by its contribution, preserves the ledger invariant |
| PendingLedger.ApproveKeepsInv | src/services/bank_service.py:294-306 | approval removes from pending exactly the contribution of the record it settles |
| PendingLedger.DenyKeepsInv | tests/test_bank_service_remaining.py:147-171 | denial removes from pending exactly the contribution of the record it denies |
| PendingLedger.TransferDoneKeepsInv | tests/test_bank_service_transfer.py:81-102 | any transfer outcome that only moves settled balances, possibly adds a receiver, and appends a done record preserves the ledger invariant |
| PendingLedger.TransferKeepsInv | tests/test_bank_service_transfer.py:81-102 | a transfer (done at once, auto-creating the receiver) preserves the ledger invariant |
| PendingLedger.ReachableKeepsPendingSum | src/services/bank_service.py:188-306 | after any sequence of service calls from a state satisfying the invariant, every account's pending equals the signed sum of its still-pending records |
| PendingLedger.ErrorsAreDeclared | src/models/exceptions.py:4-46 | each call fails only with its declared kinds: AccountAlreadyExists only from registration, Unauthorized from no call |
| RoundTrips.OpenThenApprove | src/services/bank_service.py:294-326 | approving a just-opened record restores pending and moves the delta into settled, other accounts unchanged, record done |
| RoundTrips.OpenThenDeny | tests/test_bank_service_remaining.py:147-171 | denying a just-opened record restores every account exactly, record denied |
| RoundTrips.DepositThenApprove | tests/test_bank_service_deposit.py:185-210 | deposit n then approve: pending as before, settled up by n |
| RoundTrips.DepositThenDeny | tests/test_bank_service_remaining.py:147-171 | deposit then deny: all accounts as before |
| RoundTrips.WithdrawThenApprove | tests/test_bank_service_withdraw.py:192-217 | withdraw n then approve: pending as before, settled down by n |
| RoundTrips.WithdrawThenDeny | tests/test_bank_service_remaining.py:147-171 | withdraw then deny: all accounts as before |
| RoundTrips.RequestThenDeny | tests/test_bank_service_remaining.py:147-171 | request then deny: all accounts as before and the record is denied |
| RoundTrips.DonateThenApprove | src/services/bank_service.py:302-306 | donate n then approve: pending as before, settled down by n |
| RoundTrips.DenialIsFinal | src/services/bank_service.py:284-288 | a denied record can be neither approved nor denied again (InvalidTransactionStatus) |
| RoundTrips.ApprovalIsFinal | src/services/bank_service.py:284-288 | an approved record can be neither approved nor denied again |
| RoundTrips.ApproveKeepsTotalBalance | src/models/account.py:17-20 | approval leaves every account's amount + pending unchanged |
| RoundTrips.PullIsNewestFirst | tests/test_bank_service_remaining.py:180-202 | pulled records are newest first, and a matching record is omitted only when n newer ones were listed |
| RoundTrips.RegisterDepositApproveScenario | tests/test_bank_service_deposit.py:42-66 | user "1234567890" gets account "234567890"; deposit 1000 gives pending 1000, settled 0, record 1 pending; approve gives pending 0, settled 1000 |
| RoundTrips.DepositCeilingScenario | tests/test_bank_service_deposit.py:103-131 | 10^12 deposits succeed and 10^12 + 1 fail with InvalidAmount; likewise 10^11 for requests |
| RoundTrips.InsufficientWithdrawScenario | tests/test_bank_service_withdraw.py:110-123 | withdrawing or donating 1000 from a settled 500 fails with InsufficientBalance |
| RoundTrips.SecondWithdrawalStillAccepted | src/services/bank_service.py:238-244 | as written, a second full withdrawal is accepted and approving both overdraws to −1000 |
| RoundTrips.TransferCeilingScenario | config/settings.py:31 | the transfer ceiling is inclusive: 10^12 succeeds, and 10^12 + 1 fails with InvalidAmount even when the sender could cover it |
| RoundTrips.TransferScenario | tests/test_bank_service_transfer.py:47-78 | transfer 5000 from 10000 leaves 5000 on each side with a done record; a transfer to oneself fails with InvalidTransfer |

## Left out

- Time: the transaction timestamp and its ISO round trip through storage are not modelled, and records carry no time field.
- The storage row id of an account is not modelled: the account number is its key.
- SQL text, table creation, commits and row factories are not modelled. Each store is an immutable value.
- Concurrency and atomicity of multi-statement updates are not modelled, because every call runs to completion on its own.
- `min_amount` is not modelled. The constructor stores it (`src/services/bank_service.py:24`), but deposit and withdraw test positivity against zero rather than against it.
- Error message text is not modelled. `InvalidAmount` does not distinguish a negative amount, a zero amount and one over the ceiling, although the tests look for "negative" in the message (`tests/test_bank_service_deposit.py:89`, `tests/test_bank_service_withdraw.py:95`). Every error the model raises has the same kind as the source's.
- The stores' 64-bit SQLite `INTEGER` columns (`src/repositories/account_repo.py:31-33`, `src/repositories/transaction_repo.py:34`) become unbounded integers. The ceilings keep a single call far below 2^63, but a long enough run of calls could overflow a column in the source and not in the model.
- The Google-Sheets bank, the chat commands, process bootstrap, backup and environment loading are not modelled. They are adapters outside the ledger.
- Float annotations on the account record are not modelled: balances are integers, as the service and its tests use them.
- The transaction kind stays a free string because `create_pending` accepts any kind. The status is a three-valued datatype: the store's `update_status` accepts any string, but the service only ever writes pending, done and denied.
- `find_pending_transactions` has no `ORDER BY`. The model returns rows in id order, as the method's own documentation states.
- Request: the contract is order-free. When both the account and the amount are wrong, it promises only one of the two errors, because no test asserts which one comes first.
- Donate: the contract is order-free in the same way. The body checks as withdraw does.
- Deny: the tests assert that denial reverses the pending delta and that an unknown id fails (`tests/test_bank_service_remaining.py:147-178`). The model follows approve's checks and reverses only the creation-time pending delta of claims and reservations. Other kinds leave balances unchanged on denial.
- Transfer: among several failing checks, only "missing sender first" is promised. The receiver is auto-created only when the transfer succeeds. The tests do not say whether an auto-created receiver survives a later failing check.
- PullTransactions: the contract does not make a missing account an error. The tests never ask, and the store query `find_by_account` (`src/repositories/transaction_repo.py:138-174`) needs no account row.
- PullTransactions and GetPendingTransactions: their own contracts state membership and the bound. Their ordering and "most recent / oldest" guarantees are stated separately, in RoundTrips.PullIsNewestFirst and TransactionRepo.FindPendingIsOldestFirst, under sequential ids.
