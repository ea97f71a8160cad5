/** The transaction record and its pending-state constructor. */
module TransactionModel {
  import opened Wrappers

  /** Audit status: created pending (or done, for transfers), settled to
      done or denied by an auditor. */
  datatype Status = Pending | Done | Denied

  const KindDeposit: string := "deposit"
  const KindWithdraw: string := "withdraw"
  const KindRequest: string := "request"
  const KindDonate: string := "donate"
  const KindTransfer: string := "transfer"

  /** A log entry. `kind` is the source's free-text `type` column; `id` is
      absent until the transaction store assigns one. */
  datatype Transaction = Transaction(
    id: Option<int>,
    kind: string,
    sender: string,
    receiver: string,
    status: Status,
    amount: int,
    operator: Option<string>,
    memo: string)

  /** Kinds that claim funds: approval moves the amount into the settled balance. */
  predicate Credits(kind: string)
  {
    kind == KindDeposit || kind == KindRequest
  }

  /** Kinds that reserve funds: approval takes the amount out of the settled balance. */
  predicate Debits(kind: string)
  {
    kind == KindWithdraw || kind == KindDonate
  }

  /** A not-yet-stored transaction awaiting audit. No validation: any kind,
      any pair of accounts, any amount. */
  function CreatePending(kind: string, sender: string, receiver: string, amount: int, memo: string): (t: Transaction)
    ensures t.id == None && t.status == Pending && t.operator == None
    ensures t.kind == kind && t.sender == sender && t.receiver == receiver
    ensures t.amount == amount && t.memo == memo
  {
    Transaction(None, kind, sender, receiver, Pending, amount, None, memo)
  }
}
