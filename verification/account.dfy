/** The account record. Balances are whole numbers, as the service and its
    callers use them. */
module AccountModel {

  /** One member account: `amount` is the settled balance, `pending` the net
      unsettled delta of transactions still awaiting audit, `share` a reserved
      field no operation writes. */
  datatype Account = Account(
    accountNo: string,
    name: string,
    amount: int,
    pending: int,
    share: int)

  /** Settled plus unsettled funds. */
  function TotalBalance(a: Account): int
  {
    a.amount + a.pending
  }

  /** The record registration and transfer auto-creation insert. */
  function Fresh(accountNo: string, name: string): (a: Account)
    ensures a.accountNo == accountNo && a.name == name
    ensures a.amount == 0 && a.pending == 0 && a.share == 0
    ensures TotalBalance(a) == 0
  {
    Account(accountNo, name, 0, 0, 0)
  }
}
