/** The closed taxonomy of ledger failures. In the source every kind is a
    subclass of one base `BankError`; here the base is the datatype itself. */
module Errors {

  datatype BankError =
    | AccountNotFound(accountNo: string)
    | AccountAlreadyExists(accountNo: string)
    | InsufficientBalance
    | InvalidAmount
    | TransactionNotFound(txnId: int)
    | InvalidTransactionStatus(txnId: int)
    | InvalidTransfer
    | Unauthorized
}
