/** Transaction.java: an immutable log entry. A datatype value cannot be
    changed after construction, and its destructors are the getters. */
module Transactions {

  /** Transaction.TransactionType: the three kinds of log entry (the Java constant names). */
  datatype TransactionType = DEPOSIT | WITHDRAWAL | TRANSFER

  datatype Transaction = Transaction(
    transactionId: string,
    accountNumber: string,
    kind: TransactionType,
    amount: real,
    description: string)
}
