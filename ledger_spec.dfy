/** BankService.java as functions on values: each operation maps a ledger
    state to its outcome and the state after it, following the Java
    method's guard clauses and updates in the same order. */
module LedgerSpec {
  import opened Decimal
  import opened Accounts
  import opened Transactions

  /** The three exception kinds the ledger throws. */
  datatype LedgerError = InvalidAmount | AccountNotFound | InsufficientFunds

  datatype Outcome<+T> = Ok(value: T) | Err(error: LedgerError)

  /** The ledger's three fields: the account map, the append-only
      transaction list and the transaction counter. */
  datatype Ledger = Ledger(
    accounts: map<string, AccountState>,
    transactions: seq<Transaction>,
    transactionCounter: nat)

  /** What an operation returns together with the state it leaves. */
  datatype Step<+T> = Step(result: Outcome<T>, after: Ledger)

  /** The state the constructor establishes. */
  function Empty(): Ledger
  {
    Ledger(map[], [], 1)
  }

  /** "ACC" followed by `%06d` of a sequence number. */
  function AccountNumber(sequenceNumber: nat): string
  {
    "ACC" + Pad6(sequenceNumber)
  }

  /** "TXN" followed by `%06d` of the counter. */
  function TransactionId(counter: nat): string
  {
    "TXN" + Pad6(counter)
  }

  /** The account numbers given out by the first n creations. */
  function Issued(n: nat): set<string>
  {
    if n == 0 then {} else Issued(n - 1) + {AccountNumber(n)}
  }

  /** generateAccountNumber: derived from the current number of accounts. */
  function GenerateAccountNumber(L: Ledger): string
  {
    AccountNumber(|L.accounts| + 1)
  }

  /** An account is visible when it is present and active; getAccount and
      every operation that calls it fail on any other account number. */
  predicate Visible(L: Ledger, accountNumber: string)
  {
    accountNumber in L.accounts && L.accounts[accountNumber].active
  }

  function GetAccount(L: Ledger, accountNumber: string): Outcome<AccountState>
  {
    if Visible(L, accountNumber) then Ok(L.accounts[accountNumber]) else Err(AccountNotFound)
  }

  /** recordTransaction: take the next identifier, bump the counter, append. */
  function RecordTransaction(L: Ledger, accountNumber: string, kind: TransactionType,
                             amount: real, description: string): Ledger
  {
    var t := Transaction(TransactionId(L.transactionCounter), accountNumber, kind, amount, description);
    L.(transactions := L.transactions + [t], transactionCounter := L.transactionCounter + 1)
  }

  function SetBalance(L: Ledger, accountNumber: string, balance: real): Ledger
    requires accountNumber in L.accounts
  {
    L.(accounts := L.accounts[accountNumber := L.accounts[accountNumber].(balance := balance)])
  }

  function CreateAccount(L: Ledger, accountHolderName: string, initialDeposit: real,
                         accountType: string): Step<string>
  {
    if initialDeposit < 0.0 then Step(Err(InvalidAmount), L)
    else
      var number := GenerateAccountNumber(L);
      var added := L.(accounts := L.accounts[number := NewAccount(number, accountHolderName, initialDeposit, accountType)]);
      var logged :=
        if initialDeposit > 0.0
        then RecordTransaction(added, number, TransactionType.DEPOSIT, initialDeposit, "Initial deposit")
        else added;
      Step(Ok(number), logged)
  }

  function Deposit(L: Ledger, accountNumber: string, amount: real): Step<()>
  {
    if amount <= 0.0 then Step(Err(InvalidAmount), L)
    else if !Visible(L, accountNumber) then Step(Err(AccountNotFound), L)
    else
      var credited := SetBalance(L, accountNumber, L.accounts[accountNumber].balance + amount);
      Step(Ok(()), RecordTransaction(credited, accountNumber, TransactionType.DEPOSIT, amount, "Deposit"))
  }

  function Withdraw(L: Ledger, accountNumber: string, amount: real): Step<()>
  {
    if amount <= 0.0 then Step(Err(InvalidAmount), L)
    else if !Visible(L, accountNumber) then Step(Err(AccountNotFound), L)
    else if L.accounts[accountNumber].balance < amount then Step(Err(InsufficientFunds), L)
    else
      var debited := SetBalance(L, accountNumber, L.accounts[accountNumber].balance - amount);
      Step(Ok(()), RecordTransaction(debited, accountNumber, TransactionType.WITHDRAWAL, amount, "Withdrawal"))
  }

  /** transfer: a withdraw followed by a deposit, each with its own guards and
      log entry, then two TRANSFER entries. A failing deposit leaves the
      withdraw in place. */
  function Transfer(L: Ledger, fromAccount: string, toAccount: string, amount: real): Step<()>
  {
    if fromAccount == toAccount then Step(Err(InvalidAmount), L)
    else
      var w := Withdraw(L, fromAccount, amount);
      if w.result.Err? then w
      else
        var d := Deposit(w.after, toAccount, amount);
        if d.result.Err? then d
        else
          var out := RecordTransaction(d.after, fromAccount, TransactionType.TRANSFER, amount, "Transfer to " + toAccount);
          Step(Ok(()), RecordTransaction(out, toAccount, TransactionType.TRANSFER, amount, "Transfer from " + fromAccount))
  }

  /** The entries of a log that belong to one account, in log order. */
  function ForAccount(log: seq<Transaction>, accountNumber: string): seq<Transaction>
  {
    if log == [] then []
    else
      var last := log[|log| - 1];
      ForAccount(log[..|log| - 1], accountNumber) + (if last.accountNumber == accountNumber then [last] else [])
  }

  function AccountTransactions(L: Ledger, accountNumber: string): Outcome<seq<Transaction>>
  {
    if !Visible(L, accountNumber) then Err(AccountNotFound)
    else Ok(ForAccount(L.transactions, accountNumber))
  }

  /** What an account adds to the bank's total: its balance when active. */
  function Contribution(a: AccountState): real
  {
    if a.active then a.balance else 0.0
  }

  /** The sum of Contribution over the accounts with the given numbers, in
      no particular order (a HashMap's values are unordered). */
  ghost function SumActive(m: map<string, AccountState>, keys: set<string>): real
    requires keys <= m.Keys
    decreases keys
  {
    if keys == {} then 0.0
    else
      var k :| k in keys;
      Contribution(m[k]) + SumActive(m, keys - {k})
  }

  /** getTotalBankBalance */
  ghost function TotalBankBalance(L: Ledger): real
  {
    SumActive(L.accounts, L.accounts.Keys)
  }

  function ActiveNumbers(m: map<string, AccountState>, keys: set<string>): set<string>
    requires keys <= m.Keys
  {
    set k | k in keys && m[k].active
  }

  /** getTotalAccounts */
  function TotalAccounts(L: Ledger): nat
  {
    |ActiveNumbers(L.accounts, L.accounts.Keys)|
  }

  /** A log entry as the ledger writes it: the i-th entry carries the i-th
      identifier, a positive amount and the number of an existing account. */
  predicate WellFormedEntry(L: Ledger, i: nat)
    requires i < |L.transactions|
  {
    var t := L.transactions[i];
    t.transactionId == TransactionId(i + 1) && t.amount > 0.0 && t.accountNumber in L.accounts
  }

  /** The ledger's invariant, kept by every operation: each account is stored
      under its own number, balances are never negative, the keys are exactly
      the first |accounts| generated numbers, and the counter is one past the
      number of log entries. */
  predicate Inv(L: Ledger)
  {
    && (forall k :: k in L.accounts ==> L.accounts[k].accountNumber == k && L.accounts[k].balance >= 0.0)
    && L.accounts.Keys == Issued(|L.accounts|)
    && L.transactionCounter == |L.transactions| + 1
    && (forall i :: 0 <= i < |L.transactions| ==> WellFormedEntry(L, i))
  }

  /** The operations a caller can request, for reasoning about sequences of them. */
  datatype Request =
    | CreateRequest(holderName: string, initialDeposit: real, accountType: string)
    | DepositRequest(accountNumber: string, amount: real)
    | WithdrawRequest(accountNumber: string, amount: real)
    | TransferRequest(fromAccount: string, toAccount: string, amount: real)

  function Apply(L: Ledger, r: Request): Ledger
  {
    match r
    case CreateRequest(name, initial, kind) => CreateAccount(L, name, initial, kind).after
    case DepositRequest(n, amount) => Deposit(L, n, amount).after
    case WithdrawRequest(n, amount) => Withdraw(L, n, amount).after
    case TransferRequest(from, to, amount) => Transfer(L, from, to, amount).after
  }

  function Run(L: Ledger, requests: seq<Request>): Ledger
    decreases |requests|
  {
    if requests == [] then L else Run(Apply(L, requests[0]), requests[1..])
  }
}
