# Bank ledger in Dafny

This project models the in-memory ledger of a small retail bank. The ledger
keeps three things:

- a map from account numbers to accounts;
- an append-only list of transactions;
- a transaction counter.

Its operations are create an account, look one up, deposit, withdraw,
transfer, list an account's history, and the two totals over active
accounts. The project also models the records the ledger owns (`Account`,
`Transaction`) and the input predicates of `InputValidator`.

The model has two layers.

- `LedgerSpec` restates every `BankService` operation as a function. Each
  function maps a ledger value to a `Step`: the outcome (`Ok` or one of the
  three exception kinds) paired with the state left behind. The guards are
  checked in the source's order, and the updates follow it in the same order.
- `Service.BankService` is the class itself. It has a `map<string, Account>`
  of account objects, a `seq<Transaction>` and a counter, and its methods
  change them in place. Each state-changing method (`CreateAccount`,
  `Deposit`, `Withdraw`, `Transfer`) promises
  `Step(r, State()) == LedgerSpec.Op(old(State()), ...)`, and
  `RecordTransaction` promises its new state is
  `LedgerSpec.RecordTransaction(old(State()), ...)`. Each query
  (`GetAccountTransactions`, `GetTotalBankBalance`, `GetTotalAccounts`)
  returns the `LedgerSpec` function of `State()`. `GenerateAccountNumber`
  returns `AccountNumber(|accounts| + 1)`, and `GetAccount` is a function
  tied to `LedgerSpec.GetAccount`. So whatever is proved about the functions
  also holds for the class.
  `getAccountTransactions` is a loop with invariants. The two totals are
  loops over the key set, because a `HashMap` has no fixed order.

The properties in `LedgerProperties` are proved about the functions:

- the ledger invariant holds: every account is stored under its own number,
  balances are never negative, the keys are exactly the first
  `|accounts|` generated numbers, and the i-th log entry carries
  identifier `TXN%06d(i+1)`;
- each operation keeps the invariant, and each guard is characterised in
  checking order;
- frame properties: only the touched balance changes, and the log only
  grows;
- the bank's total is conserved by a successful transfer;
- the four-entry transfer log is stated exactly;
- an account's history is exactly its entries, in log order;
- any sequence of requests keeps all of the above.

`Decimal` models `String.format("%06d", n)`, under a default locale whose
zero digit is '0', and proves that reading the
digits back gives `n`. That is why account numbers and transaction
identifiers never collide.

Design decisions:

- **Money** (a Java `double`) is a Dafny `real`. Amounts are exact, with no
  rounding.
- **Transfer follows the code.** It is a withdraw followed by a deposit.
  Each leg writes its own log entry, and then one TRANSFER entry is written
  per side. When the second leg fails because the target account is missing
  or inactive, the first leg stays applied. `LedgerProperties.TransferTotals`
  states that the bank's total then drops by the amount. An atomic transfer
  would be the safer design, but the model keeps the behaviour of the code as
  written.

## Model

| member | source | states |
|---|---|---|
| Accounts.NewAccount | src/com/bank/model/Account.java:13-21 | a new account holds exactly the given number, holder name, initial balance and type, and is active |
| Accounts.Account.constructor | src/com/bank/model/Account.java:13-21 | the constructed object's fields are those of `NewAccount` for the arguments |
| Accounts.Account.SetBalance | src/com/bank/model/Account.java:30 | only the balance changes; number, holder, type and active flag keep their values |
| Accounts.Account.SetActive | src/com/bank/model/Account.java:31 | only the active flag changes; every other field keeps its value |
| Service.BankService.constructor | src/com/bank/service/BankService.java:14-18 | the ledger starts with no accounts, an empty log and counter 1, and satisfies the invariant |
| Service.BankService.GenerateAccountNumber | src/com/bank/service/BankService.java:88-90 | the number is "ACC" + `%06d` of size + 1, and under the invariant it is not yet a key |
| Service.BankService.RecordTransaction | src/com/bank/service/BankService.java:92-97 | appends one entry with identifier "TXN" + `%06d` of the old counter, raises the counter by one and leaves the accounts alone |
| Service.BankService.CreateAccount | src/com/bank/service/BankService.java:20-36 | result and new state are those of `LedgerSpec.CreateAccount`; success stores one fresh account object under a new key and replaces none; the invariant is kept |
| Service.BankService.Put | src/com/bank/service/BankService.java:28 | the map gains the account under the number and no account object changes |
| Service.BankService.GetAccount | src/com/bank/service/BankService.java:38-44 | returns the stored object exactly when the number is present and the account active, otherwise AccountNotFound |
| Service.BankService.Deposit | src/com/bank/service/BankService.java:46-55 | result and new state are those of `LedgerSpec.Deposit`; the map of objects is unchanged and the invariant kept |
| Service.BankService.Withdraw | src/com/bank/service/BankService.java:57-71 | result and new state are those of `LedgerSpec.Withdraw`; the map of objects is unchanged and the invariant kept |
| Service.BankService.SetBalance | src/com/bank/service/BankService.java:53 | setting the balance of the stored object changes only that account's entry of the state |
| Service.BankService.Transfer | src/com/bank/service/BankService.java:73-86 | result and new state are those of `LedgerSpec.Transfer`, failures of either leg included; the invariant is kept |
| Service.BankService.GetAccountTransactions | src/com/bank/service/BankService.java:99-108 | fails exactly for an invisible account; otherwise returns the entries of that account, in log order, and no others |
| Service.BankService.GetTotalBankBalance | src/com/bank/service/BankService.java:110-115 | the sum of the active balances, in any order of the keys; never negative under the invariant |
| Service.BankService.GetTotalAccounts | src/com/bank/service/BankService.java:117-121 | the number of active accounts, at most the number of accounts |
| Decimal.Pad6RoundTrip | src/com/bank/service/BankService.java:89 | reading back the `%06d` spelling of n gives n |
| Decimal.Pad6Injective | src/com/bank/service/BankService.java:89 | two numbers have the same `%06d` spelling exactly when they are equal |
| Decimal.DigitsLeading | src/com/bank/service/BankService.java:89 | the shortest spelling of n starts with '0' exactly when n is 0 |
| Decimal.Pad6Long | src/com/bank/service/BankService.java:89 | `%06d` leaves n unpadded exactly when n >= 100000, and then the spelling has no leading zero |
| Decimal.Pad6Width | src/com/bank/service/BankService.java:89 | the spelling is exactly six characters wide exactly when n < 1000000 |
| LedgerProperties.AccountNumberInjective | src/com/bank/service/BankService.java:89 | different sequence numbers give different account numbers, and conversely |
| LedgerProperties.TransactionIdInjective | src/com/bank/service/BankService.java:94 | different counter values give different transaction identifiers, and conversely |
| LedgerProperties.IssuedExactly | src/com/bank/service/BankService.java:26-28 | after n creations a string is a key exactly when it is the account number of some i in 1..n |
| LedgerProperties.NotYetIssued | src/com/bank/service/BankService.java:88-90 | a number generated later is not among those handed out before |
| LedgerProperties.IssuedCount | src/com/bank/service/BankService.java:88-90 | n creations hand out n distinct numbers |
| LedgerProperties.GeneratedNumberValid | src/com/bank/util/InputValidator.java:7 | a generated account number passes `isValidAccountNumber` exactly when the sequence number is below 1000000 |
| LedgerProperties.MillionthAccountNumber | src/com/bank/service/BankService.java:89 | the millionth account gets "ACC1000000", which `isValidAccountNumber` rejects |
| LedgerProperties.IdentifierFormats | src/com/bank/service/BankService.java:94 | the first identifiers are "ACC000001", "ACC000002", "TXN000001" and "TXN000002" |
| LedgerProperties.TransactionIdsDistinct | src/com/bank/service/BankService.java:92-97 | under the invariant, two log entries share an identifier exactly when they are the same entry |
| LedgerProperties.ValidAmountPassesGuard | src/com/bank/util/InputValidator.java:17-19 | an amount the validator accepts passes the ledger's amount guard; one at or below zero is refused by both; one above a million is refused only by the validator |
| LedgerProperties.TotalBankBalanceNonNegative | src/com/bank/service/BankService.java:110-115 | under the invariant the bank's total is not negative |
| LedgerProperties.TotalAccountsBound | src/com/bank/service/BankService.java:117-121 | the number of active accounts is at most the number of accounts |
| LedgerProperties.SetBalanceTotals | src/com/bank/service/BankService.java:53 | changing one balance changes the total by the difference in that account's contribution and leaves the count alone |
| LedgerProperties.EmptyStart | src/com/bank/service/BankService.java:14-18 | the initial ledger satisfies the invariant, with total 0 and no accounts |
| LedgerProperties.RecordKeepsInv | src/com/bank/service/BankService.java:92-97 | logging a positive amount against an existing account keeps the invariant |
| LedgerProperties.RecordTransactionFresh | src/com/bank/service/BankService.java:94-96 | the appended identifier is carried by no earlier entry, and the accounts are unchanged |
| LedgerProperties.CreateAccountOutcome | src/com/bank/service/BankService.java:22-35 | fails with InvalidAmount, leaving the state unchanged, exactly when the deposit is negative; otherwise stores the new account under "ACC" + `%06d`(size+1) and appends one "Initial deposit" DEPOSIT entry exactly when the deposit is positive |
| LedgerProperties.GeneratedNumberFresh | src/com/bank/service/BankService.java:88-90 | under the invariant the generated number is not yet a key, so `put` never overwrites |
| LedgerProperties.CreateAccountKeepsInv | src/com/bank/service/BankService.java:26-28 | creation keeps the invariant and on success adds exactly one key |
| LedgerProperties.CreateAccountTotals | src/com/bank/service/BankService.java:27-28 | a new account raises the total by its initial deposit and the count by one |
| LedgerProperties.GetAccountSpec | src/com/bank/service/BankService.java:38-44 | succeeds exactly for a present, active account and returns it; absent and inactive accounts both give AccountNotFound |
| LedgerProperties.DepositOutcome | src/com/bank/service/BankService.java:48-52 | InvalidAmount exactly when amount <= 0; AccountNotFound exactly when the amount is positive and the account invisible; success otherwise; a refused deposit changes nothing |
| LedgerProperties.DepositEffect | src/com/bank/service/BankService.java:53-54 | success raises only the target's balance by the amount and appends one DEPOSIT entry |
| LedgerProperties.DepositKeepsInv | src/com/bank/service/BankService.java:46-55 | deposit keeps the invariant |
| LedgerProperties.DepositTotals | src/com/bank/service/BankService.java:53 | success raises the total by the amount and leaves the count alone |
| LedgerProperties.WithdrawOutcome | src/com/bank/service/BankService.java:59-67 | InvalidAmount, AccountNotFound and InsufficientFunds each exactly under the source's guards, in that order; a refused withdrawal changes nothing |
| LedgerProperties.WithdrawEffect | src/com/bank/service/BankService.java:69-70 | success lowers only the source's balance by the amount, never below zero, and appends one WITHDRAWAL entry |
| LedgerProperties.WithdrawKeepsInv | src/com/bank/service/BankService.java:57-71 | withdraw keeps the invariant, so no balance becomes negative |
| LedgerProperties.WithdrawTotals | src/com/bank/service/BankService.java:69 | success lowers the total by the amount and leaves the count alone |
| LedgerProperties.TransferOutcome | src/com/bank/service/BankService.java:75-80 | a self-transfer fails with InvalidAmount before any change; success exactly when both accounts are visible and the balance covers the amount; a failing debit changes nothing; a missing target leaves the debit applied |
| LedgerProperties.TransferBalances | src/com/bank/service/BankService.java:79-80 | success takes the amount from one balance and adds it to the other; no other account changes |
| LedgerProperties.TransferLog | src/com/bank/service/BankService.java:79-85 | success appends exactly WITHDRAWAL(from), DEPOSIT(to), TRANSFER(from, "Transfer to …"), TRANSFER(to, "Transfer from …") with consecutive identifiers |
| LedgerProperties.TransferKeepsInv | src/com/bank/service/BankService.java:73-86 | transfer keeps the invariant however it ends |
| LedgerProperties.TransferTotals | src/com/bank/service/BankService.java:79-85 | success conserves the total and the count; a missing target makes the total drop by the amount |
| LedgerProperties.ApplyKeepsInv | src/com/bank/service/BankService.java:20-86 | every state-changing request keeps the invariant |
| LedgerProperties.ApplyExtends | src/com/bank/service/BankService.java:20-86 | no request removes an account or changes its number, holder, type or active flag, and the log only grows |
| LedgerProperties.RunSpec | src/com/bank/service/BankService.java:20-86 | any sequence of requests keeps the invariant, extends the starting ledger and leaves every balance non-negative |
| LedgerProperties.ForAccountMembers | src/com/bank/service/BankService.java:101-106 | an entry is in the history exactly when it is in the log with that account number |
| LedgerProperties.ForAccountPositions | src/com/bank/service/BankService.java:101-106 | the history is the log at exactly the matching positions, in increasing order |
| LedgerProperties.AccountTransactionsSpec | src/com/bank/service/BankService.java:99-108 | succeeds exactly for a visible account, otherwise AccountNotFound; the result holds exactly the account's entries |
| LedgerProperties.Walkthrough | src/com/bank/service/BankService.java:20-86 | opening Alice's account with 1000, withdrawing 200, opening Bob's with 0 and moving 300 gives ACC000001 and ACC000002, balances 500 and 300, total 800, and 2 accounts |
| InputValidator.IsValidNameIff | src/com/bank/util/InputValidator.java:9-11 | true exactly for a non-null string of 2 to 50 characters, each an ASCII letter or `\s` whitespace |
| InputValidator.IsValidAccountNumberIff | src/com/bank/util/InputValidator.java:13-15 | true exactly for a non-null string of length 9 that starts with "ACC" and ends in six ASCII digits |
| InputValidator.EqualsIgnoreCaseUpper | src/com/bank/util/InputValidator.java:23-25 | comparing ignoring case against a word in capitals is comparing the input in capitals with it |
| InputValidator.IsValidAccountTypeIff | src/com/bank/util/InputValidator.java:21-26 | true exactly for a non-null string whose capitals are SAVINGS, CURRENT or SALARY |

`Transaction` and `TransactionType` are datatypes in `Transactions`. A
datatype value cannot change after construction, its destructors are the
getters, and its type has exactly the three constructors DEPOSIT, WITHDRAWAL
and TRANSFER. The account getters are the fields of `Account`. The number,
holder name and type are `const`, so nothing can change them after the
constructor.

## Left out

- src/com/bankk/BankApp.java: the console menu, prompts and input loops are I/O and are not part of this model.
- The `createdDate` and `timestamp` fields: they hold a clock read, so they are omitted from `Account` and `Transaction`.
- `toString` and the exception message texts: only the kind of error is modelled, as an `Err` value in place of a thrown exception.
- IEEE `double` arithmetic: balances and amounts are exact reals, so rounding and overflow to infinity are not modelled.
- NaN amounts: in Java a NaN amount passes every guard (`initialDeposit < 0`, `amount <= 0` and `balance < amount` are all false for it), so `withdraw(n, NaN)` makes the balance NaN and breaks the non-negative balance invariant. NaN cannot occur with reals, so the model does not capture it.
- Decimal.Pad6: assumes a default format locale whose zero digit is '0'. `String.format` spells the digits, padding included, in the default locale's digits. Under a locale such as Persian, `generateAccountNumber` yields non-ASCII digits that `isValidAccountNumber` rejects, so `LedgerProperties.GeneratedNumberValid` and `LedgerProperties.MillionthAccountNumber` hold only for such a locale.
- Service.BankService.RecordTransaction: the counter is an unbounded `nat`, so the wrap-around of the Java `int` after 2^31 - 1 transactions is not modelled. The same holds for `accounts.size()`.
- Null strings passed to the ledger are not modelled. An example is the `NullPointerException` on `fromAccount.equals` for a null source account. Only the validator takes nullable strings, as `Option<string>`.
- `HashMap` iteration order and the stream pipeline of the totals: the totals loop over the key set in an arbitrary order. Exact sums do not depend on that order.
- The regular-expression engine: both patterns are restated as conditions on the length and on character classes.
- InputValidator.IsValidAccountType: `equalsIgnoreCase` is modelled with ASCII case mappings only. Java also maps some non-ASCII characters to ASCII letters, such as U+017F (long s) to 'S' and U+212A (Kelvin sign) to 'k', and those inputs are not accepted here.
- Service.BankService.GetAccount: the Java method returns the live, shared `Account` object. Here it is a function that changes nothing; code outside the ledger that mutates the returned object is not modelled.
- `Account.setActive` is modelled, but no ledger operation calls it. So the deactivated state is reachable only by setting it directly.
- Concurrency: the ledger is single-threaded, and no locking is modelled.
