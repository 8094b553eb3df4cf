/** BankService.java as a class. It holds the account map, the transaction
    list and the counter, and it changes them in place. Each method is proved
    to match the function of the same name in LedgerSpec: the method's
    result and the state it leaves are the Step that function computes from
    the state before the call. */
module Service {
  import opened Decimal
  import opened Accounts
  import opened Transactions
  import opened LedgerSpec
  import LedgerProperties

  class BankService {
    var accounts: map<string, Account>
    var transactions: seq<Transaction>
    var transactionCounter: nat

    /** The ledger these fields and the accounts they point to represent. */
    ghost function State(): Ledger
      reads this, accounts.Values
    {
      Ledger(map k | k in accounts :: accounts[k].Snapshot(), transactions, transactionCounter)
    }

    /** The ledger invariant, read through the account objects. Because
        every account is stored under its own number, two numbers never
        share one Account object. */
    ghost predicate Valid()
      reads this, accounts.Values
    {
      Inv(State())
    }

    constructor ()
      ensures Valid() && State() == Empty()
      ensures accounts == map[]
    {
      accounts := map[];
      transactions := [];
      transactionCounter := 1;
      new;
      assert State().accounts == map[];
      LedgerProperties.EmptyStart();
    }

    /** generateAccountNumber: one past the number of accounts; under the
        invariant this number is not yet in use. */
    method GenerateAccountNumber() returns (accountNumber: string)
      requires Valid()
      ensures accountNumber == AccountNumber(|accounts| + 1)
      ensures accountNumber !in accounts
    {
      accountNumber := "ACC" + Pad6(|accounts| + 1);
      assert State().accounts.Keys == accounts.Keys;
      LedgerProperties.GeneratedNumberFresh(State());
    }

    /** recordTransaction: appends one entry under the next identifier and
        advances the counter; the accounts are untouched. */
    method RecordTransaction(accountNumber: string, kind: TransactionType, amount: real, description: string)
      modifies this
      ensures accounts == old(accounts)
      ensures State() == LedgerSpec.RecordTransaction(old(State()), accountNumber, kind, amount, description)
    {
      var transactionId := "TXN" + Pad6(transactionCounter);
      transactionCounter := transactionCounter + 1;
      transactions := transactions + [Transaction(transactionId, accountNumber, kind, amount, description)];
    }

    method CreateAccount(accountHolderName: string, initialDeposit: real, accountType: string)
      returns (r: Outcome<string>)
      requires Valid()
      modifies this
      ensures Valid()
      ensures Step(r, State()) == LedgerSpec.CreateAccount(old(State()), accountHolderName, initialDeposit, accountType)
      ensures r.Err? ==> accounts == old(accounts)
      ensures r.Ok? ==> r.value !in old(accounts) && r.value in accounts && fresh(accounts[r.value])
      ensures r.Ok? ==> accounts == old(accounts)[r.value := accounts[r.value]]
    {
      ghost var before := State();
      if initialDeposit < 0.0 {
        return Err(InvalidAmount);
      }
      var accountNumber := GenerateAccountNumber();
      assert accountNumber == LedgerSpec.GenerateAccountNumber(before) by {
        assert before.accounts.Keys == accounts.Keys;
      }
      LedgerProperties.CreateAccountSucceeds(before, accountHolderName, initialDeposit, accountType);
      LedgerProperties.CreateAccountKeepsInv(before, accountHolderName, initialDeposit, accountType);
      ghost var added := before.(accounts := before.accounts[accountNumber :=
                           NewAccount(accountNumber, accountHolderName, initialDeposit, accountType)]);
      var account := new Account(accountNumber, accountHolderName, initialDeposit, accountType);
      assert State() == before;
      Put(accountNumber, account);
      assert State() == added;
      ghost var stored := accounts;
      if initialDeposit > 0.0 {
        RecordTransaction(accountNumber, TransactionType.DEPOSIT, initialDeposit, "Initial deposit");
      }
      assert accounts == stored == old(accounts)[accountNumber := account];
      r := Ok(accountNumber);
    }

    /** accounts.put: stores an account under a number. The account
        objects themselves are not changed. */
    method Put(accountNumber: string, account: Account)
      modifies this`accounts
      ensures accounts == old(accounts)[accountNumber := account]
      ensures State() == old(State()).(accounts := old(State()).accounts[accountNumber := account.Snapshot()])
    {
      ghost var before := State();
      accounts := accounts[accountNumber := account];
      assert State().accounts == before.accounts[accountNumber := account.Snapshot()];
    }

    /** getAccount: the stored object, when the number is present and
        active. It changes nothing, so it is a function of the fields. */
    function GetAccount(accountNumber: string): (r: Outcome<Account>)
      reads this, accounts.Values
      ensures r.Ok? <==> accountNumber in accounts && accounts[accountNumber].active
      ensures r.Ok? ==> r.value == accounts[accountNumber]
      ensures r.Err? ==> r.error == AccountNotFound
      ensures LedgerSpec.GetAccount(State(), accountNumber) ==
                (if r.Ok? then Ok(r.value.Snapshot()) else Err(AccountNotFound))
    {
      if accountNumber in accounts && accounts[accountNumber].active
      then Ok(accounts[accountNumber])
      else Err(AccountNotFound)
    }

    method Deposit(accountNumber: string, amount: real) returns (r: Outcome<()>)
      requires Valid()
      modifies this, accounts.Values
      ensures Valid()
      ensures accounts == old(accounts)
      ensures Step(r, State()) == LedgerSpec.Deposit(old(State()), accountNumber, amount)
    {
      ghost var before := State();
      if amount <= 0.0 {
        return Err(InvalidAmount);
      }
      var found := GetAccount(accountNumber);
      if found.Err? {
        return Err(found.error);
      }
      var account := found.value;
      assert account in accounts.Values;
      assert Visible(before, accountNumber) && account.balance == before.accounts[accountNumber].balance;
      LedgerProperties.DepositSucceeds(before, accountNumber, amount);
      ghost var credited := LedgerSpec.SetBalance(before, accountNumber, before.accounts[accountNumber].balance + amount);
      SetBalance(accountNumber, account, account.balance + amount);
      assert State() == credited;
      RecordTransaction(accountNumber, TransactionType.DEPOSIT, amount, "Deposit");
      r := Ok(());
      assert State() == LedgerSpec.Deposit(before, accountNumber, amount).after;
      LedgerProperties.DepositKeepsInv(before, accountNumber, amount);
    }

    method Withdraw(accountNumber: string, amount: real) returns (r: Outcome<()>)
      requires Valid()
      modifies this, accounts.Values
      ensures Valid()
      ensures accounts == old(accounts)
      ensures Step(r, State()) == LedgerSpec.Withdraw(old(State()), accountNumber, amount)
    {
      ghost var before := State();
      if amount <= 0.0 {
        return Err(InvalidAmount);
      }
      var found := GetAccount(accountNumber);
      if found.Err? {
        return Err(found.error);
      }
      var account := found.value;
      assert account in accounts.Values;
      assert Visible(before, accountNumber) && account.balance == before.accounts[accountNumber].balance;
      if account.balance < amount {
        return Err(InsufficientFunds);
      }
      LedgerProperties.WithdrawSucceeds(before, accountNumber, amount);
      ghost var debited := LedgerSpec.SetBalance(before, accountNumber, before.accounts[accountNumber].balance - amount);
      SetBalance(accountNumber, account, account.balance - amount);
      assert State() == debited;
      RecordTransaction(accountNumber, TransactionType.WITHDRAWAL, amount, "Withdrawal");
      r := Ok(());
      assert State() == LedgerSpec.Withdraw(before, accountNumber, amount).after;
      LedgerProperties.WithdrawKeepsInv(before, accountNumber, amount);
    }

    /** setBalance on the account stored under a number. Every account is
        stored under its own number, so no other number shares the object
        and only that entry of the state changes. */
    method SetBalance(accountNumber: string, account: Account, balance: real)
      requires Valid() && accountNumber in accounts && accounts[accountNumber] == account
      modifies account`balance
      ensures State() == LedgerSpec.SetBalance(old(State()), accountNumber, balance)
    {
      ghost var before := State();
      assert account.accountNumber == accountNumber by {
        assert before.accounts[accountNumber].accountNumber == accountNumber;
      }
      forall k | k in accounts && k != accountNumber
        ensures accounts[k] != account
      {
        assert before.accounts[k].accountNumber == k;
      }
      account.SetBalance(balance);
      ghost var updated := before.accounts[accountNumber := before.accounts[accountNumber].(balance := balance)];
      forall k | k in accounts
        ensures State().accounts[k] == updated[k]
      {
        if k != accountNumber {
          assert accounts[k].Snapshot() == old(accounts[k].Snapshot());
        }
      }
      assert State().accounts == updated;
    }

    /** transfer: a withdraw, then a deposit, then one TRANSFER entry on each
        side. The steps are not undone when a later one fails. */
    method Transfer(fromAccount: string, toAccount: string, amount: real) returns (r: Outcome<()>)
      requires Valid()
      modifies this, accounts.Values
      ensures Valid()
      ensures accounts == old(accounts)
      ensures Step(r, State()) == LedgerSpec.Transfer(old(State()), fromAccount, toAccount, amount)
    {
      ghost var before := State();
      if fromAccount == toAccount {
        return Err(InvalidAmount);
      }
      r := Withdraw(fromAccount, amount);
      if r.Err? {
        return;
      }
      r := Deposit(toAccount, amount);
      if r.Err? {
        return;
      }
      RecordTransaction(fromAccount, TransactionType.TRANSFER, amount, "Transfer to " + toAccount);
      RecordTransaction(toAccount, TransactionType.TRANSFER, amount, "Transfer from " + fromAccount);
      r := Ok(());
      LedgerProperties.TransferKeepsInv(before, fromAccount, toAccount, amount);
    }

    /** getAccountTransactions: after the account check, one pass over the
        log keeping the entries of that account in order. */
    method GetAccountTransactions(accountNumber: string) returns (r: Outcome<seq<Transaction>>)
      ensures r == AccountTransactions(State(), accountNumber)
      ensures r.Err? <==> !(accountNumber in accounts && accounts[accountNumber].active)
      ensures r.Ok? ==> forall t :: t in r.value <==> t in transactions && t.accountNumber == accountNumber
    {
      var found := GetAccount(accountNumber);
      if found.Err? {
        return Err(found.error);
      }
      var selected: seq<Transaction> := [];
      var i := 0;
      while i < |transactions|
        invariant 0 <= i <= |transactions|
        invariant selected == ForAccount(transactions[..i], accountNumber)
      {
        assert transactions[..i + 1][..i] == transactions[..i];
        if transactions[i].accountNumber == accountNumber {
          selected := selected + [transactions[i]];
        }
        i := i + 1;
      }
      assert transactions[..i] == transactions;
      LedgerProperties.ForAccountMembers(transactions, accountNumber);
      return Ok(selected);
    }

    /** getTotalBankBalance: the balances of the active accounts, summed in
        whatever order the map yields them. */
    method GetTotalBankBalance() returns (total: real)
      ensures total == TotalBankBalance(State())
      ensures Valid() ==> total >= 0.0
    {
      ghost var m := State().accounts;
      assert m.Keys == accounts.Keys;
      var remaining := accounts.Keys;
      total := 0.0;
      while remaining != {}
        invariant remaining <= m.Keys
        invariant total + SumActive(m, remaining) == SumActive(m, m.Keys)
        decreases remaining
      {
        var k :| k in remaining;
        assert m[k] == accounts[k].Snapshot();
        LedgerProperties.SumActiveRemove(m, remaining, k);
        if accounts[k].active {
          total := total + accounts[k].balance;
        }
        remaining := remaining - {k};
      }
      if Valid() {
        LedgerProperties.TotalBankBalanceNonNegative(State());
      }
    }

    /** getTotalAccounts: the number of active accounts. */
    method GetTotalAccounts() returns (count: nat)
      ensures count == TotalAccounts(State())
      ensures count <= |accounts|
    {
      ghost var m := State().accounts;
      assert m.Keys == accounts.Keys;
      var remaining := accounts.Keys;
      count := 0;
      while remaining != {}
        invariant remaining <= m.Keys
        invariant count + |ActiveNumbers(m, remaining)| == |ActiveNumbers(m, m.Keys)|
        decreases remaining
      {
        var k :| k in remaining;
        assert m[k] == accounts[k].Snapshot();
        LedgerProperties.ActiveNumbersRemove(m, remaining, k);
        if accounts[k].active {
          count := count + 1;
        }
        remaining := remaining - {k};
      }
      assert ActiveNumbers(m, {}) == {};
      LedgerProperties.TotalAccountsBound(State());
      assert |m| == |accounts| by {
        assert |m.Keys| == |accounts.Keys|;
      }
    }
  }
}
