/** What the ledger guarantees: fresh and well-formed identifiers, the
    invariant every operation keeps, the exact effect and error outcome of
    each operation, conservation of money across transfers, and the order
    and contents of an account's history. */
module LedgerProperties {
  import opened Decimal
  import opened Accounts
  import opened Transactions
  import opened LedgerSpec
  import InputValidator

  // ---------------------------------------------------------------------
  // Identifiers

  lemma AccountNumberInjective(m: nat, n: nat)
    ensures AccountNumber(m) == AccountNumber(n) <==> m == n
  {
    if AccountNumber(m) == AccountNumber(n) {
      assert AccountNumber(m)[3..] == Pad6(m);
      assert AccountNumber(n)[3..] == Pad6(n);
      Pad6Injective(m, n);
    }
  }

  lemma TransactionIdInjective(m: nat, n: nat)
    ensures TransactionId(m) == TransactionId(n) <==> m == n
  {
    if TransactionId(m) == TransactionId(n) {
      assert TransactionId(m)[3..] == Pad6(m);
      assert TransactionId(n)[3..] == Pad6(n);
      Pad6Injective(m, n);
    }
  }

  /** After n creations the keys are exactly the numbers 1..n in `ACC%06d` form. */
  lemma {:induction false} IssuedExactly(n: nat, k: string)
    ensures k in Issued(n) <==> exists i :: 1 <= i <= n && k == AccountNumber(i)
  {
    if n > 0 {
      IssuedExactly(n - 1, k);
      assert Issued(n) == Issued(n - 1) + {AccountNumber(n)};
      if k !in Issued(n - 1) && k != AccountNumber(n) {
        forall i | 1 <= i <= n ensures k != AccountNumber(i) {
          if i < n { assert !(1 <= i <= n - 1 && k == AccountNumber(i)); }
        }
      }
    }
  }

  /** A number generated later was not handed out before. */
  lemma {:induction false} NotYetIssued(n: nat, m: nat)
    requires m > n
    ensures AccountNumber(m) !in Issued(n)
  {
    if n > 0 {
      NotYetIssued(n - 1, m);
      AccountNumberInjective(m, n);
    }
  }

  lemma {:induction false} IssuedCount(n: nat)
    ensures |Issued(n)| == n
  {
    if n > 0 {
      IssuedCount(n - 1);
      NotYetIssued(n - 1, n);
    }
  }

  /** A generated account number passes the shell's account-number check
      exactly while the sequence number has at most six digits. */
  lemma GeneratedNumberValid(sequenceNumber: nat)
    ensures InputValidator.IsValidAccountNumber(InputValidator.Some(AccountNumber(sequenceNumber)))
            <==> sequenceNumber < 1000000
  {
    var s := AccountNumber(sequenceNumber);
    Pad6Width(sequenceNumber);
    InputValidator.IsValidAccountNumberIff(InputValidator.Some(s));
    assert forall i :: 3 <= i < |s| ==> s[i] == Pad6(sequenceNumber)[i - 3];
    assert s[0] == 'A' && s[1] == 'C' && s[2] == 'C';
  }

  /** An amount the shell accepts always passes the ledger's amount guard,
      so deposit then fails only on the account lookup; the ledger itself
      has no upper bound. */
  lemma ValidAmountPassesGuard(L: Ledger, n: string, amount: real)
    ensures InputValidator.IsValidAmount(amount) ==>
              && Deposit(L, n, amount).result != Err(InvalidAmount)
              && Withdraw(L, n, amount).result != Err(InvalidAmount)
              && (Deposit(L, n, amount).result.Ok? <==> Visible(L, n))
    ensures amount > 1000000.0 ==>
              !InputValidator.IsValidAmount(amount) && Deposit(L, n, amount).result != Err(InvalidAmount)
    ensures amount <= 0.0 ==>
              !InputValidator.IsValidAmount(amount) && Deposit(L, n, amount).result == Err(InvalidAmount)
  {
  }

  /** The identifiers in the log are the counter values 1, 2, 3, ... in order,
      so no two entries share one. */
  lemma TransactionIdsDistinct(L: Ledger)
    requires Inv(L)
    ensures forall i, j :: 0 <= i < |L.transactions| && 0 <= j < |L.transactions| ==>
              (L.transactions[i].transactionId == L.transactions[j].transactionId <==> i == j)
  {
    var log := L.transactions;
    assert forall i :: 0 <= i < |log| ==> log[i].transactionId == TransactionId(i + 1) by {
      forall i | 0 <= i < |log| ensures log[i].transactionId == TransactionId(i + 1) {
        assert WellFormedEntry(L, i);
      }
    }
    NumberedIdsDistinct(log);
  }

  lemma NumberedIdsDistinct(log: seq<Transaction>)
    requires forall i :: 0 <= i < |log| ==> log[i].transactionId == TransactionId(i + 1)
    ensures forall i, j :: 0 <= i < |log| && 0 <= j < |log| ==>
              (log[i].transactionId == log[j].transactionId <==> i == j)
  {
    forall i, j | 0 <= i < |log| && 0 <= j < |log|
      ensures log[i].transactionId == log[j].transactionId <==> i == j
    {
      TransactionIdInjective(i + 1, j + 1);
    }
  }

  // ---------------------------------------------------------------------
  // Totals over the account map

  lemma {:induction false} SumActiveRemove(m: map<string, AccountState>, keys: set<string>, k: string)
    requires keys <= m.Keys && k in keys
    ensures SumActive(m, keys) == Contribution(m[k]) + SumActive(m, keys - {k})
    decreases keys
  {
    var j :| j in keys && SumActive(m, keys) == Contribution(m[j]) + SumActive(m, keys - {j});
    if j != k {
      SumActiveRemove(m, keys - {j}, k);
      SumActiveRemove(m, keys - {k}, j);
      assert keys - {j} - {k} == keys - {k} - {j};
    }
  }

  lemma {:induction false} SumActiveAgree(m1: map<string, AccountState>, m2: map<string, AccountState>, keys: set<string>)
    requires keys <= m1.Keys && keys <= m2.Keys
    requires forall k :: k in keys ==> m1[k] == m2[k]
    ensures SumActive(m1, keys) == SumActive(m2, keys)
    decreases keys
  {
    if keys != {} {
      var k :| k in keys;
      SumActiveRemove(m1, keys, k);
      SumActiveRemove(m2, keys, k);
      SumActiveAgree(m1, m2, keys - {k});
    }
  }

  lemma SumActiveUpdate(m: map<string, AccountState>, keys: set<string>, k: string, a: AccountState)
    requires keys <= m.Keys && k in keys
    ensures SumActive(m[k := a], keys) == SumActive(m, keys) - Contribution(m[k]) + Contribution(a)
  {
    SumActiveRemove(m[k := a], keys, k);
    SumActiveRemove(m, keys, k);
    SumActiveAgree(m[k := a], m, keys - {k});
  }

  lemma SumActiveInsert(m: map<string, AccountState>, k: string, a: AccountState)
    requires k !in m
    ensures SumActive(m[k := a], m.Keys + {k}) == SumActive(m, m.Keys) + Contribution(a)
  {
    SumActiveRemove(m[k := a], m.Keys + {k}, k);
    assert m.Keys + {k} - {k} == m.Keys;
    SumActiveAgree(m[k := a], m, m.Keys);
  }

  lemma {:induction false} SumActiveNonNegative(m: map<string, AccountState>, keys: set<string>)
    requires keys <= m.Keys
    requires forall k :: k in keys ==> m[k].balance >= 0.0
    ensures SumActive(m, keys) >= 0.0
    decreases keys
  {
    if keys != {} {
      var k :| k in keys;
      SumActiveRemove(m, keys, k);
      SumActiveNonNegative(m, keys - {k});
    }
  }

  /** Changing one balance moves the bank's total by the difference and
      leaves the number of active accounts alone. */
  lemma SetBalanceTotals(L: Ledger, n: string, balance: real)
    requires n in L.accounts
    ensures TotalBankBalance(SetBalance(L, n, balance)) ==
            TotalBankBalance(L) - Contribution(L.accounts[n]) + Contribution(L.accounts[n].(balance := balance))
    ensures TotalAccounts(SetBalance(L, n, balance)) == TotalAccounts(L)
  {
    var m := L.accounts;
    var m' := SetBalance(L, n, balance).accounts;
    assert m'.Keys == m.Keys;
    SumActiveUpdate(m, m.Keys, n, m[n].(balance := balance));
    assert ActiveNumbers(m', m'.Keys) == ActiveNumbers(m, m.Keys);
  }

  /** Counting the active accounts one number at a time. */
  lemma ActiveNumbersRemove(m: map<string, AccountState>, keys: set<string>, k: string)
    requires keys <= m.Keys && k in keys
    ensures |ActiveNumbers(m, keys)| == (if m[k].active then 1 else 0) + |ActiveNumbers(m, keys - {k})|
  {
    if m[k].active {
      assert ActiveNumbers(m, keys) == ActiveNumbers(m, keys - {k}) + {k};
    } else {
      assert ActiveNumbers(m, keys) == ActiveNumbers(m, keys - {k});
    }
  }

  lemma TotalBankBalanceNonNegative(L: Ledger)
    requires Inv(L)
    ensures TotalBankBalance(L) >= 0.0
  {
    SumActiveNonNegative(L.accounts, L.accounts.Keys);
  }

  lemma TotalAccountsBound(L: Ledger)
    ensures TotalAccounts(L) <= |L.accounts|
  {
    var active := ActiveNumbers(L.accounts, L.accounts.Keys);
    assert active <= L.accounts.Keys;
    assert |L.accounts.Keys| == |L.accounts|;
    SubsetCard(active, L.accounts.Keys);
  }

  lemma {:induction false} SubsetCard(a: set<string>, b: set<string>)
    requires a <= b
    ensures |a| <= |b|
    decreases b
  {
    if a != {} {
      var x :| x in a;
      SubsetCard(a - {x}, b - {x});
    }
  }

  // ---------------------------------------------------------------------
  // The invariant and the effect of each operation

  lemma EmptyStart()
    ensures Inv(Empty())
    ensures TotalBankBalance(Empty()) == 0.0 && TotalAccounts(Empty()) == 0
  {
    assert ActiveNumbers(Empty().accounts, {}) == {};
  }

  /** recordTransaction keeps the invariant when it logs a positive amount
      against an existing account, as every caller in the ledger does. */
  lemma RecordKeepsInv(L: Ledger, n: string, kind: TransactionType, amount: real, description: string)
    requires Inv(L) && n in L.accounts && amount > 0.0
    ensures Inv(RecordTransaction(L, n, kind, amount, description))
  {
    var L' := RecordTransaction(L, n, kind, amount, description);
    forall i | 0 <= i < |L'.transactions| ensures WellFormedEntry(L', i) {
      if i < |L.transactions| { assert WellFormedEntry(L, i); }
    }
  }

  /** Under the invariant, recordTransaction appends an entry whose
      identifier no earlier entry carries. */
  lemma RecordTransactionFresh(L: Ledger, n: string, kind: TransactionType, amount: real, description: string)
    requires Inv(L)
    ensures var L' := RecordTransaction(L, n, kind, amount, description);
      && L'.accounts == L.accounts
      && L'.transactions == L.transactions + [Transaction(TransactionId(L.transactionCounter), n, kind, amount, description)]
      && forall i :: 0 <= i < |L.transactions| ==> L.transactions[i].transactionId != TransactionId(L.transactionCounter)
  {
    forall i | 0 <= i < |L.transactions|
      ensures L.transactions[i].transactionId != TransactionId(L.transactionCounter)
    {
      assert WellFormedEntry(L, i);
      TransactionIdInjective(i + 1, L.transactionCounter);
    }
  }

  /** Setting a non-negative balance keeps the invariant. */
  lemma SetBalanceInv(L: Ledger, n: string, balance: real)
    requires Inv(L) && n in L.accounts && balance >= 0.0
    ensures Inv(SetBalance(L, n, balance))
  {
    var L' := SetBalance(L, n, balance);
    assert L'.accounts.Keys == L.accounts.Keys;
    forall i | 0 <= i < |L'.transactions| ensures WellFormedEntry(L', i) {
      assert WellFormedEntry(L, i);
    }
  }

  /** createAccount: a negative initial deposit is refused and changes
      nothing; otherwise the next number is issued, the account stored and,
      for a positive deposit only, one DEPOSIT entry appended. */
  lemma CreateAccountOutcome(L: Ledger, name: string, initialDeposit: real, accountType: string)
    ensures var s := CreateAccount(L, name, initialDeposit, accountType);
      && (s.result.Err? <==> initialDeposit < 0.0)
      && (s.result.Err? ==> s.result.error == InvalidAmount && s.after == L)
      && (s.result.Ok? ==>
            var n := AccountNumber(|L.accounts| + 1);
            && s.result.value == n
            && s.after.accounts == L.accounts[n := NewAccount(n, name, initialDeposit, accountType)]
            && s.after.transactions ==
                 L.transactions +
                 (if initialDeposit > 0.0
                  then [Transaction(TransactionId(L.transactionCounter), n, TransactionType.DEPOSIT, initialDeposit, "Initial deposit")]
                  else []))
  {
  }

  /** The successful path of createAccount as one equation: a proof step that
      unfolds the function for the proof of the class method in
      bank_service.dfy, not a property of its own. */
  lemma CreateAccountSucceeds(L: Ledger, name: string, initialDeposit: real, accountType: string)
    requires initialDeposit >= 0.0
    ensures var n := GenerateAccountNumber(L);
      var added := L.(accounts := L.accounts[n := NewAccount(n, name, initialDeposit, accountType)]);
      CreateAccount(L, name, initialDeposit, accountType) ==
        Step(Ok(n), if initialDeposit > 0.0
                    then RecordTransaction(added, n, TransactionType.DEPOSIT, initialDeposit, "Initial deposit")
                    else added)
  {
  }

  /** Under the invariant the next generated number is not yet in use. */
  lemma GeneratedNumberFresh(L: Ledger)
    requires Inv(L)
    ensures GenerateAccountNumber(L) !in L.accounts
  {
    NotYetIssued(|L.accounts|, |L.accounts| + 1);
  }

  /** Storing a new account under the generated number keeps the invariant. */
  lemma AddAccountInv(L: Ledger, a: AccountState)
    requires Inv(L) && a.accountNumber == GenerateAccountNumber(L) && a.balance >= 0.0
    ensures var L' := L.(accounts := L.accounts[a.accountNumber := a]);
      && Inv(L') && |L'.accounts| == |L.accounts| + 1
  {
    var n := a.accountNumber;
    GeneratedNumberFresh(L);
    var L' := L.(accounts := L.accounts[n := a]);
    assert L'.accounts.Keys == L.accounts.Keys + {n};
    assert |L'.accounts| == |L.accounts| + 1;
    assert L'.accounts.Keys == Issued(|L'.accounts|);
    forall i | 0 <= i < |L'.transactions| ensures WellFormedEntry(L', i) {
      assert WellFormedEntry(L, i);
    }
  }

  /** Under the invariant the generated number is new, so creation adds one
      account and replaces none; the invariant is kept either way. */
  lemma CreateAccountKeepsInv(L: Ledger, name: string, initialDeposit: real, accountType: string)
    requires Inv(L)
    ensures var s := CreateAccount(L, name, initialDeposit, accountType);
      && Inv(s.after)
      && (s.result.Ok? ==>
            && s.result.value !in L.accounts
            && |s.after.accounts| == |L.accounts| + 1)
  {
    if initialDeposit >= 0.0 {
      var n := GenerateAccountNumber(L);
      var a := NewAccount(n, name, initialDeposit, accountType);
      var added := L.(accounts := L.accounts[n := a]);
      GeneratedNumberFresh(L);
      AddAccountInv(L, a);
      if initialDeposit > 0.0 {
        var logged := RecordTransaction(added, n, TransactionType.DEPOSIT, initialDeposit, "Initial deposit");
        RecordKeepsInv(added, n, TransactionType.DEPOSIT, initialDeposit, "Initial deposit");
        assert CreateAccount(L, name, initialDeposit, accountType) == Step(Ok(n), logged);
      } else {
        assert CreateAccount(L, name, initialDeposit, accountType) == Step(Ok(n), added);
      }
    }
  }

  /** A new account brings its initial deposit into the bank's total and
      counts as one more active account. */
  lemma CreateAccountTotals(L: Ledger, name: string, initialDeposit: real, accountType: string)
    requires Inv(L)
    requires CreateAccount(L, name, initialDeposit, accountType).result.Ok?
    ensures var s := CreateAccount(L, name, initialDeposit, accountType);
      && TotalBankBalance(s.after) == TotalBankBalance(L) + initialDeposit
      && TotalAccounts(s.after) == TotalAccounts(L) + 1
  {
    var n := GenerateAccountNumber(L);
    var a := NewAccount(n, name, initialDeposit, accountType);
    GeneratedNumberFresh(L);
    CreateAccountOutcome(L, name, initialDeposit, accountType);
    AddAccountTotals(L.accounts, n, a);
  }

  /** Adding an active account adds its balance to the total and one to the
      number of active accounts. */
  lemma AddAccountTotals(m: map<string, AccountState>, n: string, a: AccountState)
    requires n !in m && a.active
    ensures SumActive(m[n := a], m[n := a].Keys) == SumActive(m, m.Keys) + a.balance
    ensures |ActiveNumbers(m[n := a], m[n := a].Keys)| == |ActiveNumbers(m, m.Keys)| + 1
  {
    assert m[n := a].Keys == m.Keys + {n};
    SumActiveInsert(m, n, a);
    assert ActiveNumbers(m[n := a], m[n := a].Keys) == ActiveNumbers(m, m.Keys) + {n};
  }

  /** getAccount finds exactly the present, active accounts; absent and
      inactive ones fail alike. */
  lemma GetAccountSpec(L: Ledger, n: string)
    ensures GetAccount(L, n).Ok? <==> n in L.accounts && L.accounts[n].active
    ensures GetAccount(L, n).Ok? ==> GetAccount(L, n).value == L.accounts[n]
    ensures GetAccount(L, n).Err? ==> GetAccount(L, n).error == AccountNotFound
  {
  }

  /** deposit's guards, in the order the source checks them; a refused
      deposit changes nothing. */
  lemma DepositOutcome(L: Ledger, n: string, amount: real)
    ensures var s := Deposit(L, n, amount);
      && (s.result == Err(InvalidAmount) <==> amount <= 0.0)
      && (s.result == Err(AccountNotFound) <==> amount > 0.0 && !Visible(L, n))
      && (s.result.Ok? <==> amount > 0.0 && Visible(L, n))
      && (s.result.Err? ==> s.after == L)
  {
  }

  /** The successful path of deposit as one equation: a proof step that
      unfolds the function for the proof of the class method in
      bank_service.dfy, not a property of its own. */
  lemma DepositSucceeds(L: Ledger, n: string, amount: real)
    requires amount > 0.0 && Visible(L, n)
    ensures Deposit(L, n, amount) ==
      Step(Ok(()), RecordTransaction(SetBalance(L, n, L.accounts[n].balance + amount),
                                     n, TransactionType.DEPOSIT, amount, "Deposit"))
  {
  }

  /** A successful deposit raises exactly the target's balance by the amount
      and appends one DEPOSIT entry. */
  lemma DepositEffect(L: Ledger, n: string, amount: real)
    requires Deposit(L, n, amount).result.Ok?
    ensures n in L.accounts
    ensures var s := Deposit(L, n, amount);
      && s.after.accounts == L.accounts[n := L.accounts[n].(balance := L.accounts[n].balance + amount)]
      && s.after.transactions ==
           L.transactions + [Transaction(TransactionId(L.transactionCounter), n, TransactionType.DEPOSIT, amount, "Deposit")]
      && s.after.transactionCounter == L.transactionCounter + 1
  {
  }

  lemma DepositKeepsInv(L: Ledger, n: string, amount: real)
    requires Inv(L)
    ensures Inv(Deposit(L, n, amount).after)
  {
    if amount > 0.0 && Visible(L, n) {
      var b := L.accounts[n].balance + amount;
      var credited := SetBalance(L, n, b);
      assert Deposit(L, n, amount).after == RecordTransaction(credited, n, TransactionType.DEPOSIT, amount, "Deposit");
      assert Inv(credited) by {
        assert L.accounts[n].balance >= 0.0;
        SetBalanceInv(L, n, b);
      }
      RecordKeepsInv(credited, n, TransactionType.DEPOSIT, amount, "Deposit");
    }
  }

  lemma DepositTotals(L: Ledger, n: string, amount: real)
    requires Deposit(L, n, amount).result.Ok?
    ensures TotalBankBalance(Deposit(L, n, amount).after) == TotalBankBalance(L) + amount
    ensures TotalAccounts(Deposit(L, n, amount).after) == TotalAccounts(L)
  {
    var credited := SetBalance(L, n, L.accounts[n].balance + amount);
    assert Deposit(L, n, amount).after.accounts == credited.accounts;
    SetBalanceTotals(L, n, L.accounts[n].balance + amount);
  }

  /** withdraw's guards, in the order the source checks them; a refused
      withdrawal changes nothing. */
  lemma WithdrawOutcome(L: Ledger, n: string, amount: real)
    ensures var s := Withdraw(L, n, amount);
      && (s.result == Err(InvalidAmount) <==> amount <= 0.0)
      && (s.result == Err(AccountNotFound) <==> amount > 0.0 && !Visible(L, n))
      && (s.result == Err(InsufficientFunds) <==>
            amount > 0.0 && Visible(L, n) && L.accounts[n].balance < amount)
      && (s.result.Ok? <==> amount > 0.0 && Visible(L, n) && L.accounts[n].balance >= amount)
      && (s.result.Err? ==> s.after == L)
  {
  }

  /** The successful path of withdraw as one equation: a proof step that
      unfolds the function for the proof of the class method in
      bank_service.dfy, not a property of its own. */
  lemma WithdrawSucceeds(L: Ledger, n: string, amount: real)
    requires amount > 0.0 && Visible(L, n) && L.accounts[n].balance >= amount
    ensures Withdraw(L, n, amount) ==
      Step(Ok(()), RecordTransaction(SetBalance(L, n, L.accounts[n].balance - amount),
                                     n, TransactionType.WITHDRAWAL, amount, "Withdrawal"))
  {
  }

  /** A successful withdrawal lowers exactly the source's balance by the
      amount, never below zero, and appends one WITHDRAWAL entry. */
  lemma WithdrawEffect(L: Ledger, n: string, amount: real)
    requires Withdraw(L, n, amount).result.Ok?
    ensures n in L.accounts
    ensures var s := Withdraw(L, n, amount);
      && s.after.accounts == L.accounts[n := L.accounts[n].(balance := L.accounts[n].balance - amount)]
      && s.after.accounts[n].balance >= 0.0
      && s.after.transactions ==
           L.transactions + [Transaction(TransactionId(L.transactionCounter), n, TransactionType.WITHDRAWAL, amount, "Withdrawal")]
      && s.after.transactionCounter == L.transactionCounter + 1
  {
  }

  lemma WithdrawKeepsInv(L: Ledger, n: string, amount: real)
    requires Inv(L)
    ensures Inv(Withdraw(L, n, amount).after)
  {
    if amount > 0.0 && Visible(L, n) && L.accounts[n].balance >= amount {
      var b := L.accounts[n].balance - amount;
      var debited := SetBalance(L, n, b);
      assert Withdraw(L, n, amount).after == RecordTransaction(debited, n, TransactionType.WITHDRAWAL, amount, "Withdrawal");
      assert Inv(debited) by {
        SetBalanceInv(L, n, b);
      }
      RecordKeepsInv(debited, n, TransactionType.WITHDRAWAL, amount, "Withdrawal");
    }
  }

  lemma WithdrawTotals(L: Ledger, n: string, amount: real)
    requires Withdraw(L, n, amount).result.Ok?
    ensures TotalBankBalance(Withdraw(L, n, amount).after) == TotalBankBalance(L) - amount
    ensures TotalAccounts(Withdraw(L, n, amount).after) == TotalAccounts(L)
  {
    var debited := SetBalance(L, n, L.accounts[n].balance - amount);
    assert Withdraw(L, n, amount).after.accounts == debited.accounts;
    SetBalanceTotals(L, n, L.accounts[n].balance - amount);
  }

  /** The four entries a successful transfer appends, in order. */
  function TransferEntries(counter: nat, fromAccount: string, toAccount: string, amount: real): seq<Transaction>
  {
    [Transaction(TransactionId(counter), fromAccount, TransactionType.WITHDRAWAL, amount, "Withdrawal"),
     Transaction(TransactionId(counter + 1), toAccount, TransactionType.DEPOSIT, amount, "Deposit"),
     Transaction(TransactionId(counter + 2), fromAccount, TransactionType.TRANSFER, amount, "Transfer to " + toAccount),
     Transaction(TransactionId(counter + 3), toAccount, TransactionType.TRANSFER, amount, "Transfer from " + fromAccount)]
  }

  /** transfer's guards: a self-transfer is refused before anything happens;
      otherwise a failing debit leg changes nothing, and a failing credit leg
      leaves the debit applied. */
  lemma TransferOutcome(L: Ledger, fromAccount: string, toAccount: string, amount: real)
    ensures var s := Transfer(L, fromAccount, toAccount, amount);
      && (fromAccount == toAccount ==> s == Step(Err(InvalidAmount), L))
      && (s.result.Ok? <==>
            fromAccount != toAccount && amount > 0.0 && Visible(L, fromAccount) && Visible(L, toAccount) &&
            L.accounts[fromAccount].balance >= amount)
      && (fromAccount != toAccount && Withdraw(L, fromAccount, amount).result.Err? ==>
            s.result == Withdraw(L, fromAccount, amount).result && s.after == L)
      && (fromAccount != toAccount && Withdraw(L, fromAccount, amount).result.Ok? && !Visible(L, toAccount) ==>
            s == Step(Err(AccountNotFound), Withdraw(L, fromAccount, amount).after))
  {
    if fromAccount != toAccount {
      var w := Withdraw(L, fromAccount, amount);
      WithdrawOutcome(L, fromAccount, amount);
      if w.result.Ok? {
        DepositOutcome(w.after, toAccount, amount);
        assert Visible(w.after, toAccount) <==> Visible(L, toAccount);
      }
    }
  }

  /** The balances after a successful transfer: the amount leaves one
      account and arrives in the other; no other account changes. */
  lemma TransferBalances(L: Ledger, fromAccount: string, toAccount: string, amount: real)
    requires Transfer(L, fromAccount, toAccount, amount).result.Ok?
    ensures fromAccount in L.accounts && toAccount in L.accounts
    ensures Transfer(L, fromAccount, toAccount, amount).after.accounts ==
           L.accounts[fromAccount := L.accounts[fromAccount].(balance := L.accounts[fromAccount].balance - amount)]
                     [toAccount := L.accounts[toAccount].(balance := L.accounts[toAccount].balance + amount)]
  {
    var w := Withdraw(L, fromAccount, amount);
    var debited := L.accounts[fromAccount := L.accounts[fromAccount].(balance := L.accounts[fromAccount].balance - amount)];
    assert w.after.accounts == debited;
    var d := Deposit(w.after, toAccount, amount);
    assert d.after.accounts == debited[toAccount := debited[toAccount].(balance := debited[toAccount].balance + amount)];
  }

  /** A successful transfer appends four entries in a fixed order: the
      withdrawal, the deposit, then a TRANSFER entry on each side. */
  lemma TransferLog(L: Ledger, fromAccount: string, toAccount: string, amount: real)
    requires Transfer(L, fromAccount, toAccount, amount).result.Ok?
    ensures Transfer(L, fromAccount, toAccount, amount).after.transactions ==
              L.transactions + TransferEntries(L.transactionCounter, fromAccount, toAccount, amount)
  {
    var c := L.transactionCounter;
    var w := Withdraw(L, fromAccount, amount);
    WithdrawEffect(L, fromAccount, amount);
    var d := Deposit(w.after, toAccount, amount);
    DepositEffect(w.after, toAccount, amount);
    var out := RecordTransaction(d.after, fromAccount, TransactionType.TRANSFER, amount, "Transfer to " + toAccount);
    var fin := RecordTransaction(out, toAccount, TransactionType.TRANSFER, amount, "Transfer from " + fromAccount);
    assert Transfer(L, fromAccount, toAccount, amount).after == fin;
    var e := TransferEntries(c, fromAccount, toAccount, amount);
    assert fin.transactions == L.transactions + [e[0]] + [e[1]] + [e[2]] + [e[3]];
    assert [e[0]] + [e[1]] + [e[2]] + [e[3]] == e;
  }

  /** Every transfer keeps the invariant, whichever way it ends. */
  lemma TransferKeepsInv(L: Ledger, fromAccount: string, toAccount: string, amount: real)
    requires Inv(L)
    ensures Inv(Transfer(L, fromAccount, toAccount, amount).after)
  {
    if fromAccount != toAccount {
      var w := Withdraw(L, fromAccount, amount);
      WithdrawKeepsInv(L, fromAccount, amount);
      if w.result.Ok? {
        var d := Deposit(w.after, toAccount, amount);
        DepositKeepsInv(w.after, toAccount, amount);
        if d.result.Ok? {
          DepositOutcome(w.after, toAccount, amount);
          var out := RecordTransaction(d.after, fromAccount, TransactionType.TRANSFER, amount, "Transfer to " + toAccount);
          RecordKeepsInv(d.after, fromAccount, TransactionType.TRANSFER, amount, "Transfer to " + toAccount);
          RecordKeepsInv(out, toAccount, TransactionType.TRANSFER, amount, "Transfer from " + fromAccount);
        }
      }
    }
  }

  /** Money is conserved by a successful transfer; when the credit leg fails
      the debited amount is missing from the bank's total. */
  lemma TransferTotals(L: Ledger, fromAccount: string, toAccount: string, amount: real)
    ensures var s := Transfer(L, fromAccount, toAccount, amount);
      && (s.result.Ok? ==>
            TotalBankBalance(s.after) == TotalBankBalance(L) && TotalAccounts(s.after) == TotalAccounts(L))
      && (fromAccount != toAccount && Withdraw(L, fromAccount, amount).result.Ok? && !Visible(L, toAccount) ==>
            s.result == Err(AccountNotFound) && TotalBankBalance(s.after) == TotalBankBalance(L) - amount)
  {
    TransferOutcome(L, fromAccount, toAccount, amount);
    if fromAccount != toAccount {
      var w := Withdraw(L, fromAccount, amount);
      WithdrawOutcome(L, fromAccount, amount);
      if w.result.Ok? {
        WithdrawTotals(L, fromAccount, amount);
        if Visible(L, toAccount) {
          var d := Deposit(w.after, toAccount, amount);
          DepositOutcome(w.after, toAccount, amount);
          DepositTotals(w.after, toAccount, amount);
          var out := RecordTransaction(d.after, fromAccount, TransactionType.TRANSFER, amount, "Transfer to " + toAccount);
          assert Transfer(L, fromAccount, toAccount, amount).after.accounts == d.after.accounts;
        }
      }
    }
  }

  // ---------------------------------------------------------------------
  // Sequences of requests

  /** L' extends L: the log only grew, and every account of L is still there
      under its number with its holder, type and active flag unchanged. */
  predicate Extends(L: Ledger, L': Ledger)
  {
    && L.transactions <= L'.transactions
    && L.transactionCounter <= L'.transactionCounter
    && (forall k :: k in L.accounts ==>
          && k in L'.accounts
          && L'.accounts[k].accountNumber == L.accounts[k].accountNumber
          && L'.accounts[k].accountHolderName == L.accounts[k].accountHolderName
          && L'.accounts[k].accountType == L.accounts[k].accountType
          && L'.accounts[k].active == L.accounts[k].active)
  }

  lemma ApplyKeepsInv(L: Ledger, r: Request)
    requires Inv(L)
    ensures Inv(Apply(L, r))
  {
    match r
    case CreateRequest(name, initial, kind) =>
      CreateAccountKeepsInv(L, name, initial, kind);
    case DepositRequest(n, amount) =>
      DepositKeepsInv(L, n, amount);
    case WithdrawRequest(n, amount) =>
      WithdrawKeepsInv(L, n, amount);
    case TransferRequest(from, to, amount) =>
      TransferKeepsInv(L, from, to, amount);
  }

  /** Changing a balance and appending entries extends a ledger. */
  lemma SetBalanceExtends(L: Ledger, n: string, balance: real)
    requires n in L.accounts
    ensures Extends(L, SetBalance(L, n, balance))
  {
  }

  lemma RecordExtends(L: Ledger, n: string, kind: TransactionType, amount: real, description: string)
    ensures Extends(L, RecordTransaction(L, n, kind, amount, description))
  {
  }

  lemma ExtendsTransitive(L1: Ledger, L2: Ledger, L3: Ledger)
    requires Extends(L1, L2) && Extends(L2, L3)
    ensures Extends(L1, L3)
  {
  }

  lemma DepositExtends(L: Ledger, n: string, amount: real)
    ensures Extends(L, Deposit(L, n, amount).after)
  {
    if amount > 0.0 && Visible(L, n) {
      var credited := SetBalance(L, n, L.accounts[n].balance + amount);
      SetBalanceExtends(L, n, L.accounts[n].balance + amount);
      RecordExtends(credited, n, TransactionType.DEPOSIT, amount, "Deposit");
      ExtendsTransitive(L, credited, Deposit(L, n, amount).after);
    }
  }

  lemma WithdrawExtends(L: Ledger, n: string, amount: real)
    ensures Extends(L, Withdraw(L, n, amount).after)
  {
    if amount > 0.0 && Visible(L, n) && L.accounts[n].balance >= amount {
      var debited := SetBalance(L, n, L.accounts[n].balance - amount);
      SetBalanceExtends(L, n, L.accounts[n].balance - amount);
      RecordExtends(debited, n, TransactionType.WITHDRAWAL, amount, "Withdrawal");
      ExtendsTransitive(L, debited, Withdraw(L, n, amount).after);
    }
  }

  lemma TransferExtends(L: Ledger, fromAccount: string, toAccount: string, amount: real)
    ensures Extends(L, Transfer(L, fromAccount, toAccount, amount).after)
  {
    if fromAccount != toAccount {
      var w := Withdraw(L, fromAccount, amount);
      WithdrawExtends(L, fromAccount, amount);
      if w.result.Ok? {
        var d := Deposit(w.after, toAccount, amount);
        DepositExtends(w.after, toAccount, amount);
        ExtendsTransitive(L, w.after, d.after);
        if d.result.Ok? {
          var out := RecordTransaction(d.after, fromAccount, TransactionType.TRANSFER, amount, "Transfer to " + toAccount);
          RecordExtends(d.after, fromAccount, TransactionType.TRANSFER, amount, "Transfer to " + toAccount);
          RecordExtends(out, toAccount, TransactionType.TRANSFER, amount, "Transfer from " + fromAccount);
          ExtendsTransitive(L, d.after, out);
          ExtendsTransitive(L, out, Transfer(L, fromAccount, toAccount, amount).after);
        }
      }
    }
  }

  /** Only the creation of an account can add a key, and it never replaces one. */
  lemma ApplyExtends(L: Ledger, r: Request)
    requires Inv(L)
    ensures Extends(L, Apply(L, r))
  {
    match r
    case CreateRequest(name, initial, kind) =>
      CreateAccountOutcome(L, name, initial, kind);
      CreateAccountKeepsInv(L, name, initial, kind);
    case DepositRequest(n, amount) =>
      DepositExtends(L, n, amount);
    case WithdrawRequest(n, amount) =>
      WithdrawExtends(L, n, amount);
    case TransferRequest(from, to, amount) =>
      TransferExtends(L, from, to, amount);
  }

  /** Any sequence of requests keeps the invariant, so in particular no
      balance ever becomes negative; accounts are never dropped or
      overwritten and the log is only appended to. */
  lemma {:induction false} RunSpec(L: Ledger, requests: seq<Request>)
    requires Inv(L)
    ensures Inv(Run(L, requests)) && Extends(L, Run(L, requests))
    ensures forall k :: k in Run(L, requests).accounts ==> Run(L, requests).accounts[k].balance >= 0.0
    decreases |requests|
  {
    if requests != [] {
      var L1 := Apply(L, requests[0]);
      ApplyKeepsInv(L, requests[0]);
      ApplyExtends(L, requests[0]);
      RunSpec(L1, requests[1..]);
      ExtendsTransitive(L, L1, Run(L1, requests[1..]));
    }
  }

  // ---------------------------------------------------------------------
  // An account's history

  lemma {:induction false} ForAccountMembers(log: seq<Transaction>, n: string)
    ensures forall t :: t in ForAccount(log, n) <==> t in log && t.accountNumber == n
    decreases |log|
  {
    if log != [] {
      var init := log[..|log| - 1];
      ForAccountMembers(init, n);
      assert log == init + [log[|log| - 1]];
    }
  }

  /** The history is the subsequence of the log at exactly the positions whose
      entry belongs to the account, in increasing order. */
  lemma {:induction false} ForAccountPositions(log: seq<Transaction>, n: string) returns (idx: seq<nat>)
    ensures |idx| == |ForAccount(log, n)|
    ensures forall j :: 0 <= j < |idx| ==> idx[j] < |log| && ForAccount(log, n)[j] == log[idx[j]]
    ensures forall j, j' :: 0 <= j < j' < |idx| ==> idx[j] < idx[j']
    ensures forall i :: 0 <= i < |log| ==> (i in idx <==> log[i].accountNumber == n)
    decreases |log|
  {
    if log == [] {
      idx := [];
    } else {
      var init := log[..|log| - 1];
      var last := log[|log| - 1];
      var prev := ForAccountPositions(init, n);
      assert forall i :: 0 <= i < |init| ==> init[i] == log[i];
      if last.accountNumber == n {
        idx := prev + [|log| - 1];
      } else {
        idx := prev;
      }
    }
  }

  lemma AccountTransactionsSpec(L: Ledger, n: string)
    ensures AccountTransactions(L, n).Ok? <==> Visible(L, n)
    ensures AccountTransactions(L, n).Err? ==> AccountTransactions(L, n).error == AccountNotFound
    ensures AccountTransactions(L, n).Ok? ==>
              forall t :: t in AccountTransactions(L, n).value <==> t in L.transactions && t.accountNumber == n
  {
    ForAccountMembers(L.transactions, n);
  }

  // ---------------------------------------------------------------------
  // Concrete identifiers and the walk-through

  lemma IdentifierFormats()
    ensures AccountNumber(1) == "ACC000001" && AccountNumber(2) == "ACC000002"
    ensures TransactionId(1) == "TXN000001" && TransactionId(2) == "TXN000002"
  {
    assert Digits(1) == "1" && Digits(2) == "2";
    assert Zeros(5) == "00000";
  }

  /** The millionth account gets a seven-digit number, which the account
      number format of the input validator no longer accepts. */
  lemma MillionthAccountNumber()
    ensures AccountNumber(1000000) == "ACC1000000"
    ensures !InputValidator.IsValidAccountNumber(InputValidator.Some(AccountNumber(1000000)))
  {
    var d := Digits(1000000);
    assert d == "1000000" by {
      assert Digits(1) == "1";
      assert Digits(10) == Digits(1) + "0";
      assert Digits(100) == Digits(10) + "0";
      assert Digits(1000) == Digits(100) + "0";
      assert Digits(10000) == Digits(1000) + "0";
      assert Digits(100000) == Digits(10000) + "0";
      assert Digits(1000000) == Digits(100000) + "0";
    }
    GeneratedNumberValid(1000000);
  }

  /** The walk-through, one step per lemma: Alice opens an account with
      1000 and withdraws 200; Bob opens one with 0; Alice transfers 300 to
      Bob. It starts from a ledger without accounts, which under the
      invariant is the constructor's state. */
  lemma WalkthroughOpenAlice(L: Ledger)
    requires Inv(L) && L.accounts == map[]
    ensures var s := CreateAccount(L, "Alice", 1000.0, "SAVINGS");
      && Inv(s.after) && s.result == Ok("ACC000001")
      && s.after.accounts == map["ACC000001" := NewAccount("ACC000001", "Alice", 1000.0, "SAVINGS")]
      && s.after.transactions == [Transaction("TXN000001", "ACC000001", TransactionType.DEPOSIT, 1000.0, "Initial deposit")]
      && TotalBankBalance(s.after) == 1000.0 && TotalAccounts(s.after) == 1
  {
    IdentifierFormats();
    assert L.transactions == [] by {
      assert |L.transactions| > 0 ==> WellFormedEntry(L, 0);
    }
    assert TotalBankBalance(L) == 0.0 && TotalAccounts(L) == 0 by {
      assert ActiveNumbers(L.accounts, {}) == {};
    }
    CreateAccountOutcome(L, "Alice", 1000.0, "SAVINGS");
    CreateAccountKeepsInv(L, "Alice", 1000.0, "SAVINGS");
    CreateAccountTotals(L, "Alice", 1000.0, "SAVINGS");
  }

  lemma WalkthroughAliceWithdraws(L: Ledger)
    requires Inv(L)
    requires L.accounts == map["ACC000001" := NewAccount("ACC000001", "Alice", 1000.0, "SAVINGS")]
    requires |L.transactions| == 1 && TotalBankBalance(L) == 1000.0 && TotalAccounts(L) == 1
    ensures var s := Withdraw(L, "ACC000001", 200.0);
      && Inv(s.after) && s.result.Ok?
      && s.after.accounts == map["ACC000001" := NewAccount("ACC000001", "Alice", 800.0, "SAVINGS")]
      && |s.after.transactions| == 2
      && s.after.transactions[1] == Transaction("TXN000002", "ACC000001", TransactionType.WITHDRAWAL, 200.0, "Withdrawal")
      && TotalBankBalance(s.after) == 800.0 && TotalAccounts(s.after) == 1
  {
    IdentifierFormats();
    WithdrawOutcome(L, "ACC000001", 200.0);
    WithdrawEffect(L, "ACC000001", 200.0);
    WithdrawKeepsInv(L, "ACC000001", 200.0);
    WithdrawTotals(L, "ACC000001", 200.0);
  }

  lemma WalkthroughOpenBob(L: Ledger)
    requires Inv(L)
    requires L.accounts == map["ACC000001" := NewAccount("ACC000001", "Alice", 800.0, "SAVINGS")]
    requires |L.transactions| == 2 && TotalBankBalance(L) == 800.0 && TotalAccounts(L) == 1
    ensures var s := CreateAccount(L, "Bob", 0.0, "CURRENT");
      && Inv(s.after) && s.result == Ok("ACC000002")
      && s.after.accounts == map["ACC000001" := NewAccount("ACC000001", "Alice", 800.0, "SAVINGS"),
                                 "ACC000002" := NewAccount("ACC000002", "Bob", 0.0, "CURRENT")]
      && |s.after.transactions| == 2
      && TotalBankBalance(s.after) == 800.0 && TotalAccounts(s.after) == 2
  {
    IdentifierFormats();
    CreateAccountOutcome(L, "Bob", 0.0, "CURRENT");
    CreateAccountKeepsInv(L, "Bob", 0.0, "CURRENT");
    CreateAccountTotals(L, "Bob", 0.0, "CURRENT");
  }

  lemma WalkthroughTransfer(L: Ledger)
    requires Inv(L)
    requires L.accounts == map["ACC000001" := NewAccount("ACC000001", "Alice", 800.0, "SAVINGS"),
                               "ACC000002" := NewAccount("ACC000002", "Bob", 0.0, "CURRENT")]
    requires TotalBankBalance(L) == 800.0 && TotalAccounts(L) == 2
    ensures var s := Transfer(L, "ACC000001", "ACC000002", 300.0);
      && s.result.Ok?
      && s.after.accounts["ACC000001"].balance == 500.0
      && s.after.accounts["ACC000002"].balance == 300.0
      && TotalBankBalance(s.after) == 800.0 && TotalAccounts(s.after) == 2
  {
    var a1, a2 := "ACC000001", "ACC000002";
    assert Visible(L, a1) && Visible(L, a2) && L.accounts[a1].balance == 800.0;
    TransferOutcome(L, a1, a2, 300.0);
    TransferBalances(L, a1, a2, 300.0);
    TransferTotals(L, a1, a2, 300.0);
  }

  lemma Walkthrough(L: Ledger)
    requires Inv(L) && L.accounts == map[]
    ensures
      var s1 := CreateAccount(L, "Alice", 1000.0, "SAVINGS");
      var s2 := Withdraw(s1.after, "ACC000001", 200.0);
      var s3 := CreateAccount(s2.after, "Bob", 0.0, "CURRENT");
      var s4 := Transfer(s3.after, "ACC000001", "ACC000002", 300.0);
      && s1.result == Ok("ACC000001") && s2.result.Ok? && s3.result == Ok("ACC000002") && s4.result.Ok?
      && s4.after.accounts["ACC000001"].balance == 500.0
      && s4.after.accounts["ACC000002"].balance == 300.0
      && TotalBankBalance(s4.after) == 800.0
      && TotalAccounts(s4.after) == 2
  {
    var s1 := CreateAccount(L, "Alice", 1000.0, "SAVINGS");
    WalkthroughOpenAlice(L);
    var s2 := Withdraw(s1.after, "ACC000001", 200.0);
    WalkthroughAliceWithdraws(s1.after);
    var s3 := CreateAccount(s2.after, "Bob", 0.0, "CURRENT");
    WalkthroughOpenBob(s2.after);
    WalkthroughTransfer(s3.after);
  }

}
