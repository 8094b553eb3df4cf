/** Account.java: a bank account whose number, holder name and type are fixed
    at construction and whose balance and active flag change in place. */
module Accounts {

  /** The value of an account's fields at one point in time. */
  datatype AccountState = AccountState(
    accountNumber: string,
    accountHolderName: string,
    balance: real,
    accountType: string,
    active: bool)

  /** The state a freshly constructed account starts in: always active. */
  function NewAccount(accountNumber: string, accountHolderName: string,
                      initialBalance: real, accountType: string): (a: AccountState)
    ensures a.active
    ensures a.accountNumber == accountNumber && a.accountHolderName == accountHolderName
    ensures a.balance == initialBalance && a.accountType == accountType
  {
    AccountState(accountNumber, accountHolderName, initialBalance, accountType, true)
  }

  class Account {
    // Written once by the constructor; Java offers no setter for them.
    const accountNumber: string
    const accountHolderName: string
    const accountType: string
    // Changed by setBalance and setActive.
    var balance: real
    var active: bool

    constructor (accountNumber: string, accountHolderName: string,
                 initialBalance: real, accountType: string)
      ensures Snapshot() == NewAccount(accountNumber, accountHolderName, initialBalance, accountType)
    {
      this.accountNumber := accountNumber;
      this.accountHolderName := accountHolderName;
      this.balance := initialBalance;
      this.accountType := accountType;
      this.active := true;
    }

    /** What the getters report right now. */
    function Snapshot(): AccountState
      reads this
    {
      AccountState(accountNumber, accountHolderName, balance, accountType, active)
    }

    method SetBalance(balance: real)
      modifies this`balance
      ensures Snapshot() == old(Snapshot()).(balance := balance)
    {
      this.balance := balance;
    }

    method SetActive(active: bool)
      modifies this`active
      ensures Snapshot() == old(Snapshot()).(active := active)
    {
      this.active := active;
    }
  }
}
