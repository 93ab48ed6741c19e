/*******************************************************************************
 *  Concrete scenarios, stated as lemmas about the model: those the system's
 *  own tests pin down, and the defaults account creation fills in.
 *******************************************************************************/

module Scenarios {
  import opened Types
  import AccountService
  import TransactionEngine

  function Acct(n: string, balance: real, credit: real, ceiling: real): Account {
    Account(n, balance, credit, 0, ceiling, [])
  }

  function Single(a: Account): Bank {
    Bank(map[a.number := a], [])
  }

  function Pair(a: Account, b: Account): Bank {
    Bank(map[a.number := a, b.number := b], [])
  }

  /** Balance 1000, credit 300 of a 500 ceiling, deposit 400: 200 repays
      credit up to the ceiling and 200 tops up the balance. */
  lemma DepositRefillsCreditFirst()
    ensures
      var r := TransactionEngine.Deposit(Single(Acct("12345", 1000.0, 300.0, 500.0)), "12345", Some(400.0), 0);
      && r.Ok?
      && r.value.bank.accounts["12345"].creditLimit == 500.0
      && r.value.bank.accounts["12345"].balance == 1200.0
      && r.value.bank.accounts["12345"].creditCeiling == 500.0
      && r.value.transaction.kind == DepositKind
  {
  }

  /** A missing or negative deposit is refused and commits nothing. */
  lemma DepositRefusesBadAmount()
    ensures TransactionEngine.Deposit(Single(Acct("12345", 10.0, 300.0, 500.0)), "12345", None, 0)
         == Err(IllegalArgument(NonPositiveAmount))
    ensures TransactionEngine.Deposit(Single(Acct("12345", 10.0, 300.0, 500.0)), "12345", Some(-100.0), 0)
         == Err(IllegalArgument(NonPositiveAmount))
  {
  }

  /** Withdrawing 100 from balance 1000 takes 101 from the balance and leaves
      the credit alone; the transaction records 100. */
  lemma WithdrawFromBalance()
    ensures
      var r := TransactionEngine.Withdraw(Single(Acct("123456", 1000.0, 300.0, 500.0)), "123456", Some(100.0), 0);
      && r.Ok?
      && r.value.bank.accounts["123456"].balance == 899.0
      && r.value.bank.accounts["123456"].creditLimit == 300.0
      && r.value.transaction == Transaction(WithdrawalKind, 100.0, 0, "123456")
  {
  }

  /** Withdrawing 1100 from balance 1000 and credit 600: the balance is
      emptied and the remaining 111 comes out of the credit. */
  lemma WithdrawOverflowsIntoCredit()
    ensures
      var r := TransactionEngine.Withdraw(Single(Acct("1234567", 1000.0, 600.0, 600.0)), "1234567", Some(1100.0), 0);
      && r.Ok?
      && r.value.bank.accounts["1234567"].balance == 0.0
      && r.value.bank.accounts["1234567"].creditLimit == 489.0
      && r.value.transaction.amount == 1100.0
  {
  }

  /** Balance 1000 and credit 515 exactly cover a withdrawal of 1500 with its
      fee of 15: both end at zero. */
  lemma WithdrawExactlyCovered()
    ensures
      var r := TransactionEngine.Withdraw(Single(Acct("12345678", 1000.0, 515.0, 600.0)), "12345678", Some(1500.0), 0);
      && r.Ok?
      && r.value.bank.accounts["12345678"].balance == 0.0
      && r.value.bank.accounts["12345678"].creditLimit == 0.0
  {
  }

  /** Balance 1000 and credit 400 do not cover 1515: the withdrawal fails as
      insufficient funds. */
  lemma WithdrawInsufficient()
    ensures TransactionEngine.Withdraw(Single(Acct("123456789", 1000.0, 400.0, 600.0)), "123456789", Some(1500.0), 0)
         == Err(InsufficientFunds(Own, "123456789"))
  {
  }

  /** Two accounts of balance 1000 and credit 500. The origin has credit, so
      a transfer of 500 costs it 510; the destination gains 500. */
  lemma TransferWithCreditFee()
    ensures
      var bank := Pair(Acct("123456", 1000.0, 500.0, 600.0), Acct("654321", 1000.0, 500.0, 600.0));
      var r := TransactionEngine.Transfer(bank, "123456", "654321", Some(500.0), 0);
      && r.Ok?
      && r.value.bank.accounts["123456"].balance == 490.0
      && r.value.bank.accounts["123456"].creditLimit == 500.0
      && r.value.bank.accounts["654321"].balance == 1500.0
      && r.value.bank.accounts["654321"].creditLimit == 500.0
      && r.value.transaction == Transaction(TransferKind, 500.0, 0, "123456")
  {
  }

  /** A transfer of 1100 costs the origin 1122: its balance is emptied and its
      credit falls to 378; the destination gains 1100. */
  lemma TransferOverflowsIntoCredit()
    ensures
      var bank := Pair(Acct("1234567", 1000.0, 500.0, 600.0), Acct("654321", 1000.0, 500.0, 600.0));
      var r := TransactionEngine.Transfer(bank, "1234567", "654321", Some(1100.0), 0);
      && r.Ok?
      && r.value.bank.accounts["1234567"].balance == 0.0
      && r.value.bank.accounts["1234567"].creditLimit == 378.0
      && r.value.bank.accounts["654321"].balance == 2100.0
      && r.value.bank.accounts["654321"].creditLimit == 500.0
  {
  }

  /** A transfer of 2500 exceeds balance and credit: insufficient funds. */
  lemma TransferInsufficient()
    ensures
      var bank := Pair(Acct("12345678", 1000.0, 500.0, 600.0), Acct("654321", 1000.0, 500.0, 600.0));
      TransactionEngine.Transfer(bank, "12345678", "654321", Some(2500.0), 0)
        == Err(InsufficientFunds(Origin, "12345678"))
  {
  }

  /** A transfer to the same number is refused, and a missing or negative
      amount is refused before anything else is looked at. */
  lemma TransferRefusals()
    ensures TransactionEngine.Transfer(Single(Acct("12345", 1000.0, 500.0, 600.0)), "12345", "12345", Some(500.0), 0)
         == Err(IllegalArgument(SameAccount))
    ensures TransactionEngine.Transfer(Bank(map[], []), "123456789", "54321", Some(-100.0), 0)
         == Err(IllegalArgument(NonPositiveAmount))
    ensures TransactionEngine.Transfer(Bank(map[], []), "123456789", "54321", None, 0)
         == Err(IllegalArgument(NonPositiveAmount))
  {
  }

  /** Creation without amounts fills in the defaults: balance 0, credit 0,
      ceiling 1000. */
  lemma CreateAppliesDefaults()
    ensures
      var r := AccountService.Create(map[], Some(AccountService.NewAccount("12", None, None, 0, None)));
      && r.Ok?
      && r.value.account == Account("12", 0.0, 0.0, 0, 1000.0, [])
  {
  }

  /** Creating a number already stored is refused with the duplicate-number
      error. */
  lemma CreateRefusesDuplicate()
    ensures
      var s := map["12345" := Acct("12345", 1000.0, 500.0, 1000.0)];
      AccountService.Create(s, Some(AccountService.NewAccount("12345", Some(1000.0), Some(500.0), 0, Some(1000.0))))
        == Err(IllegalArgument(DuplicateNumber("12345")))
  {
  }
}
