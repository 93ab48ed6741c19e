/*******************************************************************************
 *  Two places where the system does something other than what it evidently
 *  means to, each shown on a concrete input and set beside its correction.
 *******************************************************************************/

module Findings {
  import opened Types
  import opened Rules
  import AccountService
  import TransactionEngine

  /** An origin with no balance and 101 of available credit, and an empty destination. */
  function FeeWindowBank(): Bank {
    Bank(map["A" := Account("A", 0.0, 101.0, 0, 1000.0, []),
             "B" := Account("B", 0.0, 0.0, 0, 1000.0, [])], [])
  }

  /** A transfer of 100 passes the 1% funds check (101 <= 101), but the debit
      charges 2% because credit is available, the computed credit is -1, and
      the credit setter refuses it: the transfer fails as an illegal argument
      instead of as insufficient funds. The corrected transfer reports
      insufficient funds. */
  lemma TransferFeeMismatch()
    ensures TransactionEngine.Transfer(FeeWindowBank(), "A", "B", Some(100.0), 0)
         == Err(IllegalArgument(NegativeCreditLimit))
    ensures TransactionEngine.TransferCorrected(FeeWindowBank(), "A", "B", Some(100.0), 0)
         == Err(InsufficientFunds(Origin, "A"))
  {
  }

  /** The two transfers commit exactly the same thing; they differ only in how
      they fail inside the fee window, where the system reports an illegal
      credit value and the corrected transfer reports insufficient funds. */
  lemma TransferAgreesWithCorrected(bank: Bank, origin: string, dest: string, amount: Option<real>, today: Date)
    ensures TransactionEngine.Transfer(bank, origin, dest, amount, today).Ok?
        <==> TransactionEngine.TransferCorrected(bank, origin, dest, amount, today).Ok?
    ensures TransactionEngine.Transfer(bank, origin, dest, amount, today).Ok? ==>
      TransactionEngine.Transfer(bank, origin, dest, amount, today)
        == TransactionEngine.TransferCorrected(bank, origin, dest, amount, today)
    ensures
      var w := TransactionEngine.Transfer(bank, origin, dest, amount, today);
      var c := TransactionEngine.TransferCorrected(bank, origin, dest, amount, today);
      w.Err? && w != c ==>
        && w.error == IllegalArgument(NegativeCreditLimit)
        && c.error == InsufficientFunds(Origin, origin)
  {
  }

  /** An account with 1000 of available credit under a ceiling of 2000. */
  function CeilingStore(): Store {
    map["12345" := Account("12345", 0.0, 1000.0, 0, 2000.0, [])]
  }

  /** The "maximum limit" lookup answers 1000, the available credit, where the
      ceiling it is named after is 2000; the corrected lookup answers 2000. */
  lemma MaxLimitLookupReturnsCredit()
    ensures AccountService.LookupMaxLimit(CeilingStore(), "12345") == Ok(1000.0)
    ensures AccountService.LookupMaxLimitCorrected(CeilingStore(), "12345") == Ok(2000.0)
  {
  }
}
