/*******************************************************************************
 *  The business rules of the transaction engine, stated declaratively: what a
 *  deposit or a debit must do to an account, independently of how the engine
 *  computes it. The engine is proved to meet these rules.
 *******************************************************************************/

module Rules {
  import opened Types

  /** Fee rate on a withdrawal. */
  const WithdrawalFeeRate: real := 0.01
  /** Fee rate on a transfer whose origin has no credit available. */
  const TransferFeeRate: real := 0.01
  /** Fee rate on a transfer whose origin still has credit available. */
  const CreditTransferFeeRate: real := 0.02

  /** What a withdrawal of `v` takes from the account, fee included. */
  function WithdrawalTotal(v: real): real {
    v + v * WithdrawalFeeRate
  }

  /** The fee rate a transfer from `o` is charged: the higher one as soon as
      the origin has any credit available. */
  function TransferRate(o: Account): real {
    if o.creditLimit > 0.0 then CreditTransferFeeRate else TransferFeeRate
  }

  /** What a transfer of `v` takes from its origin, fee included. */
  function TransferTotal(o: Account, v: real): real {
    v + v * TransferRate(o)
  }

  /** The fields no balance operation may change. */
  predicate SameIdentity(a: Account, a': Account) {
    && a'.number == a.number
    && a'.createdOn == a.createdOn
    && a'.creditCeiling == a.creditCeiling
  }

  /** A deposit of `v`: the money lands entirely in the account; used credit
      is repaid before the balance grows, and repayment stops at the ceiling. */
  predicate DepositEffect(a: Account, v: real, a': Account) {
    && SameIdentity(a, a')
    && a'.balance + a'.creditLimit == a.balance + a.creditLimit + v
    && a.creditLimit <= a'.creditLimit
    && a.balance <= a'.balance
    && a'.creditLimit <= Max(a.creditLimit, a.creditCeiling)
    && (a'.balance > a.balance ==> a'.creditLimit >= a.creditCeiling)
  }

  /** A debit of `total`: taken in full, from the balance first and from the
      available credit only once the balance is exhausted; neither amount
      ends below zero. */
  predicate DebitEffect(a: Account, total: real, a': Account) {
    && SameIdentity(a, a')
    && a'.balance + a'.creditLimit == a.balance + a.creditLimit - total
    && 0.0 <= a'.balance <= Max(a.balance, 0.0)
    && 0.0 <= a'.creditLimit <= a.creditLimit
    && (a'.creditLimit < a.creditLimit ==> a'.balance == 0.0)
  }

  /** Whether the account service accepts the writes of a debit of `total`,
      balance first: the available credit left afterwards is not negative.
      On an account with no negative amount this is exactly "balance plus
      credit covers the total"; a negative credit that the debit would leave
      in place is refused too. */
  predicate CanDebit(a: Account, total: real) {
    if a.balance >= total then a.creditLimit >= 0.0
    else a.balance + a.creditLimit >= total
  }

  /** A successful operation records exactly one transaction, `t`: it is
      returned, appended to the history of the account that owns it, and
      appended to the audit log, and nothing else is added to either. */
  predicate RecordsOne(before: Bank, r: Receipt, t: Transaction) {
    && r.transaction == t
    && r.bank.audit == before.audit + [AuditEntry(t)]
    && t.origin in before.accounts && t.origin in r.bank.accounts
    && r.bank.accounts[t.origin].transactions == before.accounts[t.origin].transactions + [t]
  }

  /** `CanDebit` is exactly the condition under which the debit rule can be
      met at all: some account satisfies it precisely when `CanDebit` holds. */
  lemma DebitPossibleExactlyWhenCanDebit(a: Account, total: real)
    requires total > 0.0
    ensures CanDebit(a, total) <==> exists a' :: DebitEffect(a, total, a')
  {
    if CanDebit(a, total) {
      var a' := if a.balance >= total then a.(balance := a.balance - total)
                else a.(balance := 0.0, creditLimit := a.balance + a.creditLimit - total);
      assert DebitEffect(a, total, a');
    }
  }

  /** The deposit rule leaves no freedom: two accounts that both satisfy it
      for the same deposit hold the same balance and the same credit. */
  lemma DepositEffectDetermined(a: Account, v: real, x: Account, y: Account)
    requires v > 0.0
    requires DepositEffect(a, v, x) && DepositEffect(a, v, y)
    ensures x.balance == y.balance && x.creditLimit == y.creditLimit
  {
  }

  /** The debit rule leaves no freedom either, for any positive total and
      any starting account, one with a negative balance included. */
  lemma DebitEffectDetermined(a: Account, total: real, x: Account, y: Account)
    requires total > 0.0
    requires DebitEffect(a, total, x) && DebitEffect(a, total, y)
    ensures x.balance == y.balance && x.creditLimit == y.creditLimit
  {
  }
}
