/*******************************************************************************
 *  Current accounts and the records the transaction engine produces.
 *
 *  Amounts are exact decimals in the system (BigDecimal); they are Dafny
 *  `real` here, so every fee and split below is computed without rounding.
 *******************************************************************************/

/** The values the bank works with: accounts, transactions, audit entries,
    and the outcome of an operation. */
module Types {

  /** A calendar date as a day number. The clock is an input of every
      operation that stamps a date; it is never read here. */
  type Date = int

  /** A value the caller may leave out (a Java `null`). */
  datatype Option<+T> = None | Some(value: T)

  /** Which account of an operation an error speaks about. */
  datatype Role = Own | Origin | Destination

  /** Why an `IllegalArgumentException` was raised. */
  datatype Reason =
    | NullAccount                      // creation without a record
    | DuplicateNumber(number: string)  // creation under a number already stored
    | NegativeBalance                  // balance setter given a value below zero
    | NegativeCreditLimit              // credit setter given a value below zero
    | UnknownAccount(number: string)   // account-service lookup that found nothing
    | NonPositiveAmount                // a missing, zero or negative amount
    | SameAccount                      // a transfer from an account to itself

  /** The failures an operation can end in; each one corresponds to one
      exception class of the system. */
  datatype Error =
    | IllegalArgument(reason: Reason)               // IllegalArgumentException
    | AccountNotFound(role: Role, number: string)   // ContaNaoEncontradaException
    | InsufficientFunds(role: Role, number: string) // SaldoInsuficienteException, funds check
    | CreditExceeded(number: string)                // SaldoInsuficienteException, credit re-check

  /** Either the committed value or the error the operation ended in.
      An `Err` carries no state: a failed operation commits nothing. */
  datatype Result<+T> = Ok(value: T) | Err(error: Error) {

    predicate IsFailure() {
      Err?
    }

    function PropagateFailure<U>(): Result<U>
      requires Err?
    {
      Err(error)
    }

    function Extract(): T
      requires Ok?
    {
      value
    }
  }

  /** The kind of a recorded transaction (DEPOSITO, SAQUE, TRANSFERENCIA). */
  datatype Kind = DepositKind | WithdrawalKind | TransferKind

  /** One recorded transaction. `amount` is the amount the caller asked for,
      never the amount including a fee; `origin` is the number of the
      account that owns the record. */
  datatype Transaction = Transaction(kind: Kind, amount: real, date: Date, origin: string)

  /** A current account. `creditLimit` is the credit still available (it
      falls as credit is drawn and rises as it is repaid); `creditCeiling`
      is the most it is meant to reach. The account owns its transactions:
      deleting the account deletes them. */
  datatype Account = Account(
    number: string,
    balance: real,
    creditLimit: real,
    createdOn: Date,
    creditCeiling: real,
    transactions: seq<Transaction>)

  /** The account store, keyed by account number. */
  type Store = map<string, Account>

  /** One audit entry, linked to the transaction that caused it. The message
      text is presentation and is not modelled. */
  datatype AuditEntry = AuditEntry(transaction: Transaction)

  /** Everything an engine operation may change: the accounts and the
      append-only audit log. */
  datatype Bank = Bank(accounts: Store, audit: seq<AuditEntry>)

  /** What a successful engine operation commits and returns. */
  datatype Receipt = Receipt(bank: Bank, transaction: Transaction)

  function Min(x: real, y: real): real {
    if x <= y then x else y
  }

  function Max(x: real, y: real): real {
    if x >= y then x else y
  }

  /** An amount an engine operation accepts: present and strictly positive. */
  predicate PositiveAmount(amount: Option<real>) {
    amount.Some? && amount.value > 0.0
  }

  /** The two mutable amounts are within what the account-service setters accept. */
  predicate NonNegative(a: Account) {
    a.balance >= 0.0 && a.creditLimit >= 0.0
  }

  /** Every transaction an account holds is its own and records a positive amount. */
  predicate OwnsHistory(n: string, a: Account) {
    forall i :: 0 <= i < |a.transactions| ==>
      a.transactions[i].origin == n && a.transactions[i].amount > 0.0
  }

  /** The per-account invariant the system promises after every operation. */
  predicate Healthy(n: string, a: Account) {
    && a.number == n
    && NonNegative(a)
    && a.creditLimit <= a.creditCeiling
    && OwnsHistory(n, a)
  }

  /** Every stored account and every audit entry is in order. */
  predicate HealthyBank(b: Bank) {
    && (forall n :: n in b.accounts ==> Healthy(n, b.accounts[n]))
    && (forall i :: 0 <= i < |b.audit| ==> b.audit[i].transaction.amount > 0.0)
  }

  /** `after` holds the same accounts as `before` and differs at most on `keys`. */
  predicate Untouched(before: Store, after: Store, keys: set<string>) {
    && after.Keys == before.Keys
    && forall m :: m in before && m !in keys ==> after[m] == before[m]
  }
}
