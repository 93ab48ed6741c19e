/*******************************************************************************
 *  The transaction engine: deposit, withdrawal and transfer. Each operation
 *  validates, reads the account(s), computes new balance and credit, writes
 *  them through the account service's checked setters, and records one
 *  transaction and one audit entry. The whole operation is one atomic unit:
 *  if any step fails, the error is returned and nothing is committed.
 *******************************************************************************/

module TransactionEngine {
  import opened Types
  import opened Rules
  import AccountService

  /** New balance and available credit of an account after a debit. */
  datatype Funds = Funds(balance: real, credit: real)

  /** The debit scheme shared by withdrawals and transfers: take `total` from
      the balance if it covers it, else empty the balance and take the rest
      from the available credit. */
  function BalanceFirst(balance: real, credit: real, total: real): (f: Funds)
    ensures f.balance + f.credit == balance + credit - total
    ensures balance >= total ==> f.balance == balance - total && f.credit == credit
    ensures balance < total ==> f.balance == 0.0 && f.credit < credit
  {
    if balance >= total then Funds(balance - total, credit)
    else Funds(0.0, credit - (total - balance))
  }

  /** Appends `t` to the history of the account that owns it and to the
      audit log; `s` is the store after the operation's writes. */
  function Record(bank: Bank, s: Store, t: Transaction): (r: Receipt)
    requires t.origin in s
    ensures r.transaction == t
    ensures r.bank.audit == bank.audit + [AuditEntry(t)]
    ensures Untouched(s, r.bank.accounts, {t.origin})
    ensures r.bank.accounts[t.origin]
         == s[t.origin].(transactions := s[t.origin].transactions + [t])
  {
    var a := s[t.origin];
    Receipt(Bank(s[t.origin := a.(transactions := a.transactions + [t])], bank.audit + [AuditEntry(t)]), t)
  }

  /** A deposit into account `n`. The account is looked up before the amount
      is checked. Credit headroom is refilled first, up to the ceiling, and
      only the remainder is added to the balance; a setter is called only
      for an amount that changes. */
  function Deposit(bank: Bank, n: string, amount: Option<real>, today: Date): (r: Result<Receipt>)
    ensures n !in bank.accounts ==> r == Err(AccountNotFound(Own, n))
    ensures n in bank.accounts && !PositiveAmount(amount) ==>
      r == Err(IllegalArgument(NonPositiveAmount))
    ensures n in bank.accounts && PositiveAmount(amount) && NonNegative(bank.accounts[n]) ==> r.Ok?
    ensures r.Ok? ==>
      && n in bank.accounts && PositiveAmount(amount)
      && RecordsOne(bank, r.value, Transaction(DepositKind, amount.value, today, n))
      && Untouched(bank.accounts, r.value.bank.accounts, {n})
      && DepositEffect(bank.accounts[n], amount.value, r.value.bank.accounts[n])
  {
    if n !in bank.accounts then Err(AccountNotFound(Own, n))
    else if !PositiveAmount(amount) then Err(IllegalArgument(NonPositiveAmount))
    else
      var a, v := bank.accounts[n], amount.value;
      var headroom := a.creditCeiling - a.creditLimit;
      var toCredit := if headroom > 0.0 then Min(v, headroom) else 0.0;
      var toBalance := v - toCredit;
      var s1 :- if headroom > 0.0
                then AccountService.SetCreditLimit(bank.accounts, n, a.creditLimit + toCredit)
                else Ok(bank.accounts);
      var s2 :- if toBalance > 0.0
                then AccountService.SetBalance(s1, n, a.balance + toBalance)
                else Ok(s1);
      Ok(Record(bank, s2, Transaction(DepositKind, v, today, n)))
  }

  /** A withdrawal from account `n`, charged a 1% fee. The account is looked
      up before the amount is checked; the funds check accepts a total equal
      to balance plus available credit. The credit re-check in the overflow
      branch is kept as the system has it, and is proved never to fire. */
  function Withdraw(bank: Bank, n: string, amount: Option<real>, today: Date): (r: Result<Receipt>)
    ensures n !in bank.accounts ==> r == Err(AccountNotFound(Own, n))
    ensures n in bank.accounts && !PositiveAmount(amount) ==>
      r == Err(IllegalArgument(NonPositiveAmount))
    ensures n in bank.accounts && PositiveAmount(amount) ==>
      var a, total := bank.accounts[n], WithdrawalTotal(amount.value);
      && (a.balance + a.creditLimit < total ==> r == Err(InsufficientFunds(Own, n)))
      && (a.balance + a.creditLimit >= total ==> (r.Ok? <==> CanDebit(a, total)))
      && (a.balance + a.creditLimit >= total && !CanDebit(a, total) ==>
            r == Err(IllegalArgument(NegativeCreditLimit)))
      && (NonNegative(a) ==> (r.Ok? <==> a.balance + a.creditLimit >= total))
    ensures !(r.Err? && r.error.CreditExceeded?)
    ensures r.Ok? ==>
      && n in bank.accounts && PositiveAmount(amount)
      && RecordsOne(bank, r.value, Transaction(WithdrawalKind, amount.value, today, n))
      && Untouched(bank.accounts, r.value.bank.accounts, {n})
      && DebitEffect(bank.accounts[n], WithdrawalTotal(amount.value), r.value.bank.accounts[n])
  {
    if n !in bank.accounts then Err(AccountNotFound(Own, n))
    else if !PositiveAmount(amount) then Err(IllegalArgument(NonPositiveAmount))
    else
      var a, v := bank.accounts[n], amount.value;
      var total := WithdrawalTotal(v);
      if a.balance + a.creditLimit < total then Err(InsufficientFunds(Own, n))
      else if a.balance < total && total - a.balance > a.creditLimit then Err(CreditExceeded(n))
      else
        var f := BalanceFirst(a.balance, a.creditLimit, total);
        match AccountService.SetBalance(bank.accounts, n, f.balance)
        case Err(e) => Err(e)
        case Ok(s1) =>
          var s2 :- AccountService.SetCreditLimit(s1, n, f.credit);
          Ok(Record(bank, s2, Transaction(WithdrawalKind, v, today, n)))
  }

  /** The validations a transfer passes before any amount is computed:
      a positive amount, two different accounts, both stored. */
  predicate TransferReady(bank: Bank, origin: string, dest: string, amount: Option<real>) {
    && PositiveAmount(amount)
    && origin != dest
    && origin in bank.accounts
    && dest in bank.accounts
  }

  /** The writes of a transfer once its funds check has passed: debit the
      origin by `total`, balance first, and credit the destination's balance
      with the requested amount `v`; the transaction belongs to the origin. */
  function Settle(bank: Bank, origin: string, dest: string, v: real, total: real, today: Date)
    : (r: Result<Receipt>)
    requires origin != dest && origin in bank.accounts && dest in bank.accounts
    requires total > 0.0
    ensures
      var o, d := bank.accounts[origin], bank.accounts[dest];
      && (r.Ok? <==> CanDebit(o, total) && d.balance + v >= 0.0)
      && (!CanDebit(o, total) ==> r == Err(IllegalArgument(NegativeCreditLimit)))
      && (CanDebit(o, total) && d.balance + v < 0.0 ==> r == Err(IllegalArgument(NegativeBalance)))
    ensures
      var o, d := bank.accounts[origin], bank.accounts[dest];
      NonNegative(o) && NonNegative(d) && v > 0.0 ==>
        (r.Ok? <==> o.balance + o.creditLimit >= total)
    ensures
      var o := bank.accounts[origin];
      o.balance + o.creditLimit < total ==>
        r == Err(IllegalArgument(NegativeCreditLimit))
    ensures r.Ok? ==>
      var o, d := bank.accounts[origin], bank.accounts[dest];
      && RecordsOne(bank, r.value, Transaction(TransferKind, v, today, origin))
      && Untouched(bank.accounts, r.value.bank.accounts, {origin, dest})
      && DebitEffect(o, total, r.value.bank.accounts[origin])
      && r.value.bank.accounts[dest] == d.(balance := d.balance + v)
  {
    var o, d := bank.accounts[origin], bank.accounts[dest];
    var f := BalanceFirst(o.balance, o.creditLimit, total);
    match AccountService.SetBalance(bank.accounts, origin, f.balance)
    case Err(e) => Err(e)
    case Ok(s1) =>
      var s2 :- AccountService.SetCreditLimit(s1, origin, f.credit);
      var s3 :- AccountService.SetBalance(s2, dest, d.balance + v);
      Ok(Record(bank, s3, Transaction(TransferKind, v, today, origin)))
  }

  /** A transfer as the system performs it. The amount is checked first, then
      the two numbers are compared, then the origin and the destination are
      looked up. The funds check charges 1%; the debit then charges 2% when
      the origin has credit available, so a transfer that passes the check
      can still fail when the credit setter refuses a negative value. */
  function Transfer(bank: Bank, origin: string, dest: string, amount: Option<real>, today: Date)
    : (r: Result<Receipt>)
    ensures !PositiveAmount(amount) ==> r == Err(IllegalArgument(NonPositiveAmount))
    ensures PositiveAmount(amount) && origin == dest ==> r == Err(IllegalArgument(SameAccount))
    ensures PositiveAmount(amount) && origin != dest && origin !in bank.accounts ==>
      r == Err(AccountNotFound(Origin, origin))
    ensures PositiveAmount(amount) && origin != dest && origin in bank.accounts && dest !in bank.accounts ==>
      r == Err(AccountNotFound(Destination, dest))
    ensures TransferReady(bank, origin, dest, amount) ==>
      var o, d, v := bank.accounts[origin], bank.accounts[dest], amount.value;
      && (o.balance + o.creditLimit < v + v * TransferFeeRate ==> r == Err(InsufficientFunds(Origin, origin)))
      && (NonNegative(o) && NonNegative(d) ==> (r.Ok? <==> o.balance + o.creditLimit >= TransferTotal(o, v)))
      && (v + v * TransferFeeRate <= o.balance + o.creditLimit < TransferTotal(o, v) ==>
            r == Err(IllegalArgument(NegativeCreditLimit)))
      && (v + v * TransferFeeRate <= o.balance + o.creditLimit ==>
            && (r.Ok? <==> CanDebit(o, TransferTotal(o, v)) && d.balance + v >= 0.0)
            && (!CanDebit(o, TransferTotal(o, v)) ==> r == Err(IllegalArgument(NegativeCreditLimit)))
            && (CanDebit(o, TransferTotal(o, v)) && d.balance + v < 0.0 ==>
                  r == Err(IllegalArgument(NegativeBalance))))
    ensures r.Ok? ==>
      && TransferReady(bank, origin, dest, amount)
      && var o, d, v := bank.accounts[origin], bank.accounts[dest], amount.value;
      && RecordsOne(bank, r.value, Transaction(TransferKind, v, today, origin))
      && Untouched(bank.accounts, r.value.bank.accounts, {origin, dest})
      && DebitEffect(o, TransferTotal(o, v), r.value.bank.accounts[origin])
      && r.value.bank.accounts[dest] == d.(balance := d.balance + v)
  {
    if !PositiveAmount(amount) then Err(IllegalArgument(NonPositiveAmount))
    else if origin == dest then Err(IllegalArgument(SameAccount))
    else if origin !in bank.accounts then Err(AccountNotFound(Origin, origin))
    else if dest !in bank.accounts then Err(AccountNotFound(Destination, dest))
    else
      var o, v := bank.accounts[origin], amount.value;
      var checked := v + v * TransferFeeRate;
      if o.balance + o.creditLimit < checked then Err(InsufficientFunds(Origin, origin))
      else Settle(bank, origin, dest, v, TransferTotal(o, v), today)
  }

  /** A transfer whose funds check charges the fee the debit will charge, so
      that a transfer the origin cannot cover always fails as insufficient
      funds. Everything else is as in `Transfer`. */
  function TransferCorrected(bank: Bank, origin: string, dest: string, amount: Option<real>, today: Date)
    : (r: Result<Receipt>)
    ensures !PositiveAmount(amount) ==> r == Err(IllegalArgument(NonPositiveAmount))
    ensures PositiveAmount(amount) && origin == dest ==> r == Err(IllegalArgument(SameAccount))
    ensures PositiveAmount(amount) && origin != dest && origin !in bank.accounts ==>
      r == Err(AccountNotFound(Origin, origin))
    ensures PositiveAmount(amount) && origin != dest && origin in bank.accounts && dest !in bank.accounts ==>
      r == Err(AccountNotFound(Destination, dest))
    ensures TransferReady(bank, origin, dest, amount) ==>
      var o, d, v := bank.accounts[origin], bank.accounts[dest], amount.value;
      && (o.balance + o.creditLimit < TransferTotal(o, v) ==> r == Err(InsufficientFunds(Origin, origin)))
      && (NonNegative(o) && NonNegative(d) ==> (r.Ok? <==> o.balance + o.creditLimit >= TransferTotal(o, v)))
      && (o.balance + o.creditLimit >= TransferTotal(o, v) ==>
            && (r.Ok? <==> CanDebit(o, TransferTotal(o, v)) && d.balance + v >= 0.0)
            && (!CanDebit(o, TransferTotal(o, v)) ==> r == Err(IllegalArgument(NegativeCreditLimit)))
            && (CanDebit(o, TransferTotal(o, v)) && d.balance + v < 0.0 ==>
                  r == Err(IllegalArgument(NegativeBalance))))
    ensures r.Ok? ==>
      && TransferReady(bank, origin, dest, amount)
      && var o, d, v := bank.accounts[origin], bank.accounts[dest], amount.value;
      && RecordsOne(bank, r.value, Transaction(TransferKind, v, today, origin))
      && Untouched(bank.accounts, r.value.bank.accounts, {origin, dest})
      && DebitEffect(o, TransferTotal(o, v), r.value.bank.accounts[origin])
      && r.value.bank.accounts[dest] == d.(balance := d.balance + v)
  {
    if !PositiveAmount(amount) then Err(IllegalArgument(NonPositiveAmount))
    else if origin == dest then Err(IllegalArgument(SameAccount))
    else if origin !in bank.accounts then Err(AccountNotFound(Origin, origin))
    else if dest !in bank.accounts then Err(AccountNotFound(Destination, dest))
    else
      var o, v := bank.accounts[origin], amount.value;
      var total := TransferTotal(o, v);
      if o.balance + o.creditLimit < total then Err(InsufficientFunds(Origin, origin))
      else Settle(bank, origin, dest, v, total, today)
  }
}
