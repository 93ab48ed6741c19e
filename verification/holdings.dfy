/*******************************************************************************
 *  Conservation of money across the whole store. An account's worth is its
 *  balance plus its available credit; the store's worth is the sum over all
 *  accounts. A deposit adds exactly the deposited amount, a withdrawal takes
 *  exactly the amount plus its fee, and a transfer destroys exactly its fee.
 *******************************************************************************/

module Holdings {
  import opened Types
  import opened Rules
  import TransactionEngine

  ghost function Worth(a: Account): real {
    a.balance + a.creditLimit
  }

  /** The sum of the worth of every stored account. */
  ghost function TotalWorth(s: Store): real
    decreases |s|
  {
    if s == map[] then 0.0
    else
      var k :| k in s;
      assert |s - {k}| < |s| by { assert (s - {k}).Keys == s.Keys - {k}; }
      Worth(s[k]) + TotalWorth(s - {k})
  }

  /** The sum does not depend on which account is taken out first. */
  lemma {:induction false} TotalWorthRemove(s: Store, k: string)
    requires k in s
    ensures TotalWorth(s) == Worth(s[k]) + TotalWorth(s - {k})
    decreases |s|
  {
    var j :| j in s && TotalWorth(s) == Worth(s[j]) + TotalWorth(s - {j});
    if j != k {
      assert (s - {j}).Keys == s.Keys - {j};
      assert (s - {k}).Keys == s.Keys - {k};
      TotalWorthRemove(s - {j}, k);
      TotalWorthRemove(s - {k}, j);
      assert (s - {j}) - {k} == (s - {k}) - {j};
    }
  }

  /** Replacing one account changes the total by exactly the change in its worth. */
  lemma TotalWorthUpdate(s: Store, k: string, a: Account)
    requires k in s
    ensures TotalWorth(s[k := a]) == TotalWorth(s) - Worth(s[k]) + Worth(a)
  {
    TotalWorthRemove(s, k);
    TotalWorthRemove(s[k := a], k);
    assert s[k := a] - {k} == s - {k};
  }

  /** A store that differs from `s` only at `k` is `s` with `k` replaced. */
  lemma UntouchedIsUpdate(s: Store, s': Store, k: string)
    requires k in s && Untouched(s, s', {k})
    ensures s' == s[k := s'[k]]
  {
  }

  /** A deposit adds exactly the deposited amount to the store. */
  lemma DepositConserves(bank: Bank, n: string, amount: Option<real>, today: Date)
    requires TransactionEngine.Deposit(bank, n, amount, today).Ok?
    ensures TotalWorth(TransactionEngine.Deposit(bank, n, amount, today).value.bank.accounts)
         == TotalWorth(bank.accounts) + amount.value
  {
    var after := TransactionEngine.Deposit(bank, n, amount, today).value.bank.accounts;
    UntouchedIsUpdate(bank.accounts, after, n);
    TotalWorthUpdate(bank.accounts, n, after[n]);
  }

  /** A withdrawal takes exactly the amount plus its 1% fee out of the store. */
  lemma WithdrawConserves(bank: Bank, n: string, amount: Option<real>, today: Date)
    requires TransactionEngine.Withdraw(bank, n, amount, today).Ok?
    ensures TotalWorth(TransactionEngine.Withdraw(bank, n, amount, today).value.bank.accounts)
         == TotalWorth(bank.accounts) - (amount.value + amount.value * WithdrawalFeeRate)
  {
    var after := TransactionEngine.Withdraw(bank, n, amount, today).value.bank.accounts;
    UntouchedIsUpdate(bank.accounts, after, n);
    TotalWorthUpdate(bank.accounts, n, after[n]);
  }

  /** A transfer moves the requested amount and destroys exactly its fee:
      the store loses the fee and nothing else. */
  lemma TransferConserves(bank: Bank, origin: string, dest: string, amount: Option<real>, today: Date)
    requires TransactionEngine.Transfer(bank, origin, dest, amount, today).Ok?
    ensures origin in bank.accounts
    ensures TotalWorth(TransactionEngine.Transfer(bank, origin, dest, amount, today).value.bank.accounts)
         == TotalWorth(bank.accounts) - amount.value * TransferRate(bank.accounts[origin])
  {
    var s := bank.accounts;
    var after := TransactionEngine.Transfer(bank, origin, dest, amount, today).value.bank.accounts;
    var mid := s[origin := after[origin]];
    assert Untouched(mid, after, {dest});
    UntouchedIsUpdate(mid, after, dest);
    TotalWorthUpdate(s, origin, after[origin]);
    TotalWorthUpdate(mid, dest, after[dest]);
  }
}
