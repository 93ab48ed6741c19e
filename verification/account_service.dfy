/*******************************************************************************
 *  The account service: creation with defaults, lookup, the two checked
 *  setters the engine writes through, and deletion, over a store keyed by
 *  account number.
 *******************************************************************************/

module AccountService {
  import opened Types

  /** Balance given to a new account that was created without one. */
  const DefaultBalance: real := 0.0
  /** Available credit given to a new account that was created without one. */
  const DefaultCreditLimit: real := 0.0
  /** Credit ceiling given to a new account that was created without one. */
  const DefaultCeiling: real := 1000.0

  /** The record handed to account creation; an absent amount takes its default.
      The creation date is whatever the record carries. */
  datatype NewAccount = NewAccount(
    number: string,
    balance: Option<real>,
    creditLimit: Option<real>,
    createdOn: Date,
    creditCeiling: Option<real>)

  /** What creation returns: the new store and the account as saved. */
  datatype Created = Created(store: Store, account: Account)

  function OrDefault(x: Option<real>, default: real): real {
    match x
    case Some(v) => v
    case None => default
  }

  /** Creates an account. A missing record is refused; so is a number that is
      already stored. Nothing checks the supplied amounts. */
  function Create(s: Store, input: Option<NewAccount>): (r: Result<Created>)
    ensures input.None? ==> r == Err(IllegalArgument(NullAccount))
    ensures input.Some? && input.value.number in s ==>
      r == Err(IllegalArgument(DuplicateNumber(input.value.number)))
    ensures r.Ok? <==> input.Some? && input.value.number !in s
    ensures r.Ok? ==>
      var n, a := input.value.number, r.value.account;
      && r.value.store.Keys == s.Keys + {n}
      && n in r.value.store && r.value.store[n] == a
      && (forall m :: m in s ==> r.value.store[m] == s[m])
      && a.number == n && a.createdOn == input.value.createdOn && a.transactions == []
      && (input.value.balance.Some? ==> a.balance == input.value.balance.value)
      && (input.value.balance.None? ==> a.balance == 0.0)
      && (input.value.creditLimit.Some? ==> a.creditLimit == input.value.creditLimit.value)
      && (input.value.creditLimit.None? ==> a.creditLimit == 0.0)
      && (input.value.creditCeiling.Some? ==> a.creditCeiling == input.value.creditCeiling.value)
      && (input.value.creditCeiling.None? ==> a.creditCeiling == 1000.0)
  {
    match input
    case None => Err(IllegalArgument(NullAccount))
    case Some(rec) =>
      if rec.number in s then
        Err(IllegalArgument(DuplicateNumber(rec.number)))
      else
        var a := Account(
          rec.number,
          OrDefault(rec.balance, DefaultBalance),
          OrDefault(rec.creditLimit, DefaultCreditLimit),
          rec.createdOn,
          OrDefault(rec.creditCeiling, DefaultCeiling),
          []);
        Ok(Created(s[rec.number := a], a))
  }

  /** Looks an account up by number. */
  function Find(s: Store, n: string): (r: Option<Account>)
    ensures r.Some? <==> n in s
    ensures r.Some? ==> r.value == s[n]
  {
    if n in s then Some(s[n]) else None
  }

  /** Overwrites an account's balance. A negative value is refused before the
      account is looked up; an unknown number is an illegal argument too. */
  function SetBalance(s: Store, n: string, v: real): (r: Result<Store>)
    ensures v < 0.0 ==> r == Err(IllegalArgument(NegativeBalance))
    ensures v >= 0.0 && n !in s ==> r == Err(IllegalArgument(UnknownAccount(n)))
    ensures r.Ok? <==> v >= 0.0 && n in s
    ensures r.Ok? ==>
      && Untouched(s, r.value, {n})
      && r.value[n].balance == v
      && r.value[n] == s[n].(balance := v)
  {
    if v < 0.0 then Err(IllegalArgument(NegativeBalance))
    else if n !in s then Err(IllegalArgument(UnknownAccount(n)))
    else Ok(s[n := s[n].(balance := v)])
  }

  /** Overwrites an account's available credit. A negative value is refused
      before the lookup; the value is never compared with the ceiling. */
  function SetCreditLimit(s: Store, n: string, v: real): (r: Result<Store>)
    ensures v < 0.0 ==> r == Err(IllegalArgument(NegativeCreditLimit))
    ensures v >= 0.0 && n !in s ==> r == Err(IllegalArgument(UnknownAccount(n)))
    ensures r.Ok? <==> v >= 0.0 && n in s
    ensures r.Ok? ==>
      && Untouched(s, r.value, {n})
      && r.value[n].creditLimit == v
      && r.value[n] == s[n].(creditLimit := v)
  {
    if v < 0.0 then Err(IllegalArgument(NegativeCreditLimit))
    else if n !in s then Err(IllegalArgument(UnknownAccount(n)))
    else Ok(s[n := s[n].(creditLimit := v)])
  }

  /** The "maximum limit" lookup as the system has it: it answers with the
      available credit, not with the ceiling. */
  function LookupMaxLimit(s: Store, n: string): (r: Result<real>)
    ensures r.Ok? <==> n in s
    ensures r.Err? ==> r.error == IllegalArgument(UnknownAccount(n))
    ensures r.Ok? ==> r.value == s[n].creditLimit
  {
    if n in s then Ok(s[n].creditLimit) else Err(IllegalArgument(UnknownAccount(n)))
  }

  /** The "maximum limit" lookup as its name promises: the credit ceiling. */
  function LookupMaxLimitCorrected(s: Store, n: string): (r: Result<real>)
    ensures r.Ok? <==> n in s
    ensures r.Err? ==> r.error == IllegalArgument(UnknownAccount(n))
    ensures r.Ok? ==> r.value == s[n].creditCeiling
  {
    if n in s then Ok(s[n].creditCeiling) else Err(IllegalArgument(UnknownAccount(n)))
  }

  /** The whole-entity balance update: the account handed in, whatever its
      amounts, is saved under its own number, replacing any account stored
      there. Nothing is checked; a negative balance is saved as it is. */
  function Save(s: Store, a: Account): (r: Store)
    ensures r.Keys == s.Keys + {a.number}
    ensures a.number in r && r[a.number] == a
    ensures forall m :: m in s && m != a.number ==> r[m] == s[m]
  {
    s[a.number := a]
  }

  /** The checked balance setter is the whole-entity save of the stored
      account with its balance replaced, on exactly the values it accepts.
      An account is stored under its own number, as the repository keys it. */
  lemma SetBalanceIsCheckedSave(s: Store, n: string, v: real)
    requires n in s && s[n].number == n
    ensures SetBalance(s, n, v).Ok? <==> v >= 0.0
    ensures v >= 0.0 ==> SetBalance(s, n, v) == Ok(Save(s, s[n].(balance := v)))
  {
  }

  /** The whole-entity save accepts the negative balance the checked setter
      refuses, and the account saved no longer satisfies the invariant. */
  lemma SaveAdmitsNegativeBalance(s: Store, n: string, v: real)
    requires n in s && s[n].number == n && v < 0.0
    ensures SetBalance(s, n, v) == Err(IllegalArgument(NegativeBalance))
    ensures !NonNegative(Save(s, s[n].(balance := v))[n])
  {
  }

  /** Deletes an account together with the transactions it owns. */
  function Delete(s: Store, n: string): (r: Result<Store>)
    ensures r.Ok? <==> n in s
    ensures r.Err? ==> r.error == IllegalArgument(UnknownAccount(n))
    ensures r.Ok? ==>
      && r.value.Keys == s.Keys - {n}
      && forall m :: m in r.value ==> r.value[m] == s[m]
  {
    if n in s then Ok(s - {n}) else Err(IllegalArgument(UnknownAccount(n)))
  }

  /** Deleting an account just created gives back the store it was created in. */
  lemma DeleteUndoesCreate(s: Store, input: NewAccount)
    requires input.number !in s
    ensures Create(s, Some(input)).Ok?
    ensures Delete(Create(s, Some(input)).value.store, input.number) == Ok(s)
  {
    var s' := Create(s, Some(input)).value.store;
    var d := Delete(s', input.number).value;
    assert d.Keys == s.Keys;
    assert forall m :: m in d ==> d[m] == s[m];
    assert d == s;
  }

  /** Creation followed by a lookup finds exactly the account creation returned. */
  lemma FindAfterCreate(s: Store, input: NewAccount)
    requires input.number !in s
    ensures Create(s, Some(input)).Ok?
    ensures Find(Create(s, Some(input)).value.store, input.number)
         == Some(Create(s, Some(input)).value.account)
  {
  }

  /** A balance written is the balance read back, and a second write of the
      same account replaces the first: the later write is all that remains. */
  lemma SetBalanceLastWriteWins(s: Store, n: string, v: real, w: real)
    requires n in s && v >= 0.0 && w >= 0.0
    ensures SetBalance(s, n, v).Ok?
    ensures Find(SetBalance(s, n, v).value, n).value.balance == v
    ensures SetBalance(SetBalance(s, n, v).value, n, w) == SetBalance(s, n, w)
  {
    var s1 := SetBalance(s, n, v).value;
    var s2 := SetBalance(s1, n, w).value;
    var s3 := SetBalance(s, n, w).value;
    assert s2.Keys == s3.Keys;
    assert forall m :: m in s2 ==> s2[m] == s3[m];
    assert s2 == s3;
  }

  /** The credit setter accepts a value above the ceiling: nothing in the
      store keeps available credit within its ceiling. */
  lemma SetCreditLimitIgnoresCeiling(s: Store, n: string, v: real)
    requires n in s && v > s[n].creditCeiling && v >= 0.0
    ensures SetCreditLimit(s, n, v).Ok?
    ensures SetCreditLimit(s, n, v).value[n].creditLimit > SetCreditLimit(s, n, v).value[n].creditCeiling
  {
  }

  /** The "maximum limit" lookup reads back what the credit setter last wrote,
      whatever the ceiling is. */
  lemma LookupMaxLimitReadsCreditSetter(s: Store, n: string, v: real)
    requires n in s && v >= 0.0
    ensures SetCreditLimit(s, n, v).Ok?
    ensures LookupMaxLimit(SetCreditLimit(s, n, v).value, n) == Ok(v)
    ensures LookupMaxLimitCorrected(SetCreditLimit(s, n, v).value, n) == Ok(s[n].creditCeiling)
  {
  }

  /** The lookup as the system has it and the corrected lookup fail on the
      same numbers, and agree on a stored account exactly when its available
      credit equals its ceiling; under the account invariant the system's
      answer never exceeds the corrected one. */
  lemma LookupMaxLimitVersusCorrected(s: Store, n: string)
    ensures LookupMaxLimit(s, n).Ok? <==> LookupMaxLimitCorrected(s, n).Ok?
    ensures LookupMaxLimit(s, n) == LookupMaxLimitCorrected(s, n)
        <==> n !in s || s[n].creditLimit == s[n].creditCeiling
    ensures n in s && Healthy(n, s[n]) ==>
      LookupMaxLimit(s, n).value <= LookupMaxLimitCorrected(s, n).value
  {
  }
}
