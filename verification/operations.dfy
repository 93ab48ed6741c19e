/*******************************************************************************
 *  Sequences of operations. Each operation either commits or fails with the
 *  bank left exactly as it was; over any sequence of them the per-account
 *  invariants hold and the audit log only grows.
 *******************************************************************************/

module Operations {
  import opened Types
  import AccountService
  import TransactionEngine

  /** One request made of the bank. */
  datatype Op =
    | DepositOp(number: string, amount: Option<real>)
    | WithdrawOp(number: string, amount: Option<real>)
    | TransferOp(origin: string, dest: string, amount: Option<real>)
    | DeleteOp(number: string)
    | CreateOp(input: Option<AccountService.NewAccount>)
    | SetBalanceOp(number: string, value: real)

  /** A creation record whose amounts, defaults included, already satisfy the
      account invariant. Creation itself checks none of them. */
  predicate AdmissibleRecord(rec: AccountService.NewAccount) {
    var balance := AccountService.OrDefault(rec.balance, AccountService.DefaultBalance);
    var credit := AccountService.OrDefault(rec.creditLimit, AccountService.DefaultCreditLimit);
    var ceiling := AccountService.OrDefault(rec.creditCeiling, AccountService.DefaultCeiling);
    balance >= 0.0 && 0.0 <= credit <= ceiling
  }

  /** The operations the invariant is kept under: every engine operation,
      deletion, the balance setter, and creation from an admissible record. */
  predicate Admissible(op: Op) {
    op.CreateOp? && op.input.Some? ==> AdmissibleRecord(op.input.value)
  }

  /** The bank an operation commits, or the error it fails with, as the
      system performs it. */
  function Apply(bank: Bank, op: Op, today: Date): (r: Result<Bank>)
    ensures r.Ok? && Records(op) ==> |r.value.audit| == |bank.audit| + 1
    ensures !Records(op) ==> r.Ok? ==> r.value.audit == bank.audit
    ensures r.Ok? ==> bank.audit <= r.value.audit
  {
    match op
    case DepositOp(n, amount) =>
      var receipt :- TransactionEngine.Deposit(bank, n, amount, today);
      Ok(receipt.bank)
    case WithdrawOp(n, amount) =>
      var receipt :- TransactionEngine.Withdraw(bank, n, amount, today);
      Ok(receipt.bank)
    case TransferOp(origin, dest, amount) =>
      var receipt :- TransactionEngine.Transfer(bank, origin, dest, amount, today);
      Ok(receipt.bank)
    case DeleteOp(n) =>
      var s :- AccountService.Delete(bank.accounts, n);
      Ok(Bank(s, bank.audit))
    case CreateOp(input) =>
      var created :- AccountService.Create(bank.accounts, input);
      Ok(Bank(created.store, bank.audit))
    case SetBalanceOp(n, v) =>
      var s :- AccountService.SetBalance(bank.accounts, n, v);
      Ok(Bank(s, bank.audit))
  }

  /** The operations that record a transaction when they commit. */
  predicate Records(op: Op) {
    op.DepositOp? || op.WithdrawOp? || op.TransferOp?
  }

  /** A committed operation keeps the bank healthy. */
  lemma ApplyKeepsHealthy(bank: Bank, op: Op, today: Date)
    requires HealthyBank(bank) && Admissible(op) && Apply(bank, op, today).Ok?
    ensures HealthyBank(Apply(bank, op, today).value)
  {
    match op
    case DepositOp(n, amount) => DepositKeepsHealthy(bank, n, amount, today);
    case WithdrawOp(n, amount) => WithdrawKeepsHealthy(bank, n, amount, today);
    case TransferOp(origin, dest, amount) => TransferKeepsHealthy(bank, origin, dest, amount, today);
    case DeleteOp(n) =>
    case CreateOp(input) =>
      var created := AccountService.Create(bank.accounts, input).value;
      assert Healthy(input.value.number, created.account);
    case SetBalanceOp(n, v) =>
      var s := AccountService.SetBalance(bank.accounts, n, v).value;
      assert Healthy(n, s[n]);
  }

  lemma DepositKeepsHealthy(bank: Bank, n: string, amount: Option<real>, today: Date)
    requires HealthyBank(bank) && TransactionEngine.Deposit(bank, n, amount, today).Ok?
    ensures HealthyBank(TransactionEngine.Deposit(bank, n, amount, today).value.bank)
  {
  }

  lemma WithdrawKeepsHealthy(bank: Bank, n: string, amount: Option<real>, today: Date)
    requires HealthyBank(bank) && TransactionEngine.Withdraw(bank, n, amount, today).Ok?
    ensures HealthyBank(TransactionEngine.Withdraw(bank, n, amount, today).value.bank)
  {
  }

  lemma TransferKeepsHealthy(bank: Bank, origin: string, dest: string, amount: Option<real>, today: Date)
    requires HealthyBank(bank) && TransactionEngine.Transfer(bank, origin, dest, amount, today).Ok?
    ensures HealthyBank(TransactionEngine.Transfer(bank, origin, dest, amount, today).value.bank)
  {
  }

  /** The bank after one operation: its commit, or the bank unchanged. */
  function Step(bank: Bank, op: Op, today: Date): Bank {
    match Apply(bank, op, today)
    case Ok(b) => b
    case Err(_) => bank
  }

  /** The bank after a sequence of operations, applied in order. */
  function Run(bank: Bank, ops: seq<Op>, today: Date): Bank
    decreases |ops|
  {
    if ops == [] then bank else Run(Step(bank, ops[0], today), ops[1..], today)
  }

  /** The number of operations of a sequence that commit and record a transaction. */
  function Recorded(bank: Bank, ops: seq<Op>, today: Date): nat
    decreases |ops|
  {
    if ops == [] then 0
    else
      var r := Apply(bank, ops[0], today);
      (if r.Ok? && Records(ops[0]) then 1 else 0) + Recorded(Step(bank, ops[0], today), ops[1..], today)
  }

  /** Whatever the sequence of admissible operations, every account keeps a non-negative
      balance, available credit between zero and its ceiling, and a history of
      its own positive transactions; the audit log is only appended to, and
      by exactly one entry per recorded transaction. */
  lemma {:induction false} RunKeepsHealthy(bank: Bank, ops: seq<Op>, today: Date)
    requires HealthyBank(bank)
    requires forall i :: 0 <= i < |ops| ==> Admissible(ops[i])
    ensures HealthyBank(Run(bank, ops, today))
    ensures bank.audit <= Run(bank, ops, today).audit
    ensures |Run(bank, ops, today).audit| == |bank.audit| + Recorded(bank, ops, today)
    decreases |ops|
  {
    if ops != [] {
      var next := Step(bank, ops[0], today);
      if Apply(bank, ops[0], today).Ok? {
        ApplyKeepsHealthy(bank, ops[0], today);
      }
      RunKeepsHealthy(next, ops[1..], today);
    }
  }
}
