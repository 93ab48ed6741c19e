# Banco Magalu transaction engine, modelled in Dafny

This project models the core of a small current-account bank. Two services make up that core:

- **`TransacaoService`** (the transaction engine) covers deposits (`realizarDeposito`), withdrawals (`realizarSaque`) and transfers (`realizarTransferencia`). Each operation turns a request into new values for `saldo` (balance) and `limiteCredito` (credit still available) on one or two accounts. It then records one `Transacao` and one audit entry.
- **`ContaCorrenteService`** (the account service) covers account creation with defaults, lookup, the two checked setters the engine writes through, the "maximum limit" lookup and deletion. All of them work over a store keyed by account number.

Amounts are Dafny `real`. The system uses exact `BigDecimal` arithmetic, and `BigDecimal.valueOf(0.01)` is exactly 0.01, so fees of 1% and 2% are modelled without rounding.

An account (`Types.Account`) carries:

- `number`
- `balance`
- `creditLimit`: the available credit
- `createdOn`
- `creditCeiling`: `limiteMaximo`
- the account's own `transactions`, which are deleted with it

Every engine operation is a pure function returning `Result<Receipt>`. On success, `Ok(Receipt(bank, transaction))` holds the new accounts and audit log. On failure, `Err(error)` carries the error and no state. `IllegalArgument` stands for `IllegalArgumentException`, `AccountNotFound` for `ContaNaoEncontradaException`, and both `InsufficientFunds` and `CreditExceeded` for `SaldoInsuficienteException`, which the system throws with two different messages. So a failed operation commits nothing, which matches the `@Transactional` boundary of each engine method.

The engine writes through the account service's setters (`SetBalance`, `SetCreditLimit`) exactly as the source does. Those setters refuse negative values, so a refusal there fails the whole operation.

Modules:

- `Types` (types.dfy): the data model, the per-account invariant `Healthy` and `HealthyBank`, and the `Untouched` frame predicate.
- `Rules` (rules.dfy): the fee rates (1% withdrawal; 1% or 2% transfer). It also states the deposit and debit rules declaratively (`DepositEffect`, `DebitEffect`) and the "exactly one transaction recorded" rule (`RecordsOne`), and proves that each rule fixes the result uniquely.
- `AccountService` (account_service.dfy): `Create`, `Find`, `SetBalance`, `SetCreditLimit`, `LookupMaxLimit`, `Save` (the whole-entity balance update), `Delete`.
- `TransactionEngine` (transaction_engine.dfy): `Deposit`, `Withdraw`, `Transfer` (as the code has it), `TransferCorrected`, and the shared `BalanceFirst`, `Settle` and `Record`.
- `Holdings` (holdings.dfy): the total worth of the store (balance plus available credit, summed over all accounts). A deposit adds exactly the amount, a withdrawal removes exactly 1.01 times the amount, and a transfer removes exactly its fee.
- `Operations` (operations.dfy): runs any sequence of admissible operations and proves that the invariant holds throughout and that the audit log only grows, by one entry per recorded transaction.
- `Findings` (findings.dfy) and `Scenarios` (scenarios.dfy): the concrete inputs behind the findings, and the scenarios the system's tests pin down.

The model follows the code in these points:

- When an account is missing, the setters, the "maximum limit" lookup and deletion all throw `IllegalArgumentException`, not an account-not-found error.
- The default credit ceiling is 1000.
- The transfer's funds check always charges 1%, even when the debit will charge 2%.
- Nothing in creation or in the credit setter keeps `0 <= creditLimit <= creditCeiling`. The invariant is therefore proved only for sequences whose creations supply admissible amounts, and the credit setter is left out of those sequences (`AccountService.SetCreditLimitIgnoresCeiling`).
- The whole-entity overload `atualizarSaldo(ContaCorrente)` saves any balance, a negative one included, with no check. The account controller's balance update calls it. It is modelled as `AccountService.Save` and left out of the sequences the invariant is proved for (`AccountService.SaveAdmitsNegativeBalance`).

An account can therefore hold a negative balance or credit, through unchecked creation or through `Save`. The engine's contracts say what happens to such accounts. For example, an account with a negative balance that is then withdrawn from ends with balance 0. The debit rule `DebitEffect` allows for this (`0 <= balance' <= max(balance, 0)`). A transfer into an account whose balance stays negative is refused by the balance setter.

## Model

| member | source | states |
|---|---|---|
| `AccountService.Create` | src/main/java/com/example/Banco_Magalu/service/ContaCorrenteService.java:26-46 | A missing record is refused as an illegal argument. A number already stored is refused with that number. Otherwise exactly that number is added, with balance, credit and ceiling defaulting to 0, 0 and 1000 and supplied values kept unchanged. Every other account is left as it was. |
| `AccountService.Find` | src/main/java/com/example/Banco_Magalu/service/ContaCorrenteService.java:55-60 | Returns an account if and only if the number is stored, and then it is the stored account. |
| `AccountService.SetBalance` | src/main/java/com/example/Banco_Magalu/service/ContaCorrenteService.java:68-77 | A negative value is refused before the lookup, even for an unknown number. An unknown number is an illegal argument. Otherwise only that account's balance changes, to the value given. |
| `AccountService.SetCreditLimit` | src/main/java/com/example/Banco_Magalu/service/ContaCorrenteService.java:85-94 | Works like the balance setter, on the available credit. It succeeds exactly for a non-negative value and a stored number, whatever the ceiling. |
| `AccountService.LookupMaxLimit` | src/main/java/com/example/Banco_Magalu/service/ContaCorrenteService.java:101-105 | Succeeds if and only if the number is stored. It then answers with the available credit, not the ceiling. |
| `AccountService.LookupMaxLimitCorrected` | src/main/java/com/example/Banco_Magalu/service/ContaCorrenteService.java:101-105 | Answers with the credit ceiling the method is named after. |
| `AccountService.Save` | src/main/java/com/example/Banco_Magalu/service/ContaCorrenteService.java:111-113 | The account handed in is stored under its own number, whatever its amounts. Every other account is kept as it was. |
| `AccountService.SetBalanceIsCheckedSave` | src/main/java/com/example/Banco_Magalu/service/ContaCorrenteService.java:68-77 | On a stored account, the checked balance setter succeeds exactly for a non-negative value. It then gives the same store as the whole-entity save of that account with the new balance. |
| `AccountService.SaveAdmitsNegativeBalance` | src/main/java/com/example/Banco_Magalu/service/ContaCorrenteService.java:111-113 | A negative balance that the checked setter refuses is saved by the whole-entity update. The saved account then has a negative amount. |
| `AccountService.LookupMaxLimitReadsCreditSetter` | src/main/java/com/example/Banco_Magalu/service/ContaCorrenteService.java:85-105 | After the credit setter writes a value, the "maximum limit" lookup answers that value. The corrected lookup still answers the untouched ceiling. |
| `AccountService.LookupMaxLimitVersusCorrected` | src/main/java/com/example/Banco_Magalu/service/ContaCorrenteService.java:101-105 | The two lookups fail on the same numbers. They agree exactly when the available credit equals the ceiling. On a healthy account, the system's answer is never above the corrected one. |
| `AccountService.Delete` | src/main/java/com/example/Banco_Magalu/service/ContaCorrenteService.java:119-123 | An unknown number is an illegal argument. Otherwise exactly that account, with the transactions it owns, is removed, and every other account is kept as it was. |
| `AccountService.DeleteUndoesCreate` | src/main/java/com/example/Banco_Magalu/service/ContaCorrenteService.java:119-123 | Deleting an account just created gives back the original store. |
| `AccountService.FindAfterCreate` | src/main/java/com/example/Banco_Magalu/service/ContaCorrenteService.java:55-60 | A lookup after creation finds exactly the account that creation saved. |
| `AccountService.SetBalanceLastWriteWins` | src/main/java/com/example/Banco_Magalu/service/ContaCorrenteService.java:68-77 | A written balance is the balance read back, and two writes to the same account leave only the later one. |
| `AccountService.SetCreditLimitIgnoresCeiling` | src/main/java/com/example/Banco_Magalu/service/ContaCorrenteService.java:85-94 | The credit setter accepts a value above the account's ceiling. |
| `Rules.DepositEffectDetermined` | src/main/java/com/example/Banco_Magalu/service/TransacaoService.java:50-66 | The declarative deposit rule fixes the new balance and credit uniquely. The rule: all money arrives, neither amount falls, credit stops at the ceiling, and the balance grows only once headroom is full. |
| `Rules.DebitEffectDetermined` | src/main/java/com/example/Banco_Magalu/service/TransacaoService.java:115-127 | For any positive total and any starting account, one with a negative balance included, the declarative debit rule fixes the new balance and credit uniquely. The rule: the full total is taken, from the balance first, and neither amount ends below zero. |
| `Rules.DebitPossibleExactlyWhenCanDebit` | src/main/java/com/example/Banco_Magalu/service/TransacaoService.java:115-127 | `CanDebit` holds exactly when some account meets the debit rule. It says the setters accept the debit's writes: the credit left after a balance-first debit is not negative. |
| `TransactionEngine.BalanceFirst` | src/main/java/com/example/Banco_Magalu/service/TransacaoService.java:191-198 | The debit takes exactly the total from balance plus credit. Credit is touched only when the balance does not cover the total, and the balance then ends at zero. |
| `TransactionEngine.Record` | src/main/java/com/example/Banco_Magalu/service/TransacaoService.java:69-85 | The transaction is appended to its owner's history and one audit entry to the log. Nothing else changes. |
| `TransactionEngine.Deposit` | src/main/java/com/example/Banco_Magalu/service/TransacaoService.java:36-88 | A missing account fails before the amount is checked. A missing or non-positive amount is an illegal argument. The deposit always succeeds on an account with non-negative amounts. On success it meets the deposit rule: balance plus credit grows by exactly the amount, credit is restored first up to the ceiling, and the ceiling is unchanged. It records one deposit of the requested amount, and no other account changes. |
| `TransactionEngine.Withdraw` | src/main/java/com/example/Banco_Magalu/service/TransacaoService.java:96-147 | A missing account fails first, then a bad amount. The withdrawal fails as insufficient funds exactly when balance plus credit is below 1.01 times the amount, with equality accepted. The credit re-check never fires. Past the funds check, it succeeds exactly when `CanDebit` holds, and otherwise the credit setter refuses a negative credit. This covers accounts holding a negative amount. On an account with no negative amount it always succeeds past the funds check. On success it meets the debit rule for 1.01 times the amount and records one withdrawal of the requested amount. |
| `TransactionEngine.Settle` | src/main/java/com/example/Banco_Magalu/service/TransacaoService.java:191-213 | The origin is debited by the total, balance first, and the destination balance gains exactly the requested amount with its credit untouched. One transfer owned by the origin is recorded. For any two accounts, negative amounts included, it succeeds exactly when `CanDebit` holds for the origin and the destination's new balance is not negative. Otherwise the credit setter refuses first, then the balance setter. |
| `TransactionEngine.Transfer` | src/main/java/com/example/Banco_Magalu/service/TransacaoService.java:158-219 | Checks run in order: amount, then same account, then origin lookup, then destination lookup. Insufficient funds is judged against 1.01 times the amount, but the debit charges 1.02 times the amount when the origin has credit. In between, the transfer fails as an illegal credit value. Once the 1% check passes, for any amounts in either account, it succeeds exactly when `CanDebit` holds for the origin and the destination's new balance is not negative. Otherwise the setters' refusals are returned. On success the origin meets the debit rule, the destination gains exactly the amount, and one transfer is recorded. |
| `TransactionEngine.TransferCorrected` | src/main/java/com/example/Banco_Magalu/service/TransacaoService.java:176-198 | Works like the transfer above, except that insufficient funds is judged against the total actually charged. On accounts with no negative amount, it therefore succeeds exactly when the origin covers that total. With negative amounts, past the funds check, it succeeds exactly when `CanDebit` holds and the destination's new balance is not negative. |
| `Holdings.DepositConserves` | src/main/java/com/example/Banco_Magalu/service/TransacaoService.java:46-66 | A deposit adds exactly the deposited amount to the store's total of balances plus credit. |
| `Holdings.WithdrawConserves` | src/main/java/com/example/Banco_Magalu/service/TransacaoService.java:106-127 | A withdrawal removes exactly the amount plus its 1% fee from the store's total. |
| `Holdings.TransferConserves` | src/main/java/com/example/Banco_Magalu/service/TransacaoService.java:176-204 | A transfer removes exactly its fee (1% or 2% of the amount) from the store's total. Everything else is moved, not lost. |
| `Operations.Apply` | src/main/java/com/example/Banco_Magalu/service/TransacaoService.java:81-85 | A committed deposit, withdrawal or transfer appends exactly one audit entry. Account-service operations leave the log as it was. The log is only ever extended. |
| `Operations.ApplyKeepsHealthy` | src/main/java/com/example/Banco_Magalu/service/ContaCorrenteService.java:68-94 | Any admissible committed operation keeps every account healthy: non-negative balance, credit between 0 and the ceiling, and a history of its own positive transactions. |
| `Operations.DepositKeepsHealthy` | src/main/java/com/example/Banco_Magalu/service/TransacaoService.java:50-66 | A deposit keeps the bank healthy. In particular, credit never passes a ceiling it was under. |
| `Operations.WithdrawKeepsHealthy` | src/main/java/com/example/Banco_Magalu/service/TransacaoService.java:115-130 | A withdrawal keeps the bank healthy. |
| `Operations.TransferKeepsHealthy` | src/main/java/com/example/Banco_Magalu/service/TransacaoService.java:191-212 | A transfer keeps both accounts and the audit log healthy. |
| `Operations.RunKeepsHealthy` | src/main/java/com/example/Banco_Magalu/service/TransacaoService.java:36-219 | After any sequence of admissible operations the bank is still healthy. The audit log is an extension of the old one, by exactly one entry per recorded transaction. |
| `Findings.TransferFeeMismatch` | src/main/java/com/example/Banco_Magalu/service/TransacaoService.java:176-201 | Origin balance 0, credit 101, transfer 100: the 1% check passes, the 2% debit computes credit -1, and the transfer fails as an illegal argument. The corrected transfer reports insufficient funds. |
| `Findings.TransferAgreesWithCorrected` | src/main/java/com/example/Banco_Magalu/service/TransacaoService.java:176-201 | The system's transfer and the corrected one succeed on the same inputs and commit the same result. They differ only in the error kind, inside the fee window. |
| `Findings.MaxLimitLookupReturnsCredit` | src/main/java/com/example/Banco_Magalu/service/ContaCorrenteService.java:101-105 | With credit 1000 under a ceiling of 2000, the "maximum limit" lookup answers 1000. The corrected lookup answers 2000. |
| `Scenarios.DepositRefillsCreditFirst` | src/test/java/com/example/Banco_Magalu/ServiceTest/TransacaoServiceTest.java:39-60 | Balance 1000, credit 300, ceiling 500, deposit 400: credit 500 and balance 1200, ceiling unchanged, kind deposit. |
| `Scenarios.DepositRefusesBadAmount` | src/test/java/com/example/Banco_Magalu/ServiceTest/TransacaoServiceTest.java:65-118 | A missing deposit amount and a deposit of -100 are both refused as illegal arguments. |
| `Scenarios.WithdrawFromBalance` | src/test/java/com/example/Banco_Magalu/ServiceTest/TransacaoServiceTest.java:123-149 | Withdrawing 100 from 1000/300 leaves balance 899 and credit 300, and records a withdrawal of 100. |
| `Scenarios.WithdrawOverflowsIntoCredit` | src/test/java/com/example/Banco_Magalu/ServiceTest/TransacaoServiceTest.java:154-177 | Withdrawing 1100 from 1000/600 leaves balance 0 and credit 489, and records 1100. |
| `Scenarios.WithdrawExactlyCovered` | src/test/java/com/example/Banco_Magalu/ServiceTest/TransacaoServiceTest.java:182-206 | 1000 plus 515 exactly covers a withdrawal of 1500 and its fee. Both amounts end at 0. |
| `Scenarios.WithdrawInsufficient` | src/test/java/com/example/Banco_Magalu/ServiceTest/TransacaoServiceTest.java:275-322 | 1000 plus 400 does not cover 1515, so the withdrawal fails as insufficient funds. |
| `Scenarios.TransferWithCreditFee` | src/test/java/com/example/Banco_Magalu/ServiceTest/TransacaoServiceTest.java:327-367 | Transferring 500 between two 1000/500 accounts leaves the origin at 490/500 and the destination at 1500/500. One transfer of 500 is recorded, owned by the origin. |
| `Scenarios.TransferOverflowsIntoCredit` | src/test/java/com/example/Banco_Magalu/ServiceTest/TransacaoServiceTest.java:372-410 | Transferring 1100 leaves the origin at 0/378 and the destination at 2100/500. |
| `Scenarios.TransferInsufficient` | src/test/java/com/example/Banco_Magalu/ServiceTest/TransacaoServiceTest.java:415-483 | Transferring 2500 from 1000/500 fails as insufficient funds on the origin. |
| `Scenarios.TransferRefusals` | src/test/java/com/example/Banco_Magalu/ServiceTest/TransacaoServiceTest.java:488-633 | A transfer to the same number is refused. A negative or missing amount is refused before any account is looked up. |
| `Scenarios.CreateAppliesDefaults` | src/main/java/com/example/Banco_Magalu/service/ContaCorrenteService.java:36-46 | Creating "12" without amounts stores 0/0/1000. |
| `Scenarios.CreateRefusesDuplicate` | src/test/java/com/example/Banco_Magalu/ServiceTest/ContaCorrenteServiceTest.java:54-66 | Creating "12345" a second time fails with the duplicate-number error. |

## Left out

- Batch transfer (`TransacaoController.realizarTransferenciaEmLote`, TransacaoController.java:130-166) is left out. Its behaviour is concurrent fan-out with unordered, racy result lists, which a sequential model cannot represent faithfully. `Operations.Run` covers only strictly sequential sequences of single operations.
- Concurrency is left out: the model has no lost updates between simultaneous operations on one account, and no locking. Each operation is atomic and the operations run one after another.
- Controllers, DTO validation annotations, the Swagger configuration and the HTTP status mapping of the exception handler are left out. They only route requests and translate errors.
- Spring Data repositories, JPA cascade and fetch, and `Hibernate.initialize` are left out. The store is a `map<string, Account>`, and cascading deletion is the account owning its transactions.
- Transaction ids, the description and audit message texts (`DecimalFormat`), and `LocalDate.now()` are left out. Ids and texts are presentation only. The date is the `today` parameter.
- The audit service (`AuditoriaService`: listing by account, listing all, clearing) is left out. The engine calls a two-argument `save(message, transaction)` that the audit service does not define (it has only `save(String)`). The model keeps one audit entry per success, linked to its transaction, without the message.
- Null account numbers, and null values passed to the setters, are left out. In the source they raise `NullPointerException` or a persistence error, not one of the modelled errors. The engine never passes a null value to a setter.
- Creation is modelled with an empty transaction list. A record submitted with transactions does not own them after saving, because the back-reference is never set.
- Database constraints (the non-null creation date, the audit entries' foreign key to transactions when an account is deleted) are left out.
- The classes `ContaNaoEncontradaException` and `SaldoInsuficienteException` are not part of this model. They are taken to be unchecked, so that the transactional boundary rolls back when they are thrown.
- TransactionEngine.Deposit: for an account that already holds a negative balance or credit, the contract does not say which setter refusal a failed deposit ends in. It says only that success meets the deposit rule.

## Findings

| source | as written | input that shows it | evidently intended | confidence | as-written member | corrected member |
|---|---|---|---|---|---|---|
| src/main/java/com/example/Banco_Magalu/service/TransacaoService.java:176-201 | The funds check charges a 1% fee. The debit then charges 2% when the origin has any credit. The credit setter refuses the resulting negative credit, so the transfer fails as an illegal argument. | Origin balance 0, credit 101; transfer 100: 101 passes the check, 102 is debited, and the credit becomes -1 | The funds check uses the fee that will be charged, so the transfer fails as insufficient funds | high; not executed | `TransactionEngine.Transfer`, shown by `Findings.TransferFeeMismatch` | `TransactionEngine.TransferCorrected`, which commits exactly what the system's transfer commits (`Findings.TransferAgreesWithCorrected`) |
| src/main/java/com/example/Banco_Magalu/service/ContaCorrenteService.java:101-105 | `buscarLimiteMaximo` returns `limiteCredito` | Credit 1000, ceiling 2000: the lookup answers 1000 | It returns `limiteMaximo` (2000). The test's own message expects 2000 while asserting 1000. | medium; not executed | `AccountService.LookupMaxLimit`, shown by `Findings.MaxLimitLookupReturnsCredit` | `AccountService.LookupMaxLimitCorrected` |
