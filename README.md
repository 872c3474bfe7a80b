# Finance ledger: transactions, balance and CSV import

This project models the core of a small finance API built on an ORM. The
API stores income and outcome transactions, each filed under a category
that is looked up by title and created on first use. It reports the
balance (the income sum, the outcome sum and their difference). It refuses
an outcome the balance cannot cover. It deletes a transaction by
identifier. It also imports a CSV file of transactions, applying every
income before any outcome so that an outcome listed early in the file does
not trip the balance check.

The model has four parts:

- `model.dfy` (module `Model`): the entities and the consistency of the
  stores.
  - A `Transaction` has an identifier, title, value, type and category
    identifier. A `Category` has an identifier and a title.
  - The application errors are invalid data (400), insufficient funds (403)
    and a delete that affected nothing (400).
  - `LedgerState` holds both database tables, plus counters that stand for
    the identifiers the database generates.
  - `Valid` is what the database keeps true: identifiers are unique, and
    every transaction references a stored category.
- `balance.dfy` (module `Balances`): the repository's `getBalance`.
  - The reduce is modelled as a left fold, `Reduce`.
  - It is proved equal to an independent per-type sum, `SumOf`.
  - It is proved to be independent of the order in which the store
    returns the rows.
- `create_transaction.dfy` and `delete_transaction.dfy`: the two services,
  each written as a function of the ledger state that returns the result
  and the ledger afterwards.
- `ledger.dfy` (class `LedgerStore.Ledger`): the stores as mutable state.
  - Its `CreateTransaction`, `DeleteTransaction` and `GetBalance` methods
    work step by step, as the services do.
  - Each method is proved to produce exactly the result and the new state
    that the service's function gives, and to keep `Valid`.
- `import_transactions.dfy`: the import service.
  - It maps rows to records by position and parses the value.
  - It groups the records into an income and an outcome bucket.
  - `SaveAll` is `saveTransactions` as a function: it runs the service on
    each request in turn and stops at the first error.
  - `SaveTransactions` and `Execute` are the imperative loop and entry
    point over a `Ledger` and a `CsvFile`.
  - The run lemmas (`SaveAllPersists`, `SaveAllCarries`, `SaveAllAborts`)
    are proved for any service that satisfies `Appends`, which states:
    - a success appends exactly the transaction it returns, carrying the
      request's fields;
    - a failure changes nothing.

    `ExecuteAppends` shows that the create-transaction service satisfies
    it.

Behaviour kept as the code has it:

- **Imported category titles are dropped.** The import passes the category
  column as `category_title`, but the create service reads `categoryTitle`
  and defaults it to `"none"`. Every imported transaction therefore lands
  in the `"none"` category. `ToRequest` passes no category title, and
  `ImportedCategoryIsNone` proves the consequence.
- **Negative values pass validation.** Validation only checks that the
  value is truthy (non-zero), so negative values are accepted. A negative
  income lowers the total (`NegativeIncomeLowersTotal`). A negative outcome
  is refused only when the total is already below its value; when it is
  accepted it raises the total (`NegativeOutcome`, `NegativeOutcomeRefused`).
  The total can fall below zero in two ways: a negative income, or deleting
  an income, since the delete runs no balance check (an income of 100, an
  outcome of 100, then deleting the income leaves -100).
- **A failed import keeps what it already saved.** The requests applied
  before the failing one stay persisted, and the file is not deleted
  (`ImportFailed`, `OutcomeBeyondFunds`).

## Model

| member | source | states |
|---|---|---|
| Model.Status | src/services/CreateTransactionService.ts:30-43 | insufficient funds is answered with 403; every other error with 400 |
| Balances.ReduceIsSum | src/repositories/TransactionsRepository.ts:16-26 | the reduce from `{income: 0, outcome: 0}` yields, per type, the sum of the values of exactly the transactions of that type |
| Balances.Reduce | src/repositories/TransactionsRepository.ts:16-26 | the reduce as written, a left fold adding each value to the slot its type names; its contract is stated by `Balances.ReduceIsSum` |
| Balances.BalanceOf | src/repositories/TransactionsRepository.ts:13-33 | income and outcome are the per-type sums, total is income minus outcome, and an empty store gives all zeros |
| Balances.BalanceAppend | src/repositories/TransactionsRepository.ts:16-33 | one more stored transaction moves its own slot and the total (up for an income, down for an outcome) by its value, and leaves the other slot alone |
| Balances.SumOfPermutation | src/repositories/TransactionsRepository.ts:14-26 | the per-type sum is the same for any ordering of the same transactions |
| Balances.BalancePermutation | src/repositories/TransactionsRepository.ts:14-33 | the balance does not depend on the order in which `find` returns the rows |
| LedgerStore.Ledger.GetBalance | src/repositories/TransactionsRepository.ts:13-33 | reads the stored transactions, changes nothing, and returns the per-type sums and their difference |
| CreateTransactionService.FindCategory | src/services/CreateTransactionService.ts:47-49 | a found category is stored and has the title; nothing is found exactly when no stored category has the title |
| CreateTransactionService.GetOrCreateCategory | src/services/CreateTransactionService.ts:46-55 | an existing title is reused with the store and counter unchanged; otherwise exactly one category with that title is appended under the next identifier |
| CreateTransactionService.GetOrCreateKeepsIdsValid | src/services/CreateTransactionService.ts:51-55 | the category store only grows and its identifiers stay unique and below the counter |
| CreateTransactionService.Execute | src/services/CreateTransactionService.ts:18-67 | invalid data exactly when the value is zero or the type is neither literal; insufficient funds exactly when a valid outcome exceeds the total; success exactly when the request is valid and, for an outcome, covered by the total; a failure changes nothing; a success appends one transaction with the next identifier, the title or "untitled", the value, the type and the resolved category of the given title or "none" |
| CreateTransactionService.CategoryResolution | src/services/CreateTransactionService.ts:46-61 | the new transaction references a stored category with the requested title; the category is reused if one existed and created otherwise |
| CreateTransactionService.IncomeIgnoresBalance | src/services/CreateTransactionService.ts:34-44 | a valid income succeeds whatever the stored transactions, with the same transaction and categories |
| CreateTransactionService.OutcomeKeepsTotalNonNegative | src/services/CreateTransactionService.ts:34-44 | a successful outcome lowers the total by its value and leaves it non-negative |
| CreateTransactionService.IncomeRaisesTotal | src/services/CreateTransactionService.ts:57-64 | a successful income raises income and total by its value |
| CreateTransactionService.NegativeIncomeLowersTotal | src/services/CreateTransactionService.ts:28-32 | the truthiness check lets an income of -5 through, and from an empty ledger the total becomes -5 |
| CreateTransactionService.NegativeOutcome | src/services/CreateTransactionService.ts:28-44 | a negative outcome passes validation; it is refused for insufficient funds exactly when the total is below its value, and when accepted it raises the total by its magnitude |
| CreateTransactionService.NegativeOutcomeRefused | src/services/CreateTransactionService.ts:35-43 | with a total of -10 (one income of -10), an outcome of -5 is refused for insufficient funds and changes nothing |
| CreateTransactionService.StoresOnlyGrow | src/services/CreateTransactionService.ts:46-64 | no stored transaction or category is altered or removed, and the category counter never decreases |
| CreateTransactionService.ExecutePreservesValid | src/services/CreateTransactionService.ts:46-64 | identifiers stay unique and every transaction references a stored category |
| LedgerStore.Ledger.CreateTransaction | src/services/CreateTransactionService.ts:18-67 | the step-by-step service (validate, read the balance for an outcome, get or create the category, insert) returns and leaves exactly what `CreateTransactionService.Execute` gives, and keeps the stores valid |
| LedgerStore.Ledger.GetOrCreateCategory | src/services/CreateTransactionService.ts:46-55 | the lookup-then-insert returns and stores exactly what `CreateTransactionService.GetOrCreateCategory` gives, and leaves the transactions alone |
| DeleteTransactionService.RemoveSpec | src/services/DeleteTransactionService.ts:15 | the delete keeps exactly the records with another identifier; it affects nothing exactly when no record has the identifier, and then the store is unchanged |
| DeleteTransactionService.Remove | src/services/DeleteTransactionService.ts:15 | the delete by identifier as written; its contract is stated by `DeleteTransactionService.RemoveSpec` |
| DeleteTransactionService.Execute | src/services/DeleteTransactionService.ts:12-20 | fails with the delete error exactly when no stored transaction has the identifier, changing nothing; afterwards no transaction has it, all others remain, and categories and counters are unchanged |
| DeleteTransactionService.RemoveUnique | src/services/DeleteTransactionService.ts:15 | with unique identifiers, deleting a stored identifier removes that one record and keeps the others in order |
| DeleteTransactionService.DeleteRemovesExactlyOne | src/services/DeleteTransactionService.ts:15-19 | on a valid ledger, deleting a stored transaction succeeds and removes exactly that record |
| DeleteTransactionService.RemoveKeepsUnique | src/services/DeleteTransactionService.ts:15 | deleting keeps identifiers unique |
| DeleteTransactionService.DeletePreservesValid | src/services/DeleteTransactionService.ts:15-19 | deleting keeps identifiers unique and every category reference valid |
| LedgerStore.Ledger.DeleteTransaction | src/services/DeleteTransactionService.ts:12-20 | the delete followed by the affected-count check returns and leaves exactly what `DeleteTransactionService.Execute` gives, and keeps the stores valid |
| ImportTransactionsService.CsvFile.constructor | src/services/ImportTransactionsService.ts:27-49 | a file holds its parsed rows and has not been deleted |
| ImportTransactionsService.ParseShowInt | src/services/ImportTransactionsService.ts:61 | the value parse reads back the decimal text of any integer as that integer |
| ImportTransactionsService.ParseValue | src/services/ImportTransactionsService.ts:61 | `Number(value)` on integers; its contract is stated by `ImportTransactionsService.ParseShowInt` |
| ImportTransactionsService.RawDataPositional | src/services/ImportTransactionsService.ts:55-67 | one record per row, in order, reading title, type, value and category by position, with missing fields absent |
| ImportTransactionsService.RawDataToTransactionData | src/services/ImportTransactionsService.ts:55-67 | the row map as written; its contract is stated by `ImportTransactionsService.RawDataPositional` |
| ImportTransactionsService.OfKind | src/services/ImportTransactionsService.ts:69-97 | the reference filter keeps exactly the records of the named type and is no longer than its input |
| ImportTransactionsService.GroupIsFilter | src/services/ImportTransactionsService.ts:69-97 | the reduce into two buckets equals the two in-order filters by type |
| ImportTransactionsService.GroupByTransactionType | src/services/ImportTransactionsService.ts:69-97 | the reduce into two buckets as written; its contract is stated by `ImportTransactionsService.GroupIsFilter` and `ImportTransactionsService.GroupDropsOtherTypes` |
| ImportTransactionsService.GroupDropsOtherTypes | src/services/ImportTransactionsService.ts:76-87 | each bucket holds exactly the records of its type; records of any other type are dropped; the buckets together hold at most all the records |
| ImportTransactionsService.Requests | src/services/ImportTransactionsService.ts:107-116 | one request per bucket record, in order, typed by the bucket and carrying the record's title and value |
| ImportTransactionsService.ToRequest | src/services/ImportTransactionsService.ts:108-116 | the request built for one record: the bucket's type literal, the record's title and value, and no category title (the key the service reads is not passed); its consequence is stated by `ImportTransactionsService.ImportedCategoryIsNone` |
| ImportTransactionsService.ExecuteAppends | src/services/CreateTransactionService.ts:57-66 | a successful create appends exactly the transaction it returns, with the request's title or default, value and type; a failed one changes nothing |
| ImportTransactionsService.SaveAllConcat | src/services/ImportTransactionsService.ts:137-145 | running two request lists is running the first, and then the second only if the first did not fail |
| ImportTransactionsService.SaveAll | src/services/ImportTransactionsService.ts:99-121 | `saveTransactions` as a function, stopping at the first error; its contract is stated by `ImportTransactionsService.SaveAllPersists`, `ImportTransactionsService.SaveAllCarries` and `ImportTransactionsService.SaveAllAborts` |
| ImportTransactionsService.SaveAllAdvance | src/services/ImportTransactionsService.ts:107-118 | one iteration of the loop: after a failure the run is settled with that error; after a success it continues with the next request from the new ledger |
| ImportTransactionsService.SaveAllPersists | src/services/ImportTransactionsService.ts:99-121 | the ledger afterwards is the old one plus exactly the created transactions, at most one per request; the run fails exactly when it stops short |
| ImportTransactionsService.SaveAllCarries | src/services/ImportTransactionsService.ts:108-116 | the i-th created transaction carries the title or default, the value and the type of the i-th request |
| ImportTransactionsService.SaveAllAborts | src/services/ImportTransactionsService.ts:107-118 | on an error, the requests before the failing one form a complete run that produced the persisted ledger; the failing request, run on it, fails with that error and changes nothing; later requests were not applied |
| ImportTransactionsService.ImportRequestsOrdered | src/services/ImportTransactionsService.ts:131-145 | every submitted request is typed income or outcome, every income comes before any outcome, and there is at most one request per row |
| ImportTransactionsService.ImportIsOneRun | src/services/ImportTransactionsService.ts:123-150 | the import is one sequential run over the incomes then the outcomes, with the same ledger and error; on success it returns the created transactions in submission order and deletes the file, and on failure it keeps the file |
| ImportTransactionsService.Import | src/services/ImportTransactionsService.ts:123-150 | `execute` as a function of the ledger and the parsed rows; its contract is stated by `ImportTransactionsService.ImportIsOneRun`, `ImportTransactionsService.ImportSucceeded` and `ImportTransactionsService.ImportFailed` |
| ImportTransactionsService.ImportSucceeded | src/services/ImportTransactionsService.ts:137-149 | on success the file is deleted, and the result is the created incomes followed by the created outcomes, one per bucket record, all of them now stored |
| ImportTransactionsService.ImportFailed | src/services/ImportTransactionsService.ts:137-147 | on failure the file stays; the ledger is the one left by the requests submitted before the failing one, and that request fails on it with the reported error |
| ImportTransactionsService.SaveAllCategoryNone | src/services/ImportTransactionsService.ts:108-116 | with the category title absent from every request, each created transaction references a stored category titled "none" |
| ImportTransactionsService.ImportedCategoryIsNone | src/services/ImportTransactionsService.ts:108-116 | every transaction a successful import creates is filed under "none", whatever the file's category column says |
| ImportTransactionsService.SaveAllPreservesValid | src/services/ImportTransactionsService.ts:107-118 | a run keeps identifiers unique and every category reference valid |
| ImportTransactionsService.RentThenSalaryData | src/services/ImportTransactionsService.ts:55-67 | the rows `Rent,outcome,500,Housing` and `Salary,income,1000,Job` map to those two records with values 500 and 1000 |
| ImportTransactionsService.RentThenSalaryGroups | src/services/ImportTransactionsService.ts:69-97 | those records group into the income bucket `[Salary]` and the outcome bucket `[Rent]` |
| ImportTransactionsService.SalaryFirst | src/services/CreateTransactionService.ts:18-67 | the income of 1000 on an empty ledger is stored with identifier 0 under a new "none" category |
| ImportTransactionsService.RentAfterSalary | src/services/CreateTransactionService.ts:34-64 | the outcome of 500 after that income passes the balance check and reuses the "none" category |
| ImportTransactionsService.RentThenSalaryImport | src/services/ImportTransactionsService.ts:123-150 | importing that file stores the income and then the outcome, returns both in that order, and deletes the file |
| ImportTransactionsService.OutcomeListedFirst | src/services/ImportTransactionsService.ts:131-145 | an outcome listed before the income that covers it still imports, and the balance afterwards is income 1000, outcome 500, total 500 |
| ImportTransactionsService.SalaryThenRentData | src/services/ImportTransactionsService.ts:55-67 | the rows `Salary,income,100,Job` and `Rent,outcome,500,Housing` map to those two records |
| ImportTransactionsService.SalaryThenRentGroups | src/services/ImportTransactionsService.ts:69-97 | those records group into `[Salary]` and `[Rent]` |
| ImportTransactionsService.RentBeyondSmallSalary | src/services/CreateTransactionService.ts:35-43 | the outcome of 500 against a total of 100 is refused for insufficient funds and changes nothing |
| ImportTransactionsService.OutcomeBeyondFunds | src/services/ImportTransactionsService.ts:137-145 | an outcome the imported incomes cannot cover aborts the import with insufficient funds; the file stays, and only the income is persisted |
| ImportTransactionsService.SaveTransactions | src/services/ImportTransactionsService.ts:99-121 | the loop creates one transaction per record in order and stops at the first error; its results and the new ledger are exactly `SaveAll` of the bucket's requests, and the stores stay valid |
| ImportTransactionsService.Execute | src/services/ImportTransactionsService.ts:123-150 | map, group, save the incomes, then save the outcomes, then delete the file; the result, the ledger and whether the file was deleted are exactly what `Import` gives, and the stores stay valid |

## Left out

- **Reading the CSV file** (`readCSV`) is not modelled: stream reading, CSV lexing, skipping the header line and trimming fields. A `CsvFile` holds the rows as they come out of the parser.
- **Deleting the file** (`deleteFile`) is a flag set on the `CsvFile`. File-system errors are not modelled.
- **`Number(value)` is modelled on integers only.** Decimal fractions, exponents, hexadecimal, binary (`0b`) and octal (`0o`) literals, `Infinity`, surrounding whitespace and the loss of precision of numbers beyond 2^53 are not modelled. Any text that is not an optionally signed run of decimal digits reads as 0. The service rejects 0 as falsy, exactly as it rejects `NaN`.
- **The ORM and the database are not modelled.** The two tables are sequences, and generated UUIDs are natural-number counters.
  - `findOne` by title returns the first matching category. The service never creates a second category with a title that already exists.
  - The transaction's `value` column is read back as the same integer that was stored.
- **Timestamps are not modelled.** The creation and update timestamps the database sets on transactions and categories, and returns on the saved entities, have no counterpart in `Transaction` or `Category`.
- **Concurrency is not modelled.** Every `await` is taken as completing in program order. Two requests interleaving between the balance check and the insert are not modelled.
- **HTTP routing, request parsing and the error-handling middleware are not modelled.** An `AppError` is a `Failure` of the `Error` datatype. `Status` gives its HTTP code.
- **The request's declared field types are not enforced.** Requests are modelled with an integer value and a type string. Values that are not numbers are not modelled.
- **Database errors other than the ones the services raise are not modelled**, such as a failed insert or a lost connection.
- `DeleteTransactionService.Execute`: the affected count is always a number here. A driver that reports no count would make the source's `affected === 0` test false and let the delete succeed. That case is not modelled.
