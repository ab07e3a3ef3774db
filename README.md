# Personal-finance backend: ledger, budget and user handlers

This project models the Express route handlers of a personal-finance web application
that work against four SQL tables: Users, Account, Transactions and Budget. Each handler
is a fixed sequence of SQL statements. The model keeps them in source order, over
in-memory tables.

- `tables.dfy` (module `Tables`) holds what all handlers share. A table is a sequence of
  `Row(id, data)` in key order. Keys come from an IDENTITY column (`Keyed`: keys strictly
  increase and stay below the next value to be handed out). It gives one function each
  for `SELECT ... WHERE` (`Where`, `WithKey`), `UPDATE ... WHERE key` (`Update`) and
  `DELETE ... WHERE key` (`Without`). It also defines the handler reply `Reply` (200 with
  a body, or a status with a message) and `Fault`, which says on which statement of a
  handler the store raises.
- `ledger.dfy` (module `Ledger`) models `routes/db.js`. The class `LedgerStore` holds the
  Account and Transactions tables. `AddTransaction` inserts a row, then credits the
  account. `DeleteTransaction` looks the row up, deletes it, then debits the account by
  the amount stored in the row. The three GET handlers are functions over the tables.
  The ledger invariant is `Offsets`: each account's balance minus the amounts of its
  transactions, which is its opening balance. A healthy add or delete leaves it unchanged.
- `budgets.dfy` (module `Budgets`) models `routes/budgets.js`. The class `BudgetStore`
  has create, update and delete. The listing is a function.
- `users.dfy` (module `Users`) models `routes/users.js`. The class `UserStore` has signup.
  Login is a function, so it cannot change the table.

Amounts and balances are integers in minor currency units, which is exact like the
DECIMAL columns. Dates, descriptions, account types, usernames and passwords are strings,
passed through unchanged.

Store failures are an input. `Fault.RaisesAt(k, message)` means statement `k` of the
handler raises, counting from 0 in source order. Opening the connection counts as part of
statement 0. The raising statement has no effect. The statements before it stay applied.
The handler's `catch` answers 500 with the message. This matters for the two writing
ledger handlers. Their INSERT/DELETE and the balance UPDATE are separate statements with
no SQL transaction around them, so the pair is not atomic. The model follows the code:
`PartialAddBreaksOffsets` and `PartialDeleteBreaksOffsets` show the invariant breaking
when the second write raises.

The signup handler does not check whether the username is taken. A store that rejects
the insert, for example under a UNIQUE constraint, appears only as a 500, never as a
409. The model assumes no constraint, and a rejection is `Fault.RaisesAt(0, _)`.
Because usernames may repeat, login returns the first matching row. `SignupThenLogin`
proves that login returns the new row's key exactly when no earlier row has the same
username and password.

## Model

| member | source | states |
|---|---|---|
| `Tables.Where` | p5/routes/db.js:21-22 | a SELECT returns exactly the rows of the table that satisfy its condition |
| `Tables.WhereCount` | p5/routes/db.js:21-22 | a SELECT returns each row satisfying its condition exactly as many times as the table holds it, and no other row |
| `Tables.WhereHead` | p5/routes/users.js:29-33 | the first row a SELECT returns is the first row of the table satisfying the condition, and no earlier row satisfies it |
| `Tables.WithKey` | p5/routes/db.js:61-65 | a lookup by key returns exactly the rows with that key, and it is empty exactly when no row has the key |
| `Tables.Update` | p5/routes/budgets.js:45-53 | an UPDATE by key rewrites the rows with that key and leaves every other row and the row count unchanged |
| `Tables.Without` | p5/routes/budgets.js:65-67 | a DELETE by key removes exactly the rows with that key and keeps all others |
| `Tables.WithKeyAppended` | p5/routes/db.js:61-65 | looking up the key of the row just inserted finds that row and nothing else |
| `Tables.WithoutMissing` | p5/routes/budgets.js:65-67 | deleting a key no row has leaves the table unchanged |
| `Tables.WithoutTwice` | p5/routes/budgets.js:65-68 | delete is idempotent: deleting the same key a second time changes nothing |
| `Tables.WithoutAppended` | p5/routes/db.js:71-73 | deleting the key of the row just inserted restores the table from before the insert |
| `Tables.UpdateMissing` | p5/routes/budgets.js:45-55 | an UPDATE of a key no row has changes nothing |
| `Tables.KeyedAppend` | p5/routes/db.js:36-41 | inserting under the next IDENTITY value keeps keys increasing, and the new key is fresh |
| `Tables.KeyedWithout` | p5/routes/db.js:71-73 | a DELETE keeps the remaining keys in increasing order |
| `Tables.KeyedUnique` | p5/routes/db.js:61-69 | in a keyed table a key names at most one row, so `recordset[0]` is the row |
| `Ledger.AccountsOf` | p5/routes/db.js:11-13 | the account query returns exactly the accounts whose user_id matches, each as many times as the table holds it |
| `Ledger.ListTransactions` | p5/routes/db.js:6-28 | 500 if the first query raises; 404 "No accounts found for this user" exactly when the user owns no account; otherwise 500 if the second query raises, else exactly the transactions whose account the user owns, each as many times as the table holds it |
| `Ledger.ListAccounts` | p5/routes/db.js:92-107 | 500 only when the query raises; otherwise (account_id, account_type, balance) of exactly the user's accounts, possibly empty, one entry per account row the query returns |
| `Ledger.ListBudgetAccounts` | p5/routes/db.js:110-129 | the same rows, one entry per account row, but 404 exactly when the user owns no account; the only other error is the 500 of a raising query |
| `Ledger.AccountListingsDiffer` | p5/routes/db.js:98-124 | the two account listings agree except that an empty list from one is a 404 from the other |
| `Ledger.TotalAppend` | p5/routes/db.js:36-41 | inserting a transaction adds its amount to its own account's total and leaves every other total unchanged |
| `Ledger.TotalWithout` | p5/routes/db.js:61-73 | deleting a stored transaction by key removes exactly its amount from its own account's total |
| `Ledger.AddKeepsOffsets` | p5/routes/db.js:36-46 | insert plus credit keeps every account's balance minus its transaction total unchanged |
| `Ledger.DeleteKeepsOffsets` | p5/routes/db.js:61-78 | delete plus debit by the stored amount keeps every account's balance minus its transaction total unchanged |
| `Ledger.PartialAddBreaksOffsets` | p5/routes/db.js:36-46 | if the balance update raises after the insert, a nonzero amount on an existing account breaks the invariant |
| `Ledger.PartialDeleteBreaksOffsets` | p5/routes/db.js:71-78 | if the balance update raises after the delete, a nonzero stored amount on an existing account breaks the invariant |
| `Ledger.CreditFrame` | p5/routes/db.js:43-46 | the balance UPDATE (also used as the debit at db.js:75-78) moves only the balance of the account with that key, by the amount; key, user, type and every other row are unchanged |
| `Ledger.CreditThenDebit` | p5/routes/db.js:43-78 | crediting an account and then debiting it by the same amount restores the Account table |
| `Ledger.AddThenDeleteRestores` | p5/routes/db.js:36-78 | after an add, deleting the new key finds exactly the new row, and both tables return to their prior values |
| `Ledger.LedgerStore.AddTransaction` | p5/routes/db.js:30-53 | 500 with nothing changed if the insert raises; otherwise one row with the submitted account, amount, date and description under a fresh key; 500 with the balance unchanged if the update raises; otherwise that account is credited by the amount and the offsets are kept |
| `Ledger.LedgerStore.DeleteTransaction` | p5/routes/db.js:55-85 | 500 or 404 "Transaction not found" with nothing changed when the lookup raises or finds no row; 500 with nothing changed if the delete raises; otherwise the row is removed, and unless the update raises, the account recorded in the row is debited by the amount recorded in the row, keeping the offsets |
| `Ledger.LedgerStore.AddThenDelete` | p5/routes/db.js:30-85 | adding a transaction and then deleting it by its new key succeeds twice and restores both tables |
| `Ledger.Scenario` | p5/routes/db.js:30-85 | opening balance 100.00, add -40.00, add 15.50, delete the first: balances 100.00, 60.00, 75.50, 115.50 |
| `Budgets.ListBudgets` | p5/routes/budgets.js:6-17 | 500 only when the query raises; otherwise exactly the Budget rows whose user_id matches, each as many times as the table holds it |
| `Budgets.RevisedFrame` | p5/routes/budgets.js:45-53 | an update sets only amount, start_date and end_date on the row with that key; key, user, account, category and every other row are unchanged |
| `Budgets.RevisedMissing` | p5/routes/budgets.js:45-55 | updating a key no row has leaves the table unchanged |
| `Budgets.CreatedListedDeleted` | p5/routes/budgets.js:12-67 | a created budget appears in its user's next listing; after it is deleted by its key it is gone, and the listing is as before |
| `Budgets.BudgetStore.CreateBudget` | p5/routes/budgets.js:19-38 | 500 with nothing changed if the insert raises; otherwise success and one new row with all six submitted fields under a fresh key, with existing rows untouched and no duplicate or overlap check |
| `Budgets.BudgetStore.UpdateBudget` | p5/routes/budgets.js:40-59 | 500 with nothing changed if the statement raises; otherwise "Budget updated successfully!" and the table is the update of that key, even when no row has it |
| `Budgets.BudgetStore.DeleteBudget` | p5/routes/budgets.js:61-72 | 500 with nothing changed if the statement raises; otherwise "Budget deleted successfully!" and exactly the rows with that key are gone |
| `Budgets.BudgetStore.DeleteTwice` | p5/routes/budgets.js:65-68 | two deletes of one key both report success, and the table equals one delete |
| `Budgets.BudgetStore.CreateTwice` | p5/routes/budgets.js:19-34 | two identical budgets are both accepted and both appear in the user's listing |
| `Users.Login` | p5/routes/users.js:21-40 | 500 if the query raises; otherwise success exactly when some row has both the username and the password, returning the user_id and username of the first such row; otherwise 401 "Invalid username or password" |
| `Users.SignupThenLogin` | p5/routes/users.js:10-33 | login after signup with the same credentials succeeds, and it returns the new user_id exactly when no earlier row has the same pair |
| `Users.UserStore.Signup` | p5/routes/users.js:6-19 | 500 with no row added if the store rejects the insert; otherwise one row with the username and password as submitted, under a fresh key |

## Left out

- `routes/plaid.js` is not part of this model. Its operations are calls to the external
  aggregation provider's SDK.
- The React components, `app.js` (middleware wiring and `listen`) and logging through
  `console.error` are not part of this model.
- The model does not include connection pooling, or the driver's conversion of request
  values to `sql.Int`, `sql.Decimal` and `sql.Date`. A value the driver refuses becomes a
  raising statement, `Fault.RaisesAt`.
- Amounts keep their cents in the model, but not in the handlers. `sql.Decimal` is
  declared without precision or scale, so the driver sends it with scale 0 and rounds the
  amount to whole units. The amounts at db.js:38 and :45 and at budgets.js:27 and :47
  lose their fractional part. In the sequence of `Ledger.Scenario`, the handlers store
  16.00 for the 15.50 credit and end at 76.00 and 116.00, where the model gives 75.50 and
  115.50.
- Row order: SQL returns rows in no promised order. The model returns them in key order.
  The listing contracts state which rows are returned, not their order. "First matching
  row" at login means first in key order.
- Concurrency: each request is one sequential step over the tables. The model does not
  interleave concurrent requests or lose updates between them.
- Faults strike only at statement boundaries. If an INSERT raises, the model hands out no
  IDENTITY value.
- Accounts are never created or removed by these handlers. They are given to the
  `LedgerStore` constructor.
- Account ids referenced by a transaction are not checked against Account. A transaction
  for an unknown account is inserted, and its balance update changes no row.
- Reply bodies: the 404 of `DELETE /transactions/:id` puts its text under `message`, the
  other errors under `error`. `Reply.Error` does not keep the key name.
- Password hashing and sessions: the code stores and compares plaintext, and so does the
  model.
- Request bodies are assumed to carry every field the handler reads. The driver sends an
  absent field as NULL. A `POST /transactions` without `amount` would store a NULL amount
  and set the balance to NULL, which no later write repairs, so `Offsets` no longer
  holds. A `PUT /budgets/:budget_id` without `amount` would write NULL and still report
  success. The model has no NULL: every column is a value.
- `Users.Login`: SQL `=` on the username and password columns is modelled as exact string
  equality. SQL Server's trailing-blank padding, its case-insensitive default collation
  and the code-page conversion of VARCHAR columns are not modelled, so logins that differ
  only in case or trailing blanks are treated as different.
- `Users.SignupThenLogin`: it relies on the same exact equality, so "the same username and
  password" means equal strings, not equal under the column's collation.
