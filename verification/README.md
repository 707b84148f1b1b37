# Expense ledger core in Dafny

A model of the store-and-query core of a small PHP expense tracker and of
the validation and decision rules in front of it:

- `PdoExpenseRepository` keeps the `expenses` table. It finds, upserts and
  deletes rows by id. Its `findBy`/`countBy` build a WHERE clause from a
  criteria array in a loop, and `listExpenditureYears` asks for the distinct
  years of a user's expenses. The table is a `map<int, Row>` field of a
  class. The SQL engine is given a meaning as functions over that map:
  which rows a WHERE text selects, their order (`ORDER BY date DESC`), the
  `LIMIT/OFFSET` window, and the errors SQLite raises for an empty WHERE or
  an unknown column.
- `ExpenseService` turns a page number into an offset. It writes year and
  month as the text `strftime` compares against, builds the criteria shared
  by `list` and `countExpenses`, and makes the expense `create` saves
  (`ucfirst` category, amount in cents truncated toward zero).
- `AuthService` registers by lookup-or-insert over a user store. `attempt`
  accepts everyone.
- `ExpenseController` and `AuthController` validate by adding one error
  key per failed check. They pick the paging defaults and the page count,
  and answer with a rendered page or a redirect. `update` and `destroy` do
  their write even after the ownership check fails, as the code does.

The model follows the code: amounts are truncated toward zero to cents,
the checks in front of `create` sit in the controller, the page count
divides by the constant 20 whatever page size was asked, and the filter key
is the column name `user_id`. Rows with equal dates, which SQLite leaves
unordered, are ordered smaller id first, a choice of the model.

Files: `wrappers.dfy` (Option, Result), `decimal.dfy` (`strval`,
zero-padded fields, reading digits back), `calendar.dfy` (dates, their
chronological rank, `strftime`/`format` texts), `entities.dfy` (Expense,
User), `query.dfy` (WHERE text and its meaning), `persistence.dfy` (the
repository class), `expense_service.dfy`, `user_auth.dfy`, `http.dfy`
(responses), `expense_controller.dfy`, `auth_controller.dfy`.

## Model

| member | source | states |
|---|---|---|
| Decimal.ValueOfDigits | app/Domain/Service/ExpenseService.php:23 | the decimal text `strval` writes for a non-negative number reads back as that number |
| Decimal.YearTextMatches | app/Domain/Service/ExpenseService.php:23 | `strval(year)` equals a date's four-digit `%Y` field exactly when it is that year and has four digits; years below 1000 never match |
| Calendar.RankIsChronological | app/Infrastructure/Persistence/PdoExpenseRepository.php:73 | the rank used to order dates grows exactly with calendar order, and equal ranks are equal dates |
| Query.ToExpense | app/Infrastructure/Persistence/PdoExpenseRepository.php:155-165 | a fetched row decodes to an expense with the row's id and every column of the row |
| Query.WhereClauseLayout | app/Infrastructure/Persistence/PdoExpenseRepository.php:56-70 | the WHERE text is one fragment per key in key order, " AND " between neighbours and nowhere else, and its length is the fragments' plus n-1 separators |
| Query.WhereClauseEmpty | app/Infrastructure/Persistence/PdoExpenseRepository.php:54-70 | the WHERE text is empty exactly when the criteria are empty |
| Query.Listing | app/Infrastructure/Persistence/PdoExpenseRepository.php:73 | the ordered result lists every matching row exactly once, later dates first |
| Query.Page | app/Infrastructure/Persistence/PdoExpenseRepository.php:73 | the LIMIT/OFFSET window is a contiguous block after the skipped rows, at most `limit` long, running to the end when the limit is negative or too few are left |
| Query.FindByFails | app/Infrastructure/Persistence/PdoExpenseRepository.php:56-75 | `findBy` and `countBy` fail exactly when the criteria are empty or name a key that is neither `year`/`month` nor a column name, compared without ASCII case and with `rowid`, `oid` and `_rowid_` naming `id` |
| Query.ColumnNamed | app/Infrastructure/Persistence/PdoExpenseRepository.php:64 | the column a filter key names in the statement is always one of the table's columns, or none |
| Query.ColumnNamedIgnoresCase | app/Infrastructure/Persistence/PdoExpenseRepository.php:64 | a key names the same column whatever the ASCII case of its letters |
| Query.ColumnNamesItself | app/Infrastructure/Persistence/PdoExpenseRepository.php:64 | each column's own name names that column |
| Query.ColumnNamedExamples | app/Infrastructure/Persistence/PdoExpenseRepository.php:64 | `USER_ID` and `Date` name their columns, `ROWID` names `id`, and `year` names no column |
| Query.PageIdsSkipFirstMatches | app/Infrastructure/Persistence/PdoExpenseRepository.php:73 | the k-th row of the window is the (from+k)-th match in date order |
| Query.PageIdsMeaning | app/Infrastructure/Persistence/PdoExpenseRepository.php:56-76 | the window holds at most `limit` rows, each satisfying every criterion, in non-increasing date order |
| Query.FindByMeaning | app/Infrastructure/Persistence/PdoExpenseRepository.php:50-87 | `findBy` returns at most `limit` expenses, each the decoded row of a match, in non-increasing date order |
| Query.CountCoversFindBy | app/Infrastructure/Persistence/PdoExpenseRepository.php:90-116 | `countBy` and `findBy` succeed together, no window is longer than the count, and with no offset and no limit the window is all the matches |
| Query.Decode | app/Infrastructure/Persistence/PdoExpenseRepository.php:79-81 | one decoded expense per fetched row, in fetch order |
| Query.UserYears | app/Infrastructure/Persistence/PdoExpenseRepository.php:121 | the user's years lie in the range of SQLite dates |
| Query.Ascending | app/Infrastructure/Persistence/PdoExpenseRepository.php:121 | a set of years listed strictly ascending, each exactly once |
| Query.ExpenditureYearsEntries | app/Infrastructure/Persistence/PdoExpenseRepository.php:118-132 | every listed year is the four-digit year of one of the user's rows |
| Query.ExpenditureYearsCover | app/Infrastructure/Persistence/PdoExpenseRepository.php:118-132 | every year in which the user has a row is listed |
| Query.ExpenditureYearsAscending | app/Infrastructure/Persistence/PdoExpenseRepository.php:121 | the listed years are strictly ascending, so none repeats |
| Persistence.NextId | app/Infrastructure/Persistence/PdoExpenseRepository.php:39 | an insert without an id gets an id that is not taken and exceeds every existing one |
| Persistence.UpsertUpdatesInPlace | app/Infrastructure/Persistence/PdoExpenseRepository.php:39-41 | saving a present id overwrites date, category, amount and description, keeps the user, and leaves every other row alone |
| Persistence.UpsertInsertsOne | app/Infrastructure/Persistence/PdoExpenseRepository.php:39-41 | saving without an id, or with an absent one, adds exactly one row holding the expense under a fresh id |
| Persistence.UpsertLastWriteWins | app/Infrastructure/Persistence/PdoExpenseRepository.php:39-41 | saving twice with one id is idempotent; the later save's fields win and the first save's user stays |
| Persistence.BuildWhere | app/Infrastructure/Persistence/PdoExpenseRepository.php:54-70 | the loop that appends fragments, with " AND " after every key but the last, builds exactly the WHERE text |
| Persistence.DecodeRows | app/Infrastructure/Persistence/PdoExpenseRepository.php:77-81 | the push loop produces the decoded rows in fetch order |
| Persistence.PdoExpenseRepository.Find | app/Infrastructure/Persistence/PdoExpenseRepository.php:23-34 | null exactly when no row has the id; otherwise an expense with that id whose fields equal the row's columns |
| Persistence.PdoExpenseRepository.Save | app/Infrastructure/Persistence/PdoExpenseRepository.php:36-42 | the table becomes the upsert of the expense |
| Persistence.PdoExpenseRepository.Delete | app/Infrastructure/Persistence/PdoExpenseRepository.php:44-48 | the row with the id is gone and every other row is as before; an absent id changes nothing |
| Persistence.PdoExpenseRepository.FindBy | app/Infrastructure/Persistence/PdoExpenseRepository.php:50-87 | the result is the filtered, date-ordered window of the table, or the error SQLite raises |
| Persistence.PdoExpenseRepository.CountBy | app/Infrastructure/Persistence/PdoExpenseRepository.php:90-116 | the result is the number of matching rows, or the error SQLite raises |
| Persistence.PdoExpenseRepository.ListExpenditureYears | app/Infrastructure/Persistence/PdoExpenseRepository.php:118-132 | the result is the user's distinct years as four-digit text, ascending |
| ExpenseServices.PagesTile | app/Domain/Service/ExpenseService.php:22 | page 1 has offset 0, page p+1 starts where page p ends, and two neighbouring pages make up the window twice as long |
| ExpenseServices.MonthTextValue | app/Domain/Service/ExpenseService.php:24 | the month text is digits reading back as the month, two characters below 100, unpadded from 10 on |
| ExpenseServices.MonthTextMatches | app/Domain/Service/ExpenseService.php:34 | the month text equals a date's two-digit `%m` field exactly when it is that month |
| ExpenseServices.MonthCriteriaMeaning | app/Domain/Service/ExpenseService.php:26 | a row satisfies the criteria exactly when it is the user's and in that year and month; a user without an id matches nothing |
| ExpenseServices.MonthCriteriaAccepted | app/Domain/Service/ExpenseService.php:35 | the shared criteria never make either statement fail |
| ExpenseServices.ListMeaning | app/Domain/Service/ExpenseService.php:19-27 | `list` returns at most `pageSize` of the user's expenses in that month, latest first |
| ExpenseServices.CountMeaning | app/Domain/Service/ExpenseService.php:33-36 | `countExpenses` is the number of the user's expenses in that month, and no page of `list` is longer |
| ExpenseServices.Ucfirst | app/Domain/Service/ExpenseService.php:47 | only the first character may change, and only from a lower-case to the matching upper-case letter |
| ExpenseServices.UcfirstIdempotent | app/Domain/Service/ExpenseService.php:47 | applying `ucfirst` twice is applying it once |
| ExpenseServices.Cents | app/Domain/Service/ExpenseService.php:46 | the cents are amount times 100 truncated toward zero |
| ExpenseServices.SubCentAmountStoresZero | app/Domain/Service/ExpenseService.php:46-49 | a positive amount below one cent is stored as zero cents |
| ExpenseServices.CreateAddsOne | app/Domain/Service/ExpenseService.php:49-50 | creating adds one row under a fresh id with the user's id, the given date and description, the `ucfirst` category and the cents, and keeps every other row |
| ExpenseServices.ExpenseService.List | app/Domain/Service/ExpenseService.php:19-27 | the result is the window `findBy` gives for the month criteria at the page's offset |
| ExpenseServices.ExpenseService.ListYears | app/Domain/Service/ExpenseService.php:29-31 | the result is the repository's list of the user's years |
| ExpenseServices.ExpenseService.CountExpenses | app/Domain/Service/ExpenseService.php:33-36 | the result is the count for the same criteria `list` uses |
| ExpenseServices.ExpenseService.Create | app/Domain/Service/ExpenseService.php:38-51 | exactly one save, of the new expense |
| ExpenseServices.ExpenseService.Update | app/Domain/Service/ExpenseService.php:53-61 | the table is left unchanged |
| ExpenseServices.ExpenseService.ImportFromCsv | app/Domain/Service/ExpenseService.php:63-69 | the table is left unchanged and zero rows are reported |
| UserAuth.FirstNamed | app/Domain/Service/AuthService.php:19 | none exactly when no stored user has the name; otherwise a stored user with that name |
| UserAuth.UserRepository.FindByUsername | app/Domain/Service/AuthService.php:19 | the lookup by name over the stored users |
| UserAuth.UserRepository.Save | app/Domain/Service/AuthService.php:29 | the user is added to the store |
| UserAuth.RegisterExisting | app/Domain/Service/AuthService.php:19-22 | a taken name returns the existing user and saves nothing |
| UserAuth.RegisterNew | app/Domain/Service/AuthService.php:25-29 | a free name saves exactly one user with no id, that name, the hash of the password and the current time |
| UserAuth.RegisterTwiceSavesOnce | app/Domain/Service/AuthService.php:19-31 | the returned user has the requested name, and registering the name again returns the same user and saves nothing |
| UserAuth.AuthService.Register | app/Domain/Service/AuthService.php:16-32 | lookup, then a save only when the name is free, as the registration function says |
| UserAuth.AuthService.Attempt | app/Domain/Service/AuthService.php:34-41 | every name and password is accepted |
| ExpenseActions.TotalPages | app/Controllers/ExpenseController.php:49 | the fewest pages of 20 that hold the count |
| ExpenseActions.ExpenseErrorsMeaning | app/Controllers/ExpenseController.php:92-117 | one key per failed check with its message, each independent; no errors exactly when all pass; a date equal to now is accepted |
| ExpenseActions.ValidateExpense | app/Controllers/ExpenseController.php:87-115 | the in-place assignments build exactly the errors map, comparing dates chronologically |
| ExpenseActions.EditPageOwnership | app/Controllers/ExpenseController.php:145-150 | 403 and the `user` error exactly when the expense is not the session user's, 200 and no errors otherwise |
| ExpenseActions.ExpenseController.Index | app/Controllers/ExpenseController.php:38-63 | page 1, page size 20 and the current year and month when absent; the page of the month's expenses, the user's years, and the page count of 20 whatever page size was asked |
| ExpenseActions.ExpenseController.Store | app/Controllers/ExpenseController.php:87-123 | with errors, the create page with them and nothing saved; without, one create and a 302 to /expenses |
| ExpenseActions.ExpenseController.Edit | app/Controllers/ExpenseController.php:135-150 | the edit page with the `Y-m-d` date, refused with 403 to anyone but the owner |
| ExpenseActions.ExpenseController.Update | app/Controllers/ExpenseController.php:165-185 | always a 302 to /expenses, the ownership check notwithstanding, and the table unchanged |
| ExpenseActions.ExpenseController.Destroy | app/Controllers/ExpenseController.php:197-209 | the row is deleted whoever asks, and the answer is always a 302 to /expenses |
| AuthActions.RegistrationErrorsMeaning | app/Controllers/AuthController.php:35-52 | `username` exactly when shorter than 4; `password` exactly when shorter than 8 or without a digit, the digit message winning; no errors exactly when all hold |
| AuthActions.ValidateRegistration | app/Controllers/AuthController.php:35-50 | the in-place assignments build exactly the errors map |
| AuthActions.LoginOutcome | app/Controllers/AuthController.php:72-76 | a redirect 302 to / exactly when logged in, otherwise the login page with the error line |
| AuthActions.AuthController.Register | app/Controllers/AuthController.php:31-59 | with errors, 400 with the name and password echoed and no registration; without, one registration and a 302 to /login |
| AuthActions.AuthController.Login | app/Controllers/AuthController.php:66-77 | since `attempt` accepts everyone, always the 302 to / |

## Left out

- The aggregates `sumAmountsByCategory`, `averageAmountsByCategory` and `sumAmounts` and the monthly summary service: they return constant empty results and carry no logic.
- PDO and SQLite execution: statements are given a meaning as functions over the table, not executed. Parameters are bound as text and SQLite's column affinity converts them; the model compares typed values directly.
- The order of rows with equal dates: SQLite leaves it unspecified; the model fixes one order, the smaller id first.
- Query.Listing: the date order compares chronologically; that this equals the order of the stored `Y-m-d H:i:s` text (fixed-width fields, years limited to 0..9999) is assumed, not proved.
- Calendar.WellFormed: dates are limited to years 0..9999, the range of SQLite's date functions, and days are not checked against the length of their month.
- Persistence.NextId: SQLite's rowid choice when the largest id is the maximum integer is not modelled; integers are unbounded.
- `DateTimeImmutable` parsing of submitted and stored date text: dates arrive already parsed, and the current time is a parameter.
- Floating point: amounts are exact reals, so binary rounding drift in `amount * 100` is not modelled; neither is a cast of an out-of-range float.
- `floatval` and the `(int)` casts of request parameters: they arrive already converted.
- Sessions, `$_ENV` and the category list: the session user id and the found user are parameters; the category list is not passed to any view.
- The user lookup in `index` and `store` (`PdoUserRepository::find`): PdoUserRepository is not part of this model; in `store` the found user, or none, is a parameter.
- ExpenseActions.ExpenseController.Index: the user is taken as found; the `TypeError` `list` raises when the lookup returns null is not modelled.
- ExpenseServices.Offset: integers are unbounded; PHP's overflow of `($pageNumber - 1) * $pageSize` past 64 bits into a float, and the `TypeError` `findBy` then raises under strict types, are not modelled.
- Query.FindByFails: a key that is not a plain column name (SQL text or a quoted identifier inside the key) is treated as a missing column; the schema is taken to have `id` as its INTEGER PRIMARY KEY, so the rowid names mean `id`.
- UserAuth.UserRepository: the user repository's storage is not part of this model; it is modelled as a list searched by name, with saves appended.
- UserAuth.AuthService.Register: `password_hash` is an opaque function fixed for the service, so its random salt is not modelled.
- Twig rendering, headers, `http_build_query`, the `currentUrl` and `categories` view values, and the logger: responses keep only template, status, errors and the string values shown.
- The `create` page, `showRegister`, `showLogin` and `logout`: they only render a template or clear the session.
- ExpenseActions.ExpenseController.Edit: the code dereferences the result of `find` without a null check; the expense existing is a precondition of edit, update and destroy instead of a crash.
- AuthActions.RegistrationErrorsMeaning: `strlen` counts bytes; the model counts characters, which agree for ASCII input.
