# Budget tracker: a Dafny model

This project models the core of a small budget tracker, a Flask application on MySQL. Each user keeps
income and expense transactions and sorts them into categories. The model covers three layers:

- the model layer: `models/transaction.py`, `models/category.py` and `models/user.py`;
- the service layer: `services/transaction_service.py`, `services/category_service.py` (the class in
  lines 8-97) and `services/auth_service.py`;
- the login guards in `utils/decorators.py`.

The MySQL database is one `Database` object (module `Schema`). It holds three tables, `users`, `categories`
and `transactions`, as sequences of rows, plus the AUTO_INCREMENT counters. Its `Valid()` invariant holds
the constraints the schema enforces:

- ids are positive, distinct and below the counter;
- `users.username` is UNIQUE, and so is `categories(user_id, name)`;
- the foreign key `transactions.category_id → categories.id` holds, with ON DELETE SET NULL;
- every row fits its column widths. Strict SQL mode is assumed, so an over-long value is an error
  rather than being truncated.

Every SQL statement is modelled as follows:

- An INSERT, UPDATE or DELETE is a method. It changes only the fields its `modifies` clause names, and its
  contract gives their new values: the tables, and for an INSERT the AUTO_INCREMENT counter as well.
- A SELECT is a function of the tables.
- The `try/except` around each statement becomes a `fault` parameter that stands for the statement raising.
  A service passes `fault` only to its final mutating call. The lookups before it are taken to succeed.
- `datetime.now()` is a parameter `now`.
- A password hash is made with an explicit salt parameter.

Amounts are integers in cents (DECIMAL(12,2)). Dates are `DateTime` values, ordered lexicographically. A
date text is read as `strptime(s, '%Y-%m-%d')` reads it with CPython's patterns: a four-digit year, a month
of one or two digits (`1[0-2]`, `0[1-9]` or `[1-9]`), a day of one or two digits (`3[01]`, `[12][0-9]`,
`0[1-9]`, `[1-9]` or a space and `[1-9]`), nothing after the day, and a real calendar day. So
'2024-1-5' is accepted, although `strftime` prints that day as '2024-01-05'.

Modules, one per source file, plus shared value modules:
`Common`, `Text` (the `int()`/`float()` parsing and printing of numerals), `Dates` (`strptime` and `strftime`
on `%Y-%m-%d`), `Passwords`, `Sorting` (insertion sort, used for ORDER BY), `Schema`, `TransactionModel`,
`CategoryModel`, `UserModel`, `TransactionService`, `CategoryService`, `AuthService`, `Decorators`.

Two facts about MySQL shape several contracts:

- **`cursor.rowcount` after an UPDATE counts the rows whose values changed.** This is mysql.connector's
  default, without the FOUND_ROWS client flag. So an update that writes the values a row already holds
  returns False. An example is `update_category` that keeps a category's own name and passes no colour
  (`CategoryService.OwnNameAloneChangesNothing`).
- **The order of a GROUP BY result is unspecified in MySQL.** The model takes the order in which rows first
  use each key. This matters only where two groups share a label, and then the later one wins in the
  dictionary.

`get_user_transactions`, `get_transaction`, `get_categories_for_user` and `get_user_by_id` only delegate to
a model function, so they are covered by `TransactionModel.AllByUser`, `TransactionModel.ById`,
`CategoryModel.AllByUser` and `UserModel.FindById`.

## Model

| member | source | states |
|---|---|---|
| TransactionModel.Create | models/transaction.py:52-67 | success iff no fault and the row fits, foreign key included; it then appends exactly one row for the owner, dated `now` when no date is given; on failure the table is unchanged; the invariants are kept |
| TransactionModel.AllByUser | models/transaction.py:83-113 | the result holds exactly the owner's rows, each exactly once (same multiset), newest first and then higher id first; each is joined with its category |
| TransactionModel.NewestFirstListingIsUnique | models/transaction.py:91 | `ORDER BY date DESC, id DESC` fixes the listing: two orderings of the same rows with distinct ids are equal |
| TransactionModel.ById | models/transaction.py:130-157 | found iff some row has both that id and that owner; the row found is such a row, joined with its category |
| TransactionModel.ByIdOfOtherOwner | models/transaction.py:130-139 | an instance of `ById`'s contract: a row that exists but belongs to someone else yields None |
| TransactionModel.CategoryArgument | models/transaction.py:192-194 | for `category_id`: None leaves the column alone, 0 clears it, any other id is stored as given |
| TransactionModel.CategoryZeroClears | models/transaction.py:192-194 | `update(category_id=0)` stores NULL; any other id is stored |
| TransactionModel.SetClause | models/transaction.py:177-197 | the SET list is empty iff nothing is supplied; applied in order, it gives the patched row |
| TransactionModel.Update | models/transaction.py:177-212 | True iff the patch is non-empty, there is no fault, the rewritten row fits and some row actually changed; the table is then the patched table, and on False it is unchanged |
| TransactionModel.EmptyPatchChangesNothing | models/transaction.py:196-197 | an instance of `Update`'s contract: an empty patch rewrites nothing and changes no row |
| TransactionModel.PatchedKeepsUnsupplied | models/transaction.py:180-194 | every supplied column takes its new value and every other column keeps its old one; id and owner never change |
| TransactionModel.UpdateIsolation | models/transaction.py:200 | any other owner's rows are identical before and after |
| TransactionModel.UpdateFindsOwnedRow | models/transaction.py:200-209 | with distinct ids, an altering patch changes a row iff the row with that id belongs to the caller |
| TransactionModel.Without | models/transaction.py:226 | it keeps exactly the rows that do not match both id and owner; it is shorter iff a row matched |
| TransactionModel.WithoutKeepsValid | models/transaction.py:226-227 | deleting rows keeps ids distinct and the foreign key satisfied |
| TransactionModel.Delete | models/transaction.py:226-237 | True iff there is no fault and the owner had a row with that id; only that row is removed |
| TransactionModel.DeleteIsolation | models/transaction.py:226-227 | any other owner's rows are identical before and after |
| TransactionModel.SummaryByUser | models/transaction.py:251-274 | income is the sum of the owner's income amounts; expenses is the sum of the expense amounts; balance = income − expenses; all three are 0 when the query raises |
| TransactionModel.SummaryOfNoRows | models/transaction.py:253-254 | an example of `SummaryByUser`: an owner with no rows gets (0, 0, 0) |
| TransactionModel.SummaryAfterCreate | models/transaction.py:52-67 | a created row adds its amount to its owner's side of the summary, moves the balance by ±amount, and leaves every other owner's summary alone |
| TransactionModel.ExpensesOf | models/transaction.py:298 | it holds exactly the owner's expense rows |
| TransactionModel.ExpensesSum | models/transaction.py:295-298 | the owner's expense rows sum to the summary's `total_expenses` |
| TransactionModel.KeysOf | models/transaction.py:299 | it holds each `category_id` the rows use, exactly once |
| TransactionModel.GroupsFor | models/transaction.py:295-299 | one group per key, and its total is `SUM(amount)` over the rows with that key |
| TransactionModel.GroupsAreGroupBy | models/transaction.py:295-299 | the groups have distinct keys; every key is used; every row has its group; each total is the sum for its key |
| TransactionModel.GroupsConserveTotal | models/transaction.py:295-299 | the group totals add up to the sum over all grouped rows |
| TransactionModel.Label | models/transaction.py:293-297 | a NULL category gives "Ohne Kategorie"; an existing category gives its own name |
| TransactionModel.ChartOf | models/transaction.py:308-314 | every group's label is a key of the dict; every key comes from some group; the last group with a label decides that label's entry |
| TransactionModel.ChartCoversExpenses | models/transaction.py:291-314 | every expense of the owner appears under its label, and uncategorized ones under "Ohne Kategorie" |
| TransactionModel.ByCategory | models/transaction.py:277-317 | `{}` when the query raises; otherwise its keys are exactly the labels of the owner's expenses |
| TransactionModel.ChartTotalsMatchSummary | models/transaction.py:291-314 | when labels are distinct, the chart's totals sum to the summary's `total_expenses` |
| TransactionModel.ChartColorsSet | models/transaction.py:311 | under the corrected colour rule, every chart entry has a colour |
| TransactionModel.UncategorizedColorAsWritten | models/transaction.py:311 | as written, an uncategorized expense's entry has no colour (`None`), not '#999999' |
| CategoryModel.Create | models/category.py:23-50 | it returns an id iff there is no fault, the row fits and the owner has no category of that name; the new row gets that positive id and is appended; on None the table is unchanged |
| CategoryModel.CategoriesOf | models/category.py:64 | it holds exactly the owner's categories |
| CategoryModel.ByNameIsTotalPreorder | models/category.py:64 | `ORDER BY name` (character order) is a total preorder |
| CategoryModel.AllByUser | models/category.py:64-80 | the owner's categories, each exactly once, sorted by name |
| CategoryModel.ById | models/category.py:101-115 | found iff the caller owns a category with that id, and that is the category returned |
| CategoryModel.ByIdOfOtherOwner | models/category.py:101-115 | an instance of `ById`'s contract: another owner's category yields None |
| CategoryModel.UpdateIsolation | models/category.py:146 | only the owner's row with that id may change; no row's id or owner changes |
| CategoryModel.UpdateKeepsValid | models/category.py:146-148 | a rename that keeps owner names unique keeps ids and the foreign key intact |
| CategoryModel.Update | models/category.py:132-158 | False without name or colour; otherwise True iff there is no fault, the row fits, names stay unique per owner and a row changed; the table is then the renamed one |
| CategoryModel.WithoutCategory | models/category.py:175 | it removes exactly the owner's category with that id; it is shorter iff one was there |
| CategoryModel.ClearReferences | models/category.py:175 | ON DELETE SET NULL: every reference to the id is cleared; nothing else in any transaction changes |
| CategoryModel.WithoutCategoryKeepsUnique | models/category.py:175 | removal keeps owner names unique |
| CategoryModel.DeleteKeepsValid | models/category.py:175-176 | removal with SET NULL keeps every invariant, the foreign key included |
| CategoryModel.Delete | models/category.py:165-186 | True iff there is no fault and the caller owned it; the category is removed and references to it are cleared |
| CategoryModel.ClearReferencesKeepsSummary | models/category.py:175 | deleting a category changes no owner's income, expenses or balance |
| CategoryModel.OwnedTotalsAgree | models/category.py:175 | tables that differ only in category ids have the same per-owner totals |
| CategoryModel.CountNamed | models/category.py:205-217 | the count is positive iff the owner has a row with that name that is not excluded |
| CategoryModel.NameExists | models/category.py:205-220 | true iff there is no fault and the owner has that name on a row other than `exclude_id`; a falsy `exclude_id` excludes nothing |
| CategoryModel.OwnNameIsFree | models/category.py:205-207 | with its own id excluded, a category's own name is not taken |
| CategoryModel.DefaultsFit | models/category.py:232-242 | a check of the constants: the nine default pairs fit their columns and have distinct names |
| CategoryModel.SeededRowsAreDefaults | models/category.py:232-242 | every row seeding appends is the owner's and carries one of the default pairs |
| CategoryModel.SeededCountForNewOwner | models/category.py:244-249 | for an owner with no categories, one row per attempt that does not fault |
| CategoryModel.SeedingWithoutFaults | models/category.py:232-249 | with no fault, a new owner receives the nine pairs in their listed order, with consecutive ids from the counter |
| CategoryModel.SeededNameFree | models/category.py:244-247 | earlier seeded rows never take the name of a later pair, so each attempt succeeds or fails independently of the others |
| CategoryModel.CreateDefaultCategories | models/category.py:232-249 | the categories become the old ones followed by exactly the rows `SeededRows` gives (per pair in order, appended iff its INSERT does not fault and the owner did not already hold the name), the counter moves on by their number, and `count` is that number |
| CategoryModel.SeedAttempt | models/category.py:244-247 | one attempt: its pair's row is appended, with the next id, iff the attempt succeeds |
| UserModel.Create | models/user.py:36-47 | success iff there is no fault, the name fits and is not taken; exactly one row is appended, holding the hash, which checks against the password |
| UserModel.FindByUsername | models/user.py:61-77 | found iff there is no fault and a user has that name; the result has that name |
| UserModel.FindById | models/user.py:91-107 | found iff there is no fault and a user has that id; the result has that id |
| UserModel.CountNamed | models/user.py:133-134 | the count is positive iff the name is taken |
| UserModel.UsernameExists | models/user.py:133-143 | true iff there is no fault and the name is taken |
| UserModel.VerifyPassword | models/user.py:119 | true iff the stored hash is the one `generate_password_hash` makes from that password with the stored salt |
| UserModel.FindCreated | models/user.py:36-77 | after a create, the name finds the new row and the password verifies |
| UserModel.FoundIsUnique | models/user.py:61-74 | by the UNIQUE constraint, the user found is the one with that name |
| Passwords.CheckGenerated | models/user.py:119 | `check(generate(p), p)` holds |
| AuthService.RegisterRejection | services/auth_service.py:24-31 | it passes iff both fields are truthy, the username has ≥ 3 characters and the password ≥ 6; missing fields give the first message |
| AuthService.RegisterUser | services/auth_service.py:24-46 | rejected or taken: nothing changes, counters included; otherwise success iff the user INSERT succeeds, the user counter moving on by one, and then the categories gain exactly the seeded rows for the new id, whatever the seeding gives |
| AuthService.LoginUser | services/auth_service.py:56-67 | missing fields are refused; success iff the user found by name verifies the password, returning that user; an unknown name and a wrong password give the same answer |
| AuthService.LoginAfterRegister | services/auth_service.py:38-67 | whoever has just registered logs in with the same name and password |
| AuthService.RegisterTwice | services/auth_service.py:34-35 | a registered name is taken for the next registration |
| Decorators.LoginRequired | utils/decorators.py:9-12 | the handler runs iff `user_id` is truthy, and its result is returned unchanged; otherwise the redirect to `auth.login` with the flash message |
| Decorators.ApiLoginRequired | utils/decorators.py:20-22 | the handler runs iff `user_id` is truthy, and its result is returned unchanged; otherwise the 401 'Authentication required' |
| Decorators.RefusalIgnoresHandler | utils/decorators.py:9-21 | a refused request's answer does not depend on the handler |
| Decorators.FalsyIdsAreMissing | utils/decorators.py:9-20 | an example of the guards' contracts: a `user_id` of 0 or '' is treated exactly as a missing one |
| TransactionService.ParseKind | services/transaction_service.py:38 | accepts exactly 'income' and 'expense' |
| TransactionService.ParseDate | services/transaction_service.py:42-47 | a missing date means now; '' is passed on unparsed; any other text is accepted iff `strptime` reads it as a day, and then gives that day |
| TransactionService.CheckAdd | services/transaction_service.py:28-56 | it accepts iff the amount, type and category are truthy, the amount parses and is > 0, the type is valid, the date is valid and the category is an integer; accepted values are the parsed ones; a missing field gives the first message, and the amount errors come in order |
| TransactionService.CanonicalRequestAccepted | services/transaction_service.py:28-56 | a form filled with printed amount, type, id and date is accepted as exactly those values |
| TransactionService.AddTransaction | services/transaction_service.py:28-63 | a rejected request changes nothing and gives its message; otherwise success iff the INSERT goes through (no fault, a non-blank date, a row that fits), and then exactly that row is appended |
| TransactionService.ForeignCategoryAccepted | services/transaction_service.py:50-60 | as written, another user's category id is accepted, and the listing then shows that user's category name |
| TransactionService.AddTransactionOwnCategory | services/transaction_service.py:50-63 | corrected: a stored row always references one of the caller's own categories; a foreign category gives "Ungültige Kategorie" |
| TransactionService.CategoryText | services/transaction_service.py:125 | a category given as text is stored as the number it reads as |
| TransactionService.CheckUpdate | services/transaction_service.py:106-122 | it checks only the supplied amount, type and date, by the same rules; the patch carries exactly the supplied fields with their parsed values |
| TransactionService.NothingSuppliedIsEmpty | services/transaction_service.py:106-125 | an edit that supplies nothing passes the checks with an empty patch |
| TransactionService.ZeroTextIsNotClear | services/transaction_service.py:125 | the category text "0" is not the integer 0, so the foreign key refuses it rather than clearing the category |
| TransactionService.UpdateTransaction | services/transaction_service.py:106-128 | a rejected edit changes nothing; otherwise success iff `Transaction.update` returns True, with the patched table as the new state |
| TransactionService.ForeignCategoryOnUpdate | services/transaction_service.py:125 | as written, an edit may move a row into another user's category |
| TransactionService.UpdateTransactionOwnCategory | services/transaction_service.py:106-128 | corrected: a successful edit that sets a category sets one of the caller's own |
| TransactionService.DeleteTransaction | services/transaction_service.py:142-145 | success iff the owner-scoped delete removes the row; the message follows |
| TransactionService.Display | services/transaction_service.py:174-182 | id, amount and type are kept; a stored non-empty category name or colour is shown as stored, and a missing or empty one as "Ohne Kategorie" or '#999999', so neither is ever empty; a missing description shows as '' |
| TransactionService.DisplayedDateReadsBack | services/transaction_service.py:181 | the date shown parses back to the stored day |
| TransactionService.FormatRows | services/transaction_service.py:172-182 | one formatted entry per listed row, in the same order |
| TransactionService.ShownRowsAreOwned | services/transaction_service.py:158-182 | every row shown has the id of one of the owner's own transactions |
| TransactionService.GetDashboardData | services/transaction_service.py:158-189 | the formatted listing, the summary (zeros when its query raises), the chart exactly as `get_by_category` returns it (as-written colour rule; `{}` when its query raises) and the owner's categories in name order |
| CategoryService.AddRejection | services/category_service.py:11-22 | it passes iff the name is truthy, has 2 to 100 characters and is not already one of the caller's names |
| CategoryService.AddCategory | services/category_service.py:11-27 | a rejected name changes nothing; otherwise success iff the INSERT goes through, and then exactly the new category is appended |
| CategoryService.AddTwiceIsTaken | services/category_service.py:21-22 | a name just added is refused the second time |
| CategoryService.OtherOwnersNamesAreFree | services/category_service.py:21-22 | another owner's names never block a name: the check is per owner |
| CategoryService.UpdateRejection | services/category_service.py:49-65 | it passes iff the caller owns the category and a truthy new name has 2 to 100 characters and belongs to none of the caller's other categories; a falsy name is not checked |
| CategoryService.UpdateCategory | services/category_service.py:49-70 | a rejected request changes nothing; otherwise it is `Category.update` with its result and new state |
| CategoryService.OwnNamePassesChecks | services/category_service.py:59-65 | keeping the current name passes the checks |
| CategoryService.OwnNameAloneChangesNothing | services/category_service.py:67 | keeping the current name with no colour rewrites nothing |
| CategoryService.OtherOwnNameIsTaken | services/category_service.py:64-65 | renaming to another of the caller's names is refused |
| CategoryService.EmptyNameIsStored | services/category_service.py:59-67 | an empty name skips the checks and is stored as the empty name |
| CategoryService.DeleteCategory | services/category_service.py:74-86 | not the caller's category: "not found" and nothing changes; otherwise success iff there is no fault, with the category removed and its references cleared |
| CategoryService.CategoriesAsDict | services/category_service.py:34-45 | the caller's categories in name order, none standard and all editable |
| CategoryService.CategoryStatsOf | services/category_service.py:89-97 | `total` is the number of the caller's categories, `standard` is 0 and `custom == total` |
| CategoryService.StatsAfterAdd | services/category_service.py:89-97 | adding a category for the caller raises `total` by one; adding one for another owner leaves it |
| Text.ParseIntText | services/transaction_service.py:54 | `int(str(n)) == n` |
| Text.ParseAmountText | services/transaction_service.py:32 | every storable amount reads back from its two-decimal text |
| Dates.ParseFormat | services/transaction_service.py:181 | `strptime(strftime(d))` is the day at midnight |
| Dates.ParseYmd | services/transaction_service.py:45 | an accepted text has 8 to 10 characters and names a real calendar day at midnight |
| Dates.FormatParse | services/transaction_service.py:45 | an accepted date text is exactly what `strftime` prints for its day iff it has 10 characters and no space before the day |
| Dates.SingleDigitFieldsAccepted | services/transaction_service.py:45 | '2024-1-5' reads as 5 January 2024 |
| Dates.SpacePaddedDayAccepted | services/transaction_service.py:45 | '2024-01- 5' reads as the same day |
| Dates.ShortFieldsPrintPadded | services/transaction_service.py:181 | that day prints as '2024-01-05' |
| Dates.MonthThirteenRefused | services/transaction_service.py:45-47 | '2024-13-01' is refused |
| Dates.FebruaryThirtiethRefused | services/transaction_service.py:45-47 | '2024-02-30' is refused |
| Dates.TrailingDataRefused | services/transaction_service.py:45-47 | '2024-1-5x' is refused: data after the day |

## Left out

- MySQL connections, cursors, commits and `print` logging are left out. Each statement's exception becomes the `fault` parameter. Faults in lookups that precede a service's mutation (`username_exists`, `name_exists`, `get_by_id` in the services) are not modelled.
- The read faults of `Transaction.get_all_by_user`, `Category.get_all_by_user` and the `get_by_id` lookups are not modelled. On an error they return [] or None. The dashboard's summary and chart faults are modelled (`summaryFault`, `chartFault`).
- AUTO_INCREMENT gaps: InnoDB may use up a counter value on an INSERT that then fails. The model advances a counter only on a successful INSERT; ids stay distinct and positive either way.
- `werkzeug`'s `generate_password_hash` and `check_password_hash` are replaced by a salted digest, `Passwords.Generate`. The model claims only that the hash checks against its own password.
- `CategoryModel.AllByUser`: the collation is not modelled. Names are compared and sorted by character code, with no case-insensitive or accent-insensitive collation. The same goes for every member that compares names: the UNIQUE checks in `UserModel.Create` and `CategoryModel.Create` (under a case-insensitive collation "Alice" would block "alice"), `UserModel.CountNamed`, `UserModel.UsernameExists`, `UserModel.FindByUsername`, `CategoryModel.CountNamed`, `CategoryModel.NameExists`, `CategoryService.AddRejection` and `CategoryService.UpdateRejection`.
- `Text.ParseAmount` accepts a strict subset of what `float()` accepts: an optional sign, digits, and at most two decimals. There is no whitespace, no exponent, and no `inf`/`nan`. Floating point is not modelled; amounts are exact cents.
- `Dates.ParseYmd` reads ASCII digits only. The `\d` of `strptime`'s patterns also matches other Unicode decimal digits.
- `Text.ParseInt` accepts a strict subset of what `int()` accepts: no surrounding whitespace and no underscores.
- `TransactionService.CategoryText`: MySQL's own conversion of a non-numeric text to an INT column is modelled as an error, as in strict mode.
- `TransactionModel.ChartOf`: the output order of the GROUP BY is an assumption (first use of each key), because MySQL leaves it unspecified.
- The dead branch `category_id == ''` in `add_transaction` (line 50) is not modelled. The falsy check on line 28 already rejects ''.
- The unreachable `category.user_id is None` and `!= user_id` branches of `update_category` and `delete_category` are not modelled. An owner-scoped `get_by_id` never returns such a category, and every stored category has an owner, so there are no standard categories.
- `get_transactions_as_dict` is left out. It reads an attribute that `Transaction` does not have.
- The route layer is left out. This includes the API update, which passes a `category` key that `Transaction.update` does not accept. `main_routes.py` is cited only for how the edit form passes its fields as text.
- `Transaction.update` with non-text keyword values is left out. The service is modelled with the edit form's text arguments.
- `add_category`'s default `color='#999999'` for a call that omits the colour is not modelled separately. A caller passes `Some(DefaultColor)` for it; the route always passes the form value, which may be None.

## Findings

| source | as written | input that shows it | evidently intended | confidence | as-written member | corrected member |
|---|---|---|---|---|---|---|
| models/transaction.py:311 | `row.get('category_color', '#999999')` on a dict whose `category_color` key is always present | an uncategorized expense: the LEFT JOIN gives `category_color = NULL`, so the chart entry's colour is `None` | the '#999999' default for a missing colour, as the dashboard's `or '#999999'` applies it | medium, not executed | TransactionModel.UncategorizedColorAsWritten | TransactionModel.ChartColorsSet |
| services/transaction_service.py:50-60 | the category id is checked only for being an integer; the foreign key only requires that it exist | user 2 adds an expense with category id 1, which belongs to user 1; it is stored, and user 2's listing shows user 1's category name | a transaction's category belongs to the same owner | medium, not executed | TransactionService.ForeignCategoryAccepted | TransactionService.AddTransactionOwnCategory |
| services/transaction_service.py:106-125 | `update_transaction` also passes any existing category id through | user 2 edits a row to category "1", owned by user 1; the row fits the schema | as above | medium, not executed | TransactionService.ForeignCategoryOnUpdate | TransactionService.UpdateTransactionOwnCategory |

`ByCategory` takes the colour rule as a parameter: `AsWritten` is the code as written, and `Defaulted` is the
corrected rule the first finding proposes. `TransactionService.GetDashboardData` passes the chart on as
`get_by_category` returns it, so it uses `AsWritten`.
