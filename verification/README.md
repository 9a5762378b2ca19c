# ERP dashboard: ledger, entity routes and client pages in Dafny

This project models the core of a small ERP dashboard in Dafny and proves properties of that model. The dashboard is a Next.js application backed by a relational store. The model covers:

- **The money ledger** (`POST /api/transactions`). A credit or debit goes through an ordered validation chain. It is then recorded in one atomic step: the transaction is appended and the company's stored balance is overwritten with the new balance.
  - The central invariant is `Store.Ledger`: every company's balance equals its opening balance plus the signed sum of its transactions.
  - Every route that writes the ledger tables keeps `Database.LedgerValid()`. These are the transaction POST and the company POST.
- **The entity-creation routes** for todos, orders, links, notes, employees, companies and calendar events. Each runs an ordered chain: required fields, then enumerations, then existence lookups, each with a fixed HTTP status. Each then fills in defaults and appends exactly one row. Each GET filter is modelled as a selection sorted by creation time (or by date for events).
- **Error mapping and sessions** (`src/lib/api-error.js`, `src/lib/auth.js`):
  - `handleApiError`;
  - the session cookie `userId:token` and reading it back;
  - `requireAuth`.
- **The client pages**: orders, todos, notes, calendar, links, money and the overview dashboard. Their list derivations are modelled: filters, counts, sorts, local list updates after a save or delete, the calendar grid, the money page's local balance update, and the completion percentage.
- **The StatusBadge component**: table selection by type, and lookup with a fallback.

Conventions of the model:

- Money is in integer minor units.
- A JSON body property is a `Common.Field`: absent, `null`, or a string. This is what JavaScript truthiness and destructuring defaults need.
- `parseFloat` is abstracted as a parsed value or "not a number" (`Common.Amount`).
- Dates are civil date-time tuples. `Dates.MakeDate` models the JavaScript `Date` constructor: it normalises the month and day, and reads years 0..99 as 19YY.
- The store is a class `Store.Database` with one sequence per table. Ids, timestamps and the session are inputs to the route methods.

Four behaviours of the code that a reader might not expect:

- **Unauthenticated calls get 500, not 401.** `requireAuth` throws a plain `Error('Unauthorized')`. It has no status and no store code, so `handleApiError` answers 500 "Internal server error" (`Auth.UnauthorizedIsInternalError`).
- **The ledger invariant includes an opening balance.** A company is created with any balance it is given (`CompaniesApi.Post`), so "balance = signed sum of the company's transactions" does not hold. What holds, and is proved, is "balance = opening balance + signed sum".
- **A zero amount is "required", not "not positive".** An amount of 0, or one the form cannot parse, is answered "Amount, type and company are required". The form's `NaN` travels as `null`.
- **The order number is never stored.** The money form sends `orderNumber`, but POST does not read it.

## Model

| member | source | states |
|---|---|---|
| ApiErrors.NewApiError | src/lib/api-error.js:1-7 | an ApiError carries its message and the given status (500 when none is given, see ApiErrors.Defaults) |
| ApiErrors.Reject | src/lib/api-error.js:43-45 | an early error return answers with the given status and the body `{ error: message }` |
| ApiErrors.HandleApiError | src/lib/api-error.js:9-37 | the body is always an error body; an ApiError answers its own status and message; any other error answers 409 "A record with this value already exists" exactly when its code is P2002, 404 "Record not found" exactly when it is P2025, and 500 "Internal server error" otherwise |
| ApiErrors.Defaults | src/lib/api-error.js:39-45 | an ApiError without a status becomes a 500 with its message; a success defaults to 200; an error response defaults to 400 |
| Auth.CreateSession | src/lib/auth.js:15-28 | the cookie is `erp_session` = `userId:token`; it is httpOnly, secure exactly in production, sameSite lax, 604800 seconds, path `/` |
| Auth.CookieRoundTrip | src/lib/auth.js:19-38 | reading the cookie value back gives the user id exactly when the id contains no colon |
| Auth.TokenIgnored | src/lib/auth.js:38 | the token part never affects which user a cookie names |
| Auth.GetSession | src/lib/auth.js:30-50 | there is a session exactly when the cookie is non-empty, the lookup does not fail and the first field names a user; the session is that user |
| Auth.SessionRoundTrip | src/lib/auth.js:15-50 | a cookie set by createSession for a colon-free user id reads back as that user, whatever the token |
| Auth.RequireAuth | src/lib/auth.js:57-65 | succeeds exactly with a session and returns it; otherwise throws the plain error "Unauthorized" |
| Auth.UnauthorizedIsInternalError | src/lib/auth.js:60-62 | a missing session is answered 500 "Internal server error", not 401 |
| Store.FindCompany | src/app/api/transactions/route.js:59-61 | the lookup finds nothing exactly when no company has the id; otherwise it finds a company with that id |
| Store.FindCompanyUnique | src/app/api/transactions/route.js:59-61 | with unique ids, the lookup by a company's id returns that company |
| Store.Ledger | src/app/api/transactions/route.js:77-99 | the ledger invariant "balance = opening balance + signed sum of the company's transactions"; with an empty log every balance is its opening balance, and every logged transaction names a stored company |
| Store.LedgerUntouched | src/app/api/companies/route.js:36-41 | under the ledger invariant a company no transaction names still has its opening balance |
| Store.NetForAppend | src/app/api/transactions/route.js:77-99 | appending a transaction changes only its own company's net amount, by the signed amount |
| Store.NetForAbsent | src/app/api/companies/route.js:36-41 | a company that no transaction refers to has a net amount of zero |
| TransactionsApi.CheckTransaction | src/app/api/transactions/route.js:42-74 | the checks, in source order: missing fields, bad type, non-positive amount, unknown company, insufficient balance; a request that passes the first four and would leave the balance negative is refused as insufficient; acceptance exactly when all pass; the new balance is the old balance ± the amount, and is non-negative |
| TransactionsApi.Post | src/app/api/transactions/route.js:38-109 | keeps the ledger invariant; a non-201 answer writes nothing; 201 exactly when authenticated and every check passes; on 201 it appends one row with the caller as creator, sets only the target company's balance, and reports the stored new balance |
| TransactionsApi.Record | src/app/api/transactions/route.js:76-100 | the atomic batch appends exactly the new transaction and overwrites only its company's balance with balance ± amount, keeping the ledger invariant |
| TransactionsApi.PostingKeepsLedger | src/app/api/transactions/route.js:68-99 | appending a positive credit or debit and moving its company's balance by the signed amount preserves "balance = opening + net" for every company |
| TransactionsApi.BalancesAfterPosting | src/app/api/transactions/route.js:95-98 | after the update, every company's balance is its opening balance plus its net amount over the extended log |
| TransactionsApi.Get | src/app/api/transactions/route.js:6-35 | authenticated: exactly the transactions matching the truthy query parameters, as often as stored, newest first; unauthenticated: the 500 answer |
| TransactionsApi.OrderNumberIgnored | src/app/api/transactions/route.js:79-85 | the body's orderNumber changes neither the check nor the stored row, which never has an order number |
| TransactionsApi.ZeroAmountIsMissing | src/app/api/transactions/route.js:44-46 | an amount of 0 is refused as a missing field |
| TransactionsApi.CreditLeavingNegativeIsRefused | src/app/api/transactions/route.js:67-74 | a credit that leaves the balance negative is refused as insufficient |
| TransactionsApi.DebitToZeroIsAccepted | src/app/api/transactions/route.js:67-74 | a debit of exactly the balance is accepted and leaves 0 |
| TodosApi.CheckTodo | src/app/api/todos/route.js:42-62 | title, then status (default "pending"), then the assignee (only when one is given), each with its status code; acceptance exactly when all pass |
| TodosApi.FindEmployee | src/app/api/todos/route.js:54-57 | the lookup fails exactly when no employee has the id |
| TodosApi.Post | src/app/api/todos/route.js:38-86 | a rejected request writes nothing; an accepted one appends exactly one todo created by the caller, answers 201 and keeps ids unique |
| TodosApi.Get | src/app/api/todos/route.js:6-35 | exactly the todos matching the truthy assignee and status parameters, newest first |
| TodosApi.StatusDefaultsToPending | src/app/api/todos/route.js:42-51 | a todo without a status is stored as "pending" |
| TodosApi.AbsentAssigneeSkipsLookup | src/app/api/todos/route.js:53-62 | without an assignee the employee table does not affect the outcome |
| OrdersApi.CheckOrder | src/app/api/orders/route.js:42-60 | title and company, then status (default "active"), then the company lookup; acceptance exactly when all pass |
| OrdersApi.Post | src/app/api/orders/route.js:38-84 | a rejected request writes nothing; an accepted one appends one order created by the caller, with no amount and no order number |
| OrdersApi.Get | src/app/api/orders/route.js:6-35 | exactly the orders matching the truthy company and status parameters, newest first |
| OrdersApi.AmountAndOrderNumberIgnored | src/app/api/orders/route.js:42 | the amount and order number the page sends do not affect the check |
| OrdersApi.StatusDefaultsToActive | src/app/api/orders/route.js:42-51 | an order without a status is stored as "active" |
| LinksApi.CheckLink | src/app/api/links/route.js:42-60 | company, title and URL, then category (default "other"), then the company lookup; acceptance exactly when all pass |
| LinksApi.Post | src/app/api/links/route.js:38-85 | a rejected request writes nothing; an accepted one appends exactly one link created by the caller |
| LinksApi.Get | src/app/api/links/route.js:6-35 | exactly the links matching the truthy company and category parameters, newest first |
| LinksApi.CategoryDefaultsToOther | src/app/api/links/route.js:42-51 | a link without a category is stored as "other" |
| NotesApi.CheckNote | src/app/api/notes/route.js:30-38 | title, then content; the colour defaults to "indigo" and the pin to false |
| NotesApi.Post | src/app/api/notes/route.js:26-59 | a rejected request writes nothing; an accepted one appends exactly one note created by the caller |
| NotesApi.Get | src/app/api/notes/route.js:6-23 | every note, newest first |
| NotesApi.Defaults | src/app/api/notes/route.js:30 | a note given only a title and content is indigo and unpinned |
| EmployeesApi.CheckEmployee | src/app/api/employees/route.js:39-52 | name, email and company are required, then the company must exist |
| EmployeesApi.Post | src/app/api/employees/route.js:35-73 | a rejected request writes nothing; an accepted one appends exactly one employee, with no creator |
| EmployeesApi.Get | src/app/api/employees/route.js:6-32 | exactly the employees of the company parameter when it is truthy, all otherwise, newest first |
| EmployeesApi.EmptyFilterListsAll | src/app/api/employees/route.js:13 | an empty company parameter lists every employee |
| CompaniesApi.OpeningBalance | src/app/api/companies/route.js:30-39 | an absent balance is 0; otherwise it is what parseFloat makes of the value |
| CompaniesApi.OpeningKeepsLedger | src/app/api/companies/route.js:36-41 | adding a fresh company with its opening balance recorded keeps the ledger invariant |
| CompaniesApi.Post | src/app/api/companies/route.js:26-47 | keeps the ledger invariant; a missing name is a 400; a balance that is not a number makes the store throw, which is a 500; otherwise exactly one company is appended |
| CompaniesApi.Get | src/app/api/companies/route.js:6-23 | every company, newest first |
| CompaniesApi.BalanceDefaults | src/app/api/companies/route.js:30-39 | an absent balance opens at 0, while `null` is not a number and ends in a 500 |
| CalendarApi.CheckEvent | src/app/api/calendar/route.js:60-72 | title and date are required; an unreadable date reaches the store and throws; the colour defaults to "#3b82f6" |
| CalendarApi.Post | src/app/api/calendar/route.js:56-85 | a rejected request writes nothing; an invalid date is a 500; an accepted event is appended with the caller as creator |
| CalendarApi.Where | src/app/api/calendar/route.js:14-37 | `month` wins over `year`; a month query succeeds exactly when both parts parse and then selects its month range; a year query succeeds exactly when the year parses and then selects its year range; neither selects everything |
| CalendarApi.MonthRange | src/app/api/calendar/route.js:17-19 | from midnight on the first to 23:59:59 on the last day of the month `new Date(Y, M - 1, 1)` falls in (day 0 of the next month is that last day) |
| CalendarApi.YearRange | src/app/api/calendar/route.js:27-29 | from midnight on 1 January to 23:59:59 on 31 December of year Y, read as 19YY below 100 |
| CalendarApi.Get | src/app/api/calendar/route.js:6-53 | exactly the events within the range, earliest date first; an invalid range is a 500 |
| CalendarApi.MonthRangeSelectsMonth | src/app/api/calendar/route.js:16-26 | an event is in the month range exactly when its date lies in the month `new Date(y, m - 1)` denotes |
| CalendarApi.YearRangeSelectsYear | src/app/api/calendar/route.js:27-36 | an event is in the year range exactly when its year is the constructor's reading of the year |
| CalendarApi.MonthWins | src/app/api/calendar/route.js:16-27 | with a truthy month, the year parameter has no effect |
| CalendarApi.EmptyMonthFieldFails | src/app/api/calendar/route.js:17-19 | a month query with an empty month part (`2024--…`) is an invalid date |
| Dates.DaysInMonth | src/app/dashboard/calendar/page.js:44-45 | 28..31 days; 31 for the long months; February has 29 exactly in leap years |
| Dates.MonthOf | src/app/api/calendar/route.js:18-19 | a month overflowing or underflowing the year moves into the neighbouring years |
| Dates.PrevMonth | src/app/dashboard/calendar/page.js:77-79 | the month before, one step down in month order |
| Dates.NextMonth | src/app/dashboard/calendar/page.js:81-83 | the month after, one step up in month order |
| Dates.NormalizeDay | src/app/api/calendar/route.js:18-19 | always a valid date at midnight; an in-range day is kept as given |
| Dates.NormalizeDayCounts | src/app/api/calendar/route.js:18-19 | an out-of-range day rolls over by exactly the overflow: the normalised date has the same day number as the raw (year, month, day) |
| Dates.MakeDate | src/app/api/calendar/route.js:18-19 | the `Date` constructor always yields a valid date at midnight |
| Dates.MakeDateCounts | src/app/api/calendar/route.js:18-19 | `new Date(y, m0, d)` is the day d - 1 days after the first of the month `new Date(y, m0, 1)` falls in |
| Dates.DayZeroIsLastDayOfPreviousMonth | src/app/api/calendar/route.js:19 | day 0 is the last day of the month before |
| Dates.Weekday | src/app/dashboard/calendar/page.js:46 | `getDay()` is (day number since 1 January 1970 + 4) mod 7, so it lies in 0..6 with 1 January 1970 a Thursday (values fixed by Dates.WeekdayAnchors and Dates.WeekdayNextMonth) |
| Dates.WeekdayAnchors | src/app/dashboard/calendar/page.js:46 | 1 January 1970 is a Thursday, 1 January 2000 a Saturday, 1 February 2024 a Thursday and 1 March 2024 a Friday |
| Dates.WeekdayNextMonth | src/app/dashboard/calendar/page.js:43-46 | the first of the next month falls the month's length later in the week |
| Dates.WeekdayOfNormalized | src/app/dashboard/calendar/page.js:43-46 | the weekday of `new Date(y, m, d)` is d - 1 days after the weekday of the first |
| Dates.YearStartStep | src/app/dashboard/calendar/page.js:43-46 | each year starts its own length after the year before |
| Dates.NextMonthStart | src/app/dashboard/calendar/page.js:43-46 | the first of the next month is the month's length in days after the first of this month |
| Dates.DayNumberInjective | src/app/dashboard/calendar/page.js:43-46 | two valid dates with the same day number are the same calendar day |
| Dates.OrdinalDayRange | src/app/api/calendar/route.js:21-26 | comparing against a midnight start and a 23:59:59 end is comparing calendar days |
| Dates.MonthRangeIsMonth | src/app/api/calendar/route.js:18-19 | a date lies between the start and end of a month exactly when it is in that month |
| Dates.YearRangeIsYear | src/app/api/calendar/route.js:28-29 | a date lies between 1 January and 31 December 23:59:59 exactly when it is in that year |
| Text.Lower | src/app/dashboard/notes/page.js:133-136 | `toLowerCase` keeps the length and maps each character: A–Z and the Latin-1 capitals À–Þ other than × to their small letters, every other character to itself |
| Text.ContainsOccurs | src/app/dashboard/notes/page.js:133-136 | `includes` holds exactly when the needle occurs at some position |
| Text.FirstField | src/lib/auth.js:38 | the first field of a split has no separator, is a prefix, and is followed by the separator when shorter |
| Text.AfterFirst | src/app/api/calendar/route.js:17 | the text after the first separator, absent exactly when there is none; the two halves rebuild the string |
| Text.FirstFieldOfJoin | src/lib/auth.js:19-38 | splitting `a:t` gives back `a` exactly when `a` has no colon |
| Text.TrimStart | src/app/api/calendar/route.js:18 | parseInt's leading trim drops a prefix and leaves a text that is empty or starts with a non-space |
| Text.TrimStartSkipsSpace | src/app/api/calendar/route.js:18 | every character the trim drops is JavaScript white space |
| Text.ParseInt | src/app/api/calendar/route.js:18-19 | a number is read only when the trimmed text starts with a digit, or with a sign and a digit; a negative result needs a minus sign |
| Text.ParseIntOfHex | src/app/api/calendar/route.js:18-19 | `0x`/`0X` followed by hex digits parses as a hexadecimal number |
| Text.ParseIntOfNegativeHex | src/app/api/calendar/route.js:18-19 | a minus sign before `0x` digits negates the hexadecimal value |
| Text.HexYear | src/app/api/calendar/route.js:18 | `parseInt("0x7E8")` is 2024, so a hexadecimal year part is accepted |
| Text.ParseIntEmpty | src/app/api/calendar/route.js:18-19 | the empty text is not a number |
| Text.ParseIntOfNat | src/app/api/calendar/route.js:18 | parseInt reads back any printed natural number |
| Text.PadStart | src/app/dashboard/calendar/page.js:27 | padStart fills on the left up to the width and keeps the text at the end |
| Text.ParseIntOfPadded | src/app/dashboard/calendar/page.js:27 | a zero-padded month number parses back to itself |
| Sorting.SortBySorted | src/app/dashboard/notes/page.js:139-143 | sorting by a total preorder yields a sorted permutation |
| Sorting.SelectDesc | src/app/api/transactions/route.js:14-28 | the selected rows, each as often as stored, in non-increasing key order |
| Sorting.SelectAsc | src/app/api/calendar/route.js:39-46 | the selected rows, each as often as stored, in non-decreasing key order |
| Sorting.OrderByDesc | src/app/api/notes/route.js:10-17 | all rows, as a permutation, in non-increasing key order |
| Lists.WhereEq | src/app/dashboard/money/page.js:117-119 | an empty filter keeps everything; otherwise the order-preserving filter by "field equals the filter", with every element as often as before exactly when it passes |
| Lists.Kept | src/app/dashboard/money/page.js:117-119 | the filtered list is the input at a strictly increasing run of indices that holds every passing index, so `filter` keeps the relative order |
| Lists.ReplaceById | src/app/dashboard/links/page.js:81 | the row carrying the id is swapped and all others are kept, position by position |
| Lists.RemoveById | src/app/dashboard/notes/page.js:81 | the order-preserving filter "id differs": exactly the rows carrying the id disappear, every other row stays as often as before, and their count accounts for the length |
| Lists.SaveLocal | src/app/dashboard/notes/page.js:64-68 | after a create the saved row is prepended; after an edit it replaces the row with the edited id |
| Lists.PrependThenRemove | src/app/dashboard/links/page.js:90-104 | deleting a freshly created row gives the list back |
| Lists.ReplaceThenRemove | src/app/dashboard/links/page.js:81-104 | deleting an edited row is the same as deleting the original |
| Lists.Find | src/app/dashboard/links/page.js:138-140 | `find` returns a matching element, and nothing exactly when none matches |
| Lists.FindIsFirst | src/app/dashboard/links/page.js:138-140 | what `find` returns is the earliest match |
| Lists.SumReplace | src/app/dashboard/orders/page.js:154 | with unique ids, swapping one row moves a sum by the difference of the two rows |
| Lists.SumSkipsZeros | src/app/dashboard/orders/page.js:154 | rows contributing 0 can be filtered out without changing a sum |
| Lists.Take | src/app/dashboard/page.js:91 | `slice(0, n)` is a prefix of length min(n, length) |
| OrdersPage.Transitions | src/app/dashboard/orders/page.js:19-24 | only the four statuses have transitions; none to itself; all targets are statuses; completed only reopens to active; the others reach every other status |
| OrdersPage.WorkflowConnected | src/app/dashboard/orders/page.js:19-24 | every status reaches every other in at most two drop-down steps |
| OrdersPage.FilteredOrders | src/app/dashboard/orders/page.js:142-144 | no filter shows all orders; otherwise the order-preserving filter by that status, each order as often as before |
| OrdersPage.Counts | src/app/dashboard/orders/page.js:146-151 | each status card counts exactly what filtering by that status shows, and the four counts add up to the orders whose status is one of the four |
| OrdersPage.StatusPartition | src/app/dashboard/orders/page.js:146-151 | the four status filters split the listed orders between them |
| OrdersPage.CountsCoverAll | src/app/dashboard/orders/page.js:146-151 | when every order has a listed status, the counts add up to all orders |
| OrdersPage.TotalAmount | src/app/dashboard/orders/page.js:154 | the sum of the amounts, a missing amount counting 0, equals the sum over just the orders that have one; never negative when no amount is |
| OrdersPage.TotalAmountAfterSave | src/app/dashboard/orders/page.js:154 | the total amount grows by a created order's amount and moves by the difference after an edit |
| OrdersPage.AfterStatusUpdate | src/app/dashboard/orders/page.js:105 | only the row with the updated id changes |
| OrdersPage.AfterDelete | src/app/dashboard/orders/page.js:136 | the order-preserving filter "id differs": exactly the rows with the deleted id disappear |
| OrdersPage.CreateThenDelete | src/app/dashboard/orders/page.js:79-83 | deleting a freshly created order restores the list |
| TodosPage.Toggle | src/app/dashboard/todos/page.js:209 | the checkbox sends "pending" exactly for a completed todo and "completed" otherwise |
| TodosPage.ToggleTwice | src/app/dashboard/todos/page.js:209 | two clicks restore a pending or completed todo, but an in-progress todo comes back pending |
| TodosPage.EnabledButtons | src/app/dashboard/todos/page.js:252-263 | exactly the buttons for the other statuses can be clicked: two for a known status, all three for an unknown one |
| TodosPage.FilteredTodos | src/app/dashboard/todos/page.js:105-107 | no filter shows all todos; otherwise the order-preserving filter by that status, each todo as often as before |
| TodosPage.Counts | src/app/dashboard/todos/page.js:109-113 | each count is exactly what filtering by that status shows, and the three add up to the todos in a listed status |
| TodosPage.StatusPartition | src/app/dashboard/todos/page.js:109-113 | the three status filters split the listed todos between them |
| TodosPage.ToggleMovesOneTodo | src/app/dashboard/todos/page.js:88 | a checkbox click moves exactly one todo into or out of the completed count |
| NotesPage.ColorClasses | src/app/dashboard/notes/page.js:129-131 | the scheme of that name, or indigo when none has it |
| NotesPage.Matches | src/app/dashboard/notes/page.js:133-136 | a note matches exactly when the lower-cased term occurs at some position of the lower-cased title or content; every note matches the empty term |
| NotesPage.FilteredNotes | src/app/dashboard/notes/page.js:133-136 | the order-preserving filter by the search, each matching note as often as before |
| NotesPage.EmptySearchKeepsAll | src/app/dashboard/notes/page.js:133-136 | an empty search keeps every note in order |
| NotesPage.BeforeIsPreorder | src/app/dashboard/notes/page.js:139-143 | the comparator is a total preorder |
| NotesPage.SortedNotes | src/app/dashboard/notes/page.js:139-143 | a permutation of the filtered notes with pinned notes first and newer first within the same pin state |
| NotesPage.TogglePin | src/app/dashboard/notes/page.js:93 | only the pin flag flips |
| NotesPage.TogglePinTwice | src/app/dashboard/notes/page.js:93 | toggling twice gives the note back |
| NotesPage.PinnedCount | src/app/dashboard/notes/page.js:145 | at most the number of notes, and equal to it exactly when every note is pinned |
| NotesPage.TogglePinMovesCount | src/app/dashboard/notes/page.js:98 | a pin toggle moves the pinned count by exactly one |
| CalendarPage.DaysGrid | src/app/dashboard/calendar/page.js:40-68 | 42 cells: the previous month's tail from the weekday of the 1st, the month's days, then at least five days of the next month; only the middle block is the current month |
| CalendarPage.GridShape | src/app/dashboard/calendar/page.js:40-68 | the reference grid, built cell by cell, has the same three blocks: at most six leading cells and at least five trailing ones, and only the middle block is current |
| CalendarPage.PrevMonthStart | src/app/dashboard/calendar/page.js:77-79 | the first of the month before, at midnight |
| CalendarPage.NextMonthStart | src/app/dashboard/calendar/page.js:81-83 | the first of the month after, at midnight |
| CalendarPage.Navigation | src/app/dashboard/calendar/page.js:77-83 | from year 101 on, the buttons step exactly one month, and back then forward returns to the shown month |
| CalendarPage.NavigationBelowYear100 | src/app/dashboard/calendar/page.js:77-79 | below year 100 the constructor's 19YY reading makes "previous" jump from December 99 to November 1999 |
| CalendarPage.MonthQuery | src/app/dashboard/calendar/page.js:27 | from year 0 on, the month query splits back into the year digits and the two-digit month |
| CalendarPage.MonthQuerySelectsShownMonth | src/app/dashboard/calendar/page.js:27-28 | from year 100 on, the fetched query selects exactly the events of the shown month |
| CalendarPage.QueryParses | src/app/dashboard/calendar/page.js:27-28 | from year 0 on, the route reads the query as the month range of the shown year and month |
| CalendarPage.ShownMonthRange | src/app/api/calendar/route.js:17-19 | from year 100 on, the month range of (y, m) holds exactly the events of that month |
| CalendarPage.EventsForDate | src/app/dashboard/calendar/page.js:70-75 | the order-preserving filter "same calendar day", each event as often as before |
| CalendarPage.Overflow | src/app/dashboard/calendar/page.js:251-269 | a cell shows at most the first two events, and "+n more" accounts for the rest |
| LinksPage.FilteredLinks | src/app/dashboard/links/page.js:57-61 | the order-preserving filter by both filters, each passing link as often as before |
| LinksPage.Passes | src/app/dashboard/links/page.js:57-61 | empty filters pass everything, and a link passes exactly when the GET route would select it for the same two values |
| LinksPage.NoFilterShowsAll | src/app/dashboard/links/page.js:57-61 | with both filters empty every link is shown |
| LinksPage.GroupLinks | src/app/dashboard/links/page.js:63-66 | one group per category, each holding exactly the filtered links of that category in order |
| LinksPage.UnknownCategoryInNoGroup | src/app/dashboard/links/page.js:63-66 | a link with an unknown category appears in no group |
| LinksPage.CategoryInfoOf | src/app/dashboard/links/page.js:138-140 | the entry for the category, or "other" when none matches |
| LinksPage.StripScheme | src/app/dashboard/links/page.js:251 | one leading `https://` or `http://` is removed, nothing else |
| LinksPage.StripOnce | src/app/dashboard/links/page.js:251 | only one scheme is removed |
| LinksPage.OpenNew | src/app/dashboard/links/page.js:130-136 | an empty form with category "other", preset to the first company when there is one |
| MoneyPage.EmptyForm | src/app/dashboard/money/page.js:113 | the reset form is an unparsable amount, a credit, and empty fields |
| MoneyPage.EditForm | src/app/dashboard/money/page.js:98-108 | the form is filled from the transaction, with a missing description or order number as "" |
| MoneyPage.CreateRequest | src/app/dashboard/money/page.js:68-75 | the create body carries every form field, with the amount parsed |
| MoneyPage.EditRequest | src/app/dashboard/money/page.js:50-57 | the edit body carries the description and the order number |
| MoneyPage.EditIgnoresLedgerFields | src/app/dashboard/money/page.js:50-57 | the amount, type and company never reach an edit |
| MoneyPage.CreateAccepted | src/app/dashboard/money/page.js:68-75 | a create from the form is accepted exactly when the amount is positive, the type valid, a company is chosen and exists, and the balance stays non-negative |
| MoneyPage.UnusableAmountIsMissing | src/app/dashboard/money/page.js:73 | an unparsable or zero amount is answered "Amount, type and company are required" |
| MoneyPage.EmptyFormRefused | src/app/dashboard/money/page.js:113 | submitting the reset form is refused as incomplete |
| MoneyPage.AfterCreate | src/app/dashboard/money/page.js:83 | the created transaction is prepended to the unchanged list |
| MoneyPage.AfterEdit | src/app/dashboard/money/page.js:65 | only the edited id's row is replaced; the ids stay the same and unique |
| MoneyPage.WithBalance | src/app/dashboard/money/page.js:85-89 | only companies with the form's id take the new balance; all others are unchanged |
| MoneyPage.WithBalanceChangesOnlyTarget | src/app/dashboard/money/page.js:85-89 | ids and names never change, and a balance changes only for the target company |
| MoneyPage.LocalBalanceMatchesStore | src/app/dashboard/money/page.js:85-89 | after an accepted create, the page's companies are exactly the store's companies after the POST |
| MoneyPage.ToggleFilter | src/app/dashboard/money/page.js:152 | clicking the selected card clears the filter; any other card selects that card |
| MoneyPage.ToggleTwice | src/app/dashboard/money/page.js:152 | two clicks on a card from no filter, or from its own filter, return to the start |
| MoneyPage.FilteredTransactions | src/app/dashboard/money/page.js:117-119 | no filter shows all; otherwise the order-preserving filter by the filtered company, each transaction as often as before |
| MoneyPage.CreatedShownUnderFilter | src/app/dashboard/money/page.js:83 | a new transaction shows at the top exactly when there is no filter or it belongs to the filtered company |
| MoneyPage.SelectedCompany | src/app/dashboard/money/page.js:121 | the company the filter names, and none exactly when no company has that id |
| MoneyPage.ToggleSelectsCard | src/app/dashboard/money/page.js:121-152 | clicking an unselected card selects that company; clicking it again selects none |
| DashboardPage.TotalBalance | src/app/dashboard/page.js:49 | the sum of the fetched balances, 0 when there are no companies |
| DashboardPage.TotalBalanceIsLedgerTotal | src/app/dashboard/page.js:49 | under the ledger invariant, the total is the sum of the opening balances plus the signed sum of all transactions |
| DashboardPage.FilteredOrders | src/app/dashboard/page.js:63-65 | no selection shows all orders; otherwise the order-preserving filter by the selected company, each order as often as before |
| DashboardPage.FilteredBalance | src/app/dashboard/page.js:71-73 | the total without a selection, the selected company's balance, or 0 for an unknown id |
| DashboardPage.FilteredBalanceIsLedger | src/app/dashboard/page.js:71-73 | under the ledger invariant, a selected company shows its opening balance plus its net amount |
| DashboardPage.Recent | src/app/dashboard/page.js:91 | the first min(5, n) filtered transactions |
| DashboardPage.CompletionPercent | src/app/dashboard/page.js:243-245 | 0 without todos; otherwise the nearest integer to 100·completed/total, a half rounding up; within 0..100 |
| DashboardPage.Render | src/app/dashboard/page.js:63-91 | the order counts are over the filtered orders, the todo counts over all todos; the balance shown is the filtered balance; the completion is the rounded share of completed todos and lies in 0..100 |
| DashboardPage.TodosIgnoreSelection | src/app/dashboard/page.js:84-88 | the company selection never moves the todo counts or the completion |
| DashboardPage.SelectionNarrows | src/app/dashboard/page.js:63-81 | under a selection, every counted order and every recent transaction belongs to the selected company; the counts add up to its listed orders |
| DashboardPage.CompletionExtremes | src/app/dashboard/page.js:243-245 | no completed todo shows 0%, all completed shows 100% |
| StatusBadge.BadgeType | src/components/ui/StatusBadge.jsx:1 | an absent type is "order" |
| StatusBadge.TableFor | src/components/ui/StatusBadge.jsx:20 | "order" picks the order table, "todo" the todo table, anything else the credit/debit table |
| StatusBadge.Config | src/components/ui/StatusBadge.jsx:21 | a status in the table gets its entry; any other gets the slate fallback |
| StatusBadge.AcceptedValuesHaveStyles | src/components/ui/StatusBadge.jsx:2-18 | every status the routes accept, and both transaction types, has its own entry with a caption different from the raw value |
| StatusBadge.TablesMatchStatuses | src/components/ui/StatusBadge.jsx:2-18 | the table keys are exactly the order statuses, the todo statuses, and credit/debit |
| StatusBadge.DefaultIsOrder | src/components/ui/StatusBadge.jsx:1 | a badge without a type is an order badge |
| StatusBadge.CompletedDiffersByType | src/components/ui/StatusBadge.jsx:6-12 | "completed" is slate for an order and green for a todo, under the same caption |
| StatusBadge.UnknownFallsBack | src/components/ui/StatusBadge.jsx:20-21 | an unknown status shows raw in slate; an order status on a badge that is neither order nor todo falls back |

## Left out

- I/O: `fetch`, the JSON response envelopes (`{ transactions }`, `{ todo }`, …), React state and rendering, CSS, modals and confirmations.
- The store's relation includes (`company`, `createdBy`, `assignee`) and `_count` fields are not modelled. Neither are foreign-key constraints other than the lookups the routes make themselves.
- Concurrency is not modelled. The company read in the transaction POST happens outside the atomic batch, so concurrent debits could race; requests are modelled one at a time.
- Floating point is not modelled. Amounts and balances are exact integers in minor units. `parseFloat` is an abstract parse that may fail. The completion percentage is computed exactly, not in binary floating point.
- The human-readable `message` of the transaction POST's 201 body is not modelled, because it only formats the amount.
- JSON properties that are not strings (numbers or objects where a string is expected), and `isPinned` values that are not booleans, are not modelled.
- Lookups of object-prototype keys (`statuses["constructor"]`) are not modelled.
- The `[id]` routes are not part of this model. This includes the transaction PUT, which lets the type change without touching the balance. The page side of those calls is modelled: the PUT body and the local replace and remove.
- `destroySession`, bcrypt password hashing, `crypto.randomUUID` and the cookie store are not modelled. The token is an input, the user table a map, and a failing user lookup a flag.
- Time zones, locale formatting and the `Date` range limits are not modelled. Dates are civil tuples; a date given as a number is not modelled.
- Text.Lower: only A–Z and the Latin-1 capitals are mapped; the rest of the Unicode case mapping of `toLowerCase` (Greek, Cyrillic, special casings) is not modelled.
- NotesPage.SortedNotes: does not state that the browser's stable sort keeps notes with equal pin state and creation time in their search order; only the pinned-first and newest-first order and the permutation are stated.
- CalendarPage.Navigation: stated from year 101 on; below that the `Date` constructor's reading of years 0..99 as 1900..1999 breaks the one-month step, shown by CalendarPage.NavigationBelowYear100.
- CalendarPage.MonthQuerySelectsShownMonth: stated from year 100 on, for the same reason.
