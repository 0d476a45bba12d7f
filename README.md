# Personal finance tracker — verified model of its store and dashboard

The tracker is a single-page web app. Users sign up and log in. They record
income (date, source, amount) and expenses (date, category, amount). A dashboard
shows totals, a search filter, a category breakdown, a monthly trend, saving
advice and the latest entries. This Dafny project models the two parts of the
app that hold logic:

- **The persistence layer** (`store.dfy`, `ledger.dfy`). The SQLite file becomes
  a `Database` object holding the `users` table as a map, plus two `Table`
  objects for `income` and `expenses`. Each `Table` holds a sequence of rows and
  `lastId`, SQLite's AUTOINCREMENT counter. `add_user`, `load_data`,
  `save_income`, `save_expense`, `delete_income_entry` and
  `delete_expense_entry` are methods. Each one states the whole new state.
  `check_user` changes nothing, so it is a function that reads the store. The
  SQL statements are the functions `Select` and `DeleteId`. Lemmas about those
  functions prove the row-level properties.
- **The dashboard computations** (`dashboard.dfy`, `grouping.dfy`, `text.dfy`,
  `dates.dfy`, `seqs.dfy`). These are pure functions over the loaded entries:
  - totals and net savings;
  - the `strip().lower()` search and the case-insensitive label filter;
  - `groupby(...).sum()`, as an association list sorted by key;
  - the monthly trend, which aligns two sorted series and fills in 0;
  - the advice ladder on expenses/income;
  - the "cut the top category by 15%" tip;
  - the newest-first "latest 5".

`scenario.dfy` is a client that walks one user through the store and the
dashboard.

Modelling choices:

- **Amounts** are exact `real`s.
- **The password hash** is a symbolic digest, `Sha256(preimage)`. It is
  deterministic and injective by construction. This stands in for SHA-256 being
  treated as collision-free.
- **Dates** are `Date` values. The store saves them as `str(date)`, the
  zero-padded ISO form. `Dates.DateStringOrder` proves that comparing these
  strings compares the dates. The store's invariant records that every stored
  date is such a string, and `LoadData` passes this on. So sorting the `date`
  column as text, as the source does, sorts chronologically.
- **Months** are the first seven characters of the stored date string.
  `Dates.MonthOfDateString` proves this is the date's `YYYY-MM`, and
  `Dates.MonthStringOrder` proves these strings sort as the months do.
- **Passwords.** The store keeps a ghost map from each user to the password
  they signed up with. Its invariant ties every stored digest to that password.

Two points where the code decides the behaviour:

- **Ties for the top category.** `idxmax` runs over the group index, which
  `groupby` sorts. So a tie goes to the lexicographically smallest category, not
  to the first one recorded.
- **Strict advice thresholds.** All three comparisons are strict. An expense
  total equal to income gets the "over 80%" warning. One equal to half of
  income gets the "healthy" message.

## Model

| member | source | states |
|---|---|---|
| Store.HashInjective | main.py:96-101 | two passwords with the same stored digest are the same password |
| Store.Table.Insert | main.py:173-184 | an `INSERT` into an `AUTOINCREMENT` table (declared at main.py:117) appends exactly one row with the given fields and id `lastId + 1`; that id is above every id issued before; ascending ids and non-negative amounts are kept |
| Store.Table.Delete | main.py:195 | `DELETE ... WHERE id = ?` leaves the rows with other ids in order and does not touch the counter; an absent id changes nothing; a present id removes exactly its row |
| Store.Database.constructor | main.py:103-131 | `create_tables` on a new file gives no users, empty tables whose id counters are 0 (so the first id issued is 1), and a consistent store |
| Store.Database.CheckUser | main.py:144-154 | login succeeds exactly when the user has signed up and the given password is the one they signed up with |
| Store.Database.AddUser | main.py:133-142 | a taken username is refused and the users table is unchanged; otherwise the hash is stored, that password then logs in, no other password does, and other users' logins are unaffected; the store stays consistent |
| Store.Database.LoadData | main.py:156-165 | the user's income and expense entries, in storage order, are the two `SELECT ... WHERE username = ?` results; all their amounts are non-negative, and every date is `str(date)` of a date, so `Dates.DateStringOrder` applies to it |
| Store.Database.SaveIncome | main.py:167-176 | one income row holding `str(date)`, with an id above every earlier one; the user's next load ends with exactly that entry; every other user's load is unchanged |
| Store.Database.SaveExpense | main.py:178-187 | the same as SaveIncome, for the expenses table |
| Store.Database.DeleteIncomeEntry | main.py:189-197 | the income row with that id is gone, whoever owns it; other rows and the counter are unchanged; an unknown id is a no-op |
| Store.Database.DeleteExpenseEntry | main.py:199-207 | the same as DeleteIncomeEntry, for the expenses table |
| Ledger.SelectMembership | main.py:162-163 | an entry is loaded for a user iff some row of that user projects to it |
| Ledger.SelectAppend | main.py:162-163 | loading distributes over concatenated storage, so storage order is kept |
| Ledger.SelectAfterAppend | main.py:173-174 | after an insert, the owner's load gains exactly the new entry at the end; everyone else's load is unchanged |
| Ledger.SelectIds | main.py:162 | every loaded entry carries the id of one of that user's rows |
| Ledger.SelectAfterDelete | main.py:195 | deleting an id that none of a user's rows carry leaves that user's load unchanged |
| Ledger.DeleteAbsent | main.py:205 | deleting an id no row carries changes nothing |
| Ledger.DeleteIdempotent | main.py:205 | deleting the same id twice is the same as deleting it once |
| Ledger.DeleteExactlyOne | main.py:205 | with ascending ids, deleting row k's id removes row k and nothing else |
| Ledger.DeleteMembership | main.py:205 | afterwards no row carries the id; the rows left are exactly the old rows with other ids |
| Ledger.DeleteKeepsOrder | main.py:195 | deletion keeps ids ascending |
| Ledger.DeleteSpec | main.py:195 | everything the delete statement promises on a table whose ids ascend, gathered in one place |
| Dates.DateStringOrder | main.py:425 | comparing `str(date)` strings compares the dates chronologically; equal strings mean equal dates |
| Dates.MonthOfDateString | main.py:387-388 | the monthly period of a stored date is the first seven characters of its string |
| Dates.MonthStringOrder | main.py:387-391 | comparing `YYYY-MM` strings compares the calendar months chronologically, as `Period` values sort; equal strings mean the same month |
| Dates.PadOrder | main.py:174 | zero-padded numerals of one width compare as strings the way the numbers compare |
| Text.Lower | main.py:358 | lower-casing keeps the length, folds every character, and leaves no upper-case ASCII letter |
| Text.LowerIdempotent | main.py:361 | lower-casing twice is the same as lower-casing once |
| Text.Trim | main.py:358 | `strip()` returns an infix of the input that neither starts nor ends with white space; only white space is cut on either side |
| Text.TrimLower | main.py:358 | stripping and lower-casing commute |
| Text.ContainsIffOccurs | main.py:361-362 | the substring test holds iff the query occurs at some offset |
| Text.LexLessTotal | main.py:378 | distinct labels are always ordered one way or the other |
| Text.LexLessTransitive | main.py:378 | the string order used for sorted group keys is transitive |
| Text.LexNotLessTransitive | main.py:425 | "not earlier than" is transitive, so sorting by date is well defined |
| Text.LexLessConcat | main.py:425 | equal-width prefixes decide string comparison before what follows |
| Seqs.Filter | main.py:361-362 | a filter keeps exactly the elements that pass, and never adds or duplicates one |
| Seqs.FilterAppend | main.py:361-362 | a filter distributes over concatenation, so it keeps the relative order |
| Seqs.FilterIdempotent | main.py:361-362 | filtering twice by the same test is the same as filtering once |
| Grouping.SumAppend | main.py:346-347 | the sum of a concatenation is the sum of the parts |
| Grouping.SumNonnegative | main.py:346-347 | non-negative amounts have a non-negative sum |
| Grouping.GroupBy | main.py:378 | one group per distinct key, keys strictly ascending, each group's sum is the sum of its entries, and the groups add up to the whole sum |
| Grouping.GroupSums | main.py:378 | each group's sum is the sum of the entries with its key |
| Grouping.AddToAscending | main.py:378 | adding an amount to a key keeps the group keys strictly ascending |
| Grouping.AddToLookup | main.py:378 | adding raises that key's sum by the amount and leaves every other key's sum alone |
| Grouping.AddToTotal | main.py:378 | adding raises the sum of all groups by the amount |
| Grouping.AddToKeys | main.py:378 | adding gains exactly that key |
| Grouping.TopIndex | main.py:411-412 | the index of a group with the largest sum, with every earlier group strictly smaller (`idxmax` takes the first maximum) |
| Dashboard.ComputeTotals | main.py:346-348 | each total is the sum of its frame's amounts (0 for an empty frame), and savings are income minus expenses |
| Dashboard.TotalsAdditive | main.py:346-348 | totals and savings add up over disjoint parts of the tables |
| Dashboard.TotalsBounds | main.py:346-348 | with non-negative amounts both totals are non-negative and savings never exceed income |
| Dashboard.CategorySumsTotal | main.py:378 | the category breakdown adds up to the total expenses |
| Dashboard.Search | main.py:358-362 | an empty query returns the frame unchanged; otherwise an entry is kept iff its lower-cased label contains the stripped, lower-cased query |
| Dashboard.SearchAppend | main.py:361-362 | the filter keeps relative order |
| Dashboard.SearchIgnoresQueryCase | main.py:358 | the case of the typed query does not change the result |
| Dashboard.MatchIgnoresTagCase | main.py:361-362 | the case of a label does not change whether it matches |
| Dashboard.AlignMonths | main.py:391 | the aligned months are exactly the union of the two sides' months |
| Dashboard.AlignAscending | main.py:391 | the aligned months ascend strictly |
| Dashboard.AlignValues | main.py:391 | each aligned month carries each side's sum for it, 0 where a side has none |
| Dashboard.AlignColumns | main.py:391 | alignment loses no amount: each column adds up to its side's total |
| Dashboard.MonthlyTrendSpec | main.py:385-391 | the trend exists iff both frames are non-empty; its months are the union of both sides' months, in ascending order, which `Dates.MonthStringOrder` shows is chronological; each row holds both monthly sums (0 if absent); its columns add up to the totals |
| Dashboard.QuotientAbove | main.py:399-404 | for positive income, comparing the ratio with a threshold is comparing expenses with the threshold times income |
| Dashboard.SuggestLadder | main.py:396-407 | zero income gives the "add income" prompt and no tip; otherwise: expenses above income give an error, above 80% a warning, above half a note, anything else praise; the boundaries fall on the lower rung |
| Grouping.TopGroup | main.py:411-412 | the group `idxmax` picks holds its key's sum; no group sums to more; a group with an equal sum has a larger key |
| Dashboard.TopCategoryCutSpec | main.py:409-413 | the tip exists iff there are expenses; it names an occurring category with its true sum; no category sums to more; a tied category does not sort before it; the cut is 15% of the sum |
| Dashboard.InsertByDateSpec | main.py:425 | inserting into a newest-first list keeps it newest-first and adds exactly the one entry |
| Dashboard.SortNewestFirst | main.py:425 | `sort_values(by="date", ascending=False)` returns a permutation of its input with dates never increasing |
| Dashboard.LatestSpec | main.py:425 | at most five entries, taken from the input, newest first, and no entry left out is newer than any entry shown |
| Dashboard.DashboardViewSpec | main.py:334-413 | whatever the search holds, the totals are the whole-frame totals; the breakdown appears iff there are expenses and is the category sums; the trend appears iff both frames have entries, holds every month of either frame in ascending order, and its columns add up to the totals; the advice is "add income" for zero income and otherwise each rung as a condition on the totals; the tip appears iff income is non-zero and there are expenses, and names a category with the largest sum (smallest key on a tie) and a 15% cut |
| Dashboard.DashboardViewLatest | main.py:356-440 | the search narrows only the two latest lists: an empty query narrows nothing, filtered entries are loaded entries, and each list holds the newest min(n, 5) entries of its filtered frame, newest first, no entry left out being newer than any shown |
| Scenario.SignupWalkthrough | main.py:262-277 | on a fresh store, a second signup under one name is refused, and only the first password logs in |
| Scenario.DashboardWalkthrough | main.py:308-348 | after an income of 3000 and a rent expense of 1200 the totals are 3000/1200/1800 and the breakdown is just Rent 1200; after deleting the expense the expense total is 0 |

## Left out

- The user interface: the CSS, alert cards, login, signup and logout pages, sidebar navigation, forms, buttons and reruns. These only present data and carry no logic of the store or the dashboard.
- Session state (`st.session_state`). It is the web framework's global page state. The model passes the username explicitly.
- SQLite itself: connections, commits, `CREATE TABLE IF NOT EXISTS` on an existing file, I/O errors and concurrent sessions. The tables are in-memory state. The constructor models a new, empty database file.
- SHA-256 internals. The digest is symbolic (see above).
- Floating-point rounding of the `REAL` amounts and of `top_amount * 0.15`. Amounts are exact reals.
- The `%.2f` formatting of metrics and the pie and line chart rendering. These are display only.
- CSV export (`to_csv`, main.py:366-372). This is pandas text formatting.
- `pd.to_datetime` parsing (main.py:340-343). A month is the first seven characters of the stored ISO date string. `Dates.ValidDate` admits years 1 to 9999, but pandas timestamps only cover about 1677 to 2262: for a date outside that range the source's dashboard raises an error, while the model still computes a trend. The date picker's default range, about ten years either side of today, keeps such dates out.
- Dashboard.Search: pandas `str.contains` reads the query as a regular expression by default. The model reads it as a literal substring. The two agree for queries without regular-expression metacharacters. A query such as `.` or `(` behaves differently in the source: `(` raises an error there.
- Text.Lower: folds only the ASCII letters A-Z. Python's `str.lower()` also folds other Unicode letters.
- Dashboard.LatestSpec: does not fix the relative order of entries with equal dates. pandas' default sort is not stable, and the source promises nothing there.
- Store.Database.SaveExpense: requires one of the five form categories and a non-negative amount. The only caller, the expense form's widgets, guarantees both. SaveIncome requires a non-negative amount for the same reason.
- Store.Database.SaveIncome: returns the new row's id so that the contract can name it. The source function returns nothing. SaveExpense does the same.
- The loops that render the latest rows with delete buttons (main.py:426-448). They only draw the rows and call the delete functions, which are modelled.
