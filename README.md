# Family savings ledger: a Dafny model

This project models the core of a small savings-group application. A treasurer or admin records
monthly contributions of a fixed 4000.00 for each member. The application refuses a second
contribution by the same member in the same calendar month. A dashboard summarises the
contributions.

The modules follow the program's structure:

- `Schema` (`schema.dfy`): the `contributions` table as its migration declares it. That covers the
  row shape, the `decimal(10, 2)` amount held as integer cents, the 4000.00 default, and the unique
  key over (`user_id`, `contribution_year`, `contribution_month`).
- `Query` (`query.dfy`): the query-builder conditions the controllers use, as a `Filter` datatype,
  and what they ask of a query. `Where` gives the rows, `Exists` gives `->exists()` and `Total`
  gives `->sum('amount')`. The module also has lemmas about sums.
- `Model` (`contribution.dfy`): the Eloquent `Contribution` instance as a class. It covers mass
  assignment restricted to `$fillable`, and the `creating` and `updating` hooks that derive the
  period columns from `contributed_at`.
- `Listing` (`listing.dfy`): `latest('contributed_at')` as a sort that puts the newest first, and
  `paginate(10)`.
- `Ledger` (`ledger.dfy`): `ContributionController`.
  - `Ledger.Ledger` is a class over the table, a `seq<Row>` in id order, together with the next
    auto-increment id.
  - `store`, `update` and `destroy` are methods. Each keeps the ledger invariant: the unique key,
    increasing ids, and the derived period equal to the month of `contributed_at` on every row.
  - `index` is a function of the table.
  - The duplicate-period check is a pure predicate over the table.
  - The cascading foreign keys are a method on the table.
- `Dashboard` (`dashboard.dfy`): `DashboardController::__invoke`.
  - The four figures and the per-member chart for the current month are sums over the table.
  - The 12-slot yearly series is an array. It is filled with zeros and then overwritten from the
    grouped query.
  - The cumulative series is a running-total loop.
  - `withdrawable` and `retainedShare` are proved to be exact halves of the sums.
  - The yearly series (the array loop) is proved equal to a month-by-month reference series.
  - The cumulative series (the running-total loop) is proved equal to the prefix sums of that series.
  - The other three figures and the per-member chart are the sums themselves. Lemmas state their
    properties: a member without rows in the month shows 0, the retained share covers the
    withdrawable amount, and the yearly series adds up to the group total.

The current date is a parameter everywhere (`now` in `store` and `update`; `year` and `month` on
the dashboard). Authorization is the precondition `Authorized(actor, action)`. For writes, it stands
for the `role:admin|treasurer` middleware in front of the write routes and the policy behind
`authorize()`. For `viewAny`, it is `true`, because the policy class is not part of this model.

The model follows the code as written, including in three places a reader might not expect:

- `index` narrows the listing to the caller's own rows whenever the caller holds `member`, even
  alongside `admin` or `treasurer`. It does not narrow it only when `member` is the sole role.
- Every calendar condition on the dashboard uses `created_at`, the time the row was recorded. None
  uses `contributed_at`. A contribution dated December and recorded in January counts towards
  January.
- The `dashboard` route in routes/web.php renders the page without calling the controller. The
  controller's computation is modelled on its own.

## Model

| member | source | states |
|---|---|---|
| Ledger.LedgerInvariant | database/migrations/2026_01_13_055858_create_contributions_table.php:15-26 | The ledger invariant: the unique key and increasing ids, every id below the next auto-increment value, and every row as `StoredRowOk` says. `Store`, `Update`, `Destroy` and `UserDeleted` keep it. |
| Ledger.StoredRowOk | app/Models/Contribution.php:41-53 | What each stored row satisfies: the period the hooks derive equals the year and month of `contributed_at`, the amount is the fixed 4000.00 (ContributionController.php:65), both dates are calendar dates, and notes are at most 255 characters. |
| Ledger.Authorized | routes/web.php:22-29 | Reading the listing is open to every caller. The writes need `admin` or `treasurer`. |
| Ledger.VisibleTo | app/Http/Controllers/ContributionController.php:23-25 | A caller holding `member` sees only rows with their own `user_id`. Any other caller sees every row. |
| Ledger.Involving | database/migrations/2026_01_13_055858_create_contributions_table.php:16-25 | The rows the two cascades remove for a user: `user_id` or `created_by` is that user. |
| Schema.UniquePeriods | database/migrations/2026_01_13_055858_create_contributions_table.php:26 | No two rows share (`user_id`, `contribution_year`, `contribution_month`). |
| Schema.ValidDate | app/Http/Controllers/ContributionController.php:45 | The `date` rule: a Gregorian calendar date with a year from 1 to 32767, a month from 1 to 12 and a day within the month, leap years included. |
| Ledger.Ledger.Store | app/Http/Controllers/ContributionController.php:39-72 | Invalid input: the field errors, and the table is unchanged. A user who already holds the month: the `contributed_at` error, and nothing is inserted. Otherwise exactly one row is appended. It carries the next id, amount 4000.00 whatever the request says, `created_by` equal to the acting user, and the period of the date. The ledger invariant is kept. |
| Ledger.Ledger.Update | app/Http/Controllers/ContributionController.php:77-109 | A missing id gives NotFound. Invalid input or a conflict with another row leaves every row unchanged. Otherwise only the bound row changes, to `Edited`: new user, date and notes, the new period, and the same id, amount, creator and `created_at`. The invariant is kept. |
| Ledger.Ledger.Destroy | app/Http/Controllers/ContributionController.php:114-121 | A missing id gives NotFound and the table is unchanged. Otherwise exactly one row goes: the one with that id. Every other row stays in order, and the invariant is kept. |
| Ledger.Ledger.Listed | app/Http/Controllers/ContributionController.php:21-27 | The listing is newest `contributed_at` first. A caller holding `member`, whatever else they hold, gets exactly their own rows. Any other caller gets all rows. Each row appears as often as it is in the filtered table. |
| Ledger.Ledger.Index | app/Http/Controllers/ContributionController.php:17-27 | The page's rows are exactly `PageOf` the caller's listing for that page: at most 10, in newest-first order, each one a row the caller may see. The page also gives the size of the whole listing and the current page, where a page below 1 means page 1. |
| Ledger.Ledger.UserDeleted | database/migrations/2026_01_13_055858_create_contributions_table.php:16-25 | Deleting a user removes exactly the rows where that user is `user_id` or `created_by`. Other rows stay in order, and the invariant is kept. |
| Ledger.ValidationErrors | app/Http/Controllers/ContributionController.php:43-47 | There are no errors exactly when the request is well formed. Each field has an error exactly when its rule fails: `user_id` required and existing, `contributed_at` a real date, `notes` at most 255 characters. |
| Ledger.MatchesDuplicates | app/Http/Controllers/ContributionController.php:89-94 | A row matches the duplicate query exactly when it holds the (user, year, month) triple and is not the excluded id. |
| Ledger.Duplicates | app/Http/Controllers/ContributionController.php:90-94 | The duplicate query's conditions: the user, the year and the month, and, for `update`, an id other than the bound row's. `MatchesDuplicates` states which rows it selects. |
| Ledger.HasConflict | app/Http/Controllers/ContributionController.php:52-55 | `->exists()` on the duplicate query. `ConflictIff` states when it holds. |
| Ledger.ConflictIff | app/Http/Controllers/ContributionController.php:51-55 | The duplicate check succeeds exactly when some row of the table, other than the excluded one, holds the period. |
| Ledger.SamePeriodEditNeverConflicts | app/Http/Controllers/ContributionController.php:89-94 | An edit that keeps a stored row's user, year and month, such as a change to the notes or the day, never meets a duplicate. |
| Ledger.AppendKeepsKeys | app/Http/Controllers/ContributionController.php:51-69 | Inserting a row with a fresh id, for a period the check finds free, keeps the unique key and the increasing ids. |
| Ledger.ReplaceKeepsKeys | app/Http/Controllers/ContributionController.php:89-106 | Rewriting a row in place, when no other row holds its new period, keeps the unique key and the increasing ids. |
| Ledger.DeleteRemovesOne | app/Http/Controllers/ContributionController.php:114-118 | When the id is present, deleting by id shortens the table by exactly one row. |
| Ledger.Find | app/Http/Controllers/ContributionController.php:77 | Route-model binding: the index of a row with that id, or none when no row has it. |
| Ledger.Edited | app/Http/Controllers/ContributionController.php:102-106 | The updated row: the three submitted attributes, the period of the new date, and everything else of the old row. |
| Model.Contribution.Fill | app/Models/Contribution.php:16-22 | Mass assignment sets only the fillable attributes present in the array. The period attributes and the original date are untouched, so only the hooks set the period. |
| Model.Contribution.Creating | app/Models/Contribution.php:41-46 | When `contributed_at` is set, the period attributes become its year and month. When it is not set, the period is left as it was. Nothing else changes. |
| Model.Contribution.Updating | app/Models/Contribution.php:48-53 | The period is recomputed from `contributed_at` exactly when it is dirty, that is, when it differs from the value loaded. Otherwise the period keeps its old value. Nothing else changes. |
| Model.Contribution.IsDirtyContributedAt | app/Models/Contribution.php:49 | `isDirty('contributed_at')`: the current date differs from the one loaded. `Updating` states what follows from it. |
| Model.Contribution.ToRow | app/Http/Controllers/ContributionController.php:63-69 | The inserted row carries the instance's attributes, the given id and creation date, and an amount that fits `decimal(10, 2)`. An unset amount takes the column default of 4000.00 (migration line 17). |
| Model.Contribution.Load | app/Http/Controllers/ContributionController.php:77 | The bound instance holds the stored row's attributes, and its original `contributed_at` is the stored one. |
| Model.Contribution.constructor | app/Http/Controllers/ContributionController.php:63 | A new instance starts with no attribute set. |
| Listing.InsertByDateCorrect | app/Http/Controllers/ContributionController.php:27 | Inserting into a newest-first listing keeps it newest first and adds exactly that row, as a multiset. |
| Listing.SortByDateDesc | app/Http/Controllers/ContributionController.php:27 | `latest('contributed_at')`: the result is newest first and a permutation of its input. |
| Listing.PageOf | app/Http/Controllers/ContributionController.php:27 | `paginate(10)`: at most 10 consecutive rows starting at (page - 1) * 10. A page is full unless it is the last one, and pages past the end are empty. |
| Listing.EveryRowOnItsPage | app/Http/Controllers/ContributionController.php:27 | Row j of the listing is item j mod 10 of page j div 10 + 1. |
| Listing.PageKeepsOrder | app/Http/Controllers/ContributionController.php:27 | A page of a newest-first listing is newest first. |
| Query.Total | app/Http/Controllers/DashboardController.php:21-35 | `sum('amount')`: 0 over no rows, and never negative when no amount is. |
| Query.Where | app/Http/Controllers/ContributionController.php:21-24 | A query returns exactly the table rows that satisfy its conditions, and never more rows than the table has. |
| Query.Exists | app/Http/Controllers/ContributionController.php:52-55 | `exists()` holds exactly when some row satisfies the conditions. |
| Query.TotalCongruent | app/Http/Controllers/DashboardController.php:50-54 | Two conditions that agree on every row give the same `sum('amount')`. |
| Query.TotalSplit | app/Http/Controllers/DashboardController.php:50-54 | A disjoint union of two conditions sums to the sum of their two sums. |
| Query.TotalMonotone | app/Http/Controllers/DashboardController.php:21-31 | With no negative amounts, a narrower condition never sums to more. |
| Query.TotalOfUniformRows | app/Http/Controllers/ContributionController.php:65 | When every row carries the same amount, a sum is that amount times the number of rows selected. |
| Query.WhereKeepsKeyConstraints | database/migrations/2026_01_13_055858_create_contributions_table.php:26 | A filtered table keeps the unique key and the id order. |
| Dashboard.YourTotalThisYear | app/Http/Controllers/DashboardController.php:21-23 | The user's rows with `created_at` in the current year, summed. |
| Dashboard.YourAllTimeTotal | app/Http/Controllers/DashboardController.php:31 | The user's rows of every year, summed. |
| Dashboard.GroupTotalThisYear | app/Http/Controllers/DashboardController.php:34-35 | Everybody's rows with `created_at` in the current year, summed. |
| Dashboard.Half | app/Http/Controllers/DashboardController.php:26 | `* 0.5` taken exactly: twice the result is the total, and the half of a non-negative total is non-negative. |
| Dashboard.MonthlyContributions | app/Http/Controllers/DashboardController.php:38-47 | One entry per user, in the users' order, each with that user's name and the sum of the user's rows created in the current month and year. |
| Dashboard.MonthGroups | app/Http/Controllers/DashboardController.php:50-54 | The grouped query: months from 1 to 12 in strictly ascending order, so at most one row per month, each holding its month's total. |
| Dashboard.MonthGroupsComplete | app/Http/Controllers/DashboardController.php:50-54 | Every month of the year in which some row was created has its row, with its total, in the grouped query. |
| Dashboard.GroupsFromComplete | app/Http/Controllers/DashboardController.php:50-54 | The same, for the grouped rows from a given month on. |
| Dashboard.FilledSlotsAreYearlyTotals | app/Http/Controllers/DashboardController.php:56-59 | Twelve slots holding what the grouped rows leave in each are the reference series. |
| Dashboard.StoredMonthsValid | database/migrations/2026_01_13_055858_create_contributions_table.php:23 | Every `created_at` of a stored ledger is a calendar date, so the array write at month - 1 stays within the 12 slots. |
| Dashboard.StoredYearlyNonNegative | app/Http/Controllers/DashboardController.php:50-59 | Over a stored ledger, every slot of the yearly series is at least 0. |
| Dashboard.StoredCumulativeChart | app/Http/Controllers/DashboardController.php:62-67 | Over a stored ledger, the cumulative chart never decreases, and its last value is the group total for the year. |
| Dashboard.StoredWithdrawableIsWholeCents | app/Http/Controllers/DashboardController.php:21-26 | Over a stored ledger, where every row holds 4000.00, the withdrawable amount is a whole number of cents. |
| Dashboard.SlotValue | app/Http/Controllers/DashboardController.php:57-58 | What the overwrite leaves in a month's slot: the total of the last grouped row for that month, or the initial 0. |
| Dashboard.MonthTotalOf | app/Http/Controllers/DashboardController.php:50-54 | Everybody's rows created in a given month of the year, summed. |
| Dashboard.MemberMonthTotal | app/Http/Controllers/DashboardController.php:39-45 | One user's rows created in the current month and year, summed. |
| Dashboard.PrefixSums | app/Http/Controllers/DashboardController.php:62-67 | The reference running totals: element i is the sum of slots 0 to i, and the result is as long as its input. |
| Dashboard.Invoke | app/Http/Controllers/DashboardController.php:14-67 | The view's figures are exact. `yourTotalThisYear` is the user's `created_at`-this-year sum. `withdrawable` is exactly half of it, and `retainedShare` is exactly half the user's all-time sum. `groupTotalThisYear` is the whole group's sum for the year. The monthly chart, yearly series and cumulative series equal their reference definitions. With valid months, the last cumulative value equals the group total for the year. |
| Dashboard.YearlySeries | app/Http/Controllers/DashboardController.php:50-59 | The grouped query written into zero-filled slots gives the reference series: slot m - 1 holds the total created in month m. |
| Dashboard.FillYearly | app/Http/Controllers/DashboardController.php:56-59 | The array has 12 slots. Each slot holds the total of the last grouped row for its month, or 0 when there is none. |
| Dashboard.RunningTotals | app/Http/Controllers/DashboardController.php:62-67 | Element i of the running totals is the sum of slots 0 to i, and the result is as long as the series. |
| Dashboard.GroupsFrom | app/Http/Controllers/DashboardController.php:50-54 | The grouped rows from a given month on. Their months lie in the range from that month to 12 and strictly ascend. Each row's month has rows, and its total is that month's total. |
| Dashboard.YearlyTotals | app/Http/Controllers/DashboardController.php:56 | The reference series has 12 slots. |
| Dashboard.GroupsFromSlots | app/Http/Controllers/DashboardController.php:50-59 | Writing the grouped rows into the slots leaves, for each month, the total created in that month. |
| Dashboard.SlotsAreMonthTotals | app/Http/Controllers/DashboardController.php:50-59 | Slot m - 1 of the filled series is the total created in month m of the year. |
| Dashboard.EmptyMonthIsZero | app/Http/Controllers/DashboardController.php:56-59 | A month in which no row was created shows 0. |
| Dashboard.PrefixSumsNonDecreasing | app/Http/Controllers/DashboardController.php:62-67 | With no negative slot, the cumulative series never decreases. |
| Dashboard.PrefixSumsLast | app/Http/Controllers/DashboardController.php:62-67 | The last running total is the sum of the whole series. |
| Dashboard.YearlyPrefixSum | app/Http/Controllers/DashboardController.php:50-67 | The first k slots sum to the total created in months 1 to k of the year. |
| Dashboard.YearlySumIsGroupTotal | app/Http/Controllers/DashboardController.php:34-59 | When every row created in the year has a month from 1 to 12, the yearly series adds up to the group total for the year. Both use the same `created_at` year condition. |
| Dashboard.QuietMemberShowsZero | app/Http/Controllers/DashboardController.php:38-47 | The monthly chart has one entry per user. A user with no row created in the current month and year is shown with 0. |
| Dashboard.RetainedShareCoversWithdrawable | app/Http/Controllers/DashboardController.php:21-31 | With no negative amounts, the retained share (all time) is at least the withdrawable amount (this year). |
| Dashboard.WithdrawableIsWholeCents | app/Http/Controllers/DashboardController.php:21-26 | When every row holds 4000.00, the user's total for the year is even in cents. Its half is then a whole number of cents. |

## Left out

- HTTP, Inertia rendering, redirects with flash messages, and the pagination envelope are not modelled. `index` gives the page's rows, the listing's size and the page number. It does not give links, the eager-loaded `user` and `creator` relations, `canManageContributions`, or the list of users.
- `Carbon::parse` and the `date` rule are not modelled as parsers. A request's `contributed_at` arrives already read as a calendar date, or as `None`. `ValidDate` is PHP's `checkdate`.
- Laravel's global trimming of strings and its conversion of empty strings to null are not modelled. `Request` is the input after both. A `notes` of `""` from the form arrives as `None`, and notes are trimmed before `max:255` and before the write.
- A request key that is absent and one that is null are both `None`. For `notes` the source differs. `validate()` returns only the keys present, so a request without a `notes` key fails at `$validated['notes']` (ContributionController.php:68 in `store`, :105 in `update`) with an undefined-key server error, and nothing is written. The model instead accepts the request and stores no notes. The form in the application always sends `notes`, so only other clients take this path.
- The `exists:users,id` rule is a membership test in the set of user ids, which is a parameter.
- The check-then-act race between the duplicate query and the write is not modelled. Operations are sequential.
- The unique index is therefore kept as an invariant. The database error it would raise is not modelled.
- The authorization policy class is not part of this model. `Authorized` admits every caller for `viewAny`, and admins and treasurers for the writes.
- The user table is not part of this model. Users are a set of ids (validation) or a sequence of (id, name) (dashboard). The `User::contributions` relation is taken to be by `user_id`.
- The cascade is modelled as its effect on `contributions`. Deleting the user itself is outside the model.
- `updated_at`, and the time of day and time zone of `created_at`, are not modelled. Only the date of `created_at` is kept, and it is the `now` passed to `store`.
- When `update` receives the values already stored, the row is left as it was, so the model does not treat a save that changes nothing separately.
- Floating point in `* 0.5` is not modelled. Halves are exact `real` values over integer cents.
- The database's behaviour for an out-of-range month from `EXTRACT(MONTH ...)` is not modelled. `Dashboard.Invoke`'s last-total clause assumes `CreatedMonthsValid`. `Dashboard.StoredMonthsValid` proves that every table satisfying the ledger invariant meets it.
- Role and permission seeding is not modelled. Roles are a set of names on the actor.
- The route wiring is not modelled.
- The React pages are not modelled.
