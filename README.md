# SavingsDB valuation engine in Dafny

This project models the valuation engine of the savings tracker, the
`SavingsDB` class in `backend/app/utils/db.py`. The class does four things:

- **Append to the ledger.** `insert` stores one `(time, platform, account, amount)` snapshot in the
  `savings` table. It never updates, deduplicates or deletes a row.
- **Resolve each day.** Both queries run two SQL common table expressions, `latest_per_day`
  and `daily_totals`. The history query's copy of `daily_totals` does not select `nz_date`
  (`backend/app/utils/db.py:174-182`, against lines 76-85), so each history row takes its `nz_date`
  from the date grid (lines 194-199). The model keeps one resolver for both queries; the history model
  joins on `days_ago` and takes its dates from the grid, never from a resolved row's `nz_date`:
  - each snapshot is placed on its calendar day in Pacific/Auckland time;
  - for every `(platform, account, day)` the snapshot with the latest `time` is kept;
  - each kept row is labelled with `days_ago`, the reference day minus its day;
  - future rows are dropped, and in the history query so are rows beyond the window.
- **Compute the current portfolio.** `current_portfolio` runs `past_data` at lags 0, 1, 7, 30 and 365:
  - for each account it takes the resolved row with the smallest `days_ago` at or beyond the lag;
  - it sums those amounts per platform, sorted by platform.
  - From these frames it derives the total, the per-platform weights, and four period-over-period
    changes.
- **Build the history.** `get_history` crosses every `(platform, account)` pair with every lag of the
  window, right-joins the resolved rows onto that grid, forward-fills each pair from oldest to newest,
  and pivots to one row per date with one column per `"platform - account"` label.
  `get_history_percentage` joins that frame to a copy lagged by one day and replaces each investment
  column by the running product of its day-over-day ratios.

Modules, one file each:

| module | file | contents |
|---|---|---|
| `Wrappers` | `wrappers.dfy` | `Option`, `Result` |
| `Numbers` | `numbers.dfy` | `Float` (finite or not), opaque `Rounding`, division and product of floats |
| `Strings` | `strings.dfy` | code-point order of platform names, the `platform - account` label, substring search |
| `Ledger` | `ledger.dfy` | `SavingsRow` |
| `Resolver` | `resolver.dfy` | the two common table expressions and the final `WHERE` |
| `Rollup` | `rollup.dfy` | `past_data` and `current_portfolio` |
| `History` | `history.dfy` | `get_history`, and the window length of the `/history` route |
| `Percentage` | `percentage.dfy` | `get_history_percentage`, with its loop over the investment columns as a method |
| `Db` | `db.dfy` | the `SavingsDB` class: the stored rows, `Insert`, and the three queries |

Modelling choices:

- **Time.** An instant is an `int`. The Pacific/Auckland day of an instant is a function parameter
  `day`, and the current NZ day (`%s::date` of `now_nz`) is a parameter `today`.
- **Amounts.** Amounts are exact `real`s.
- **Rounding.** Python's `round` and polars' `.round` are an opaque `Rounding` record, so no proof
  depends on how ties are broken.
- **Float division.** A polars float division by zero gives inf or NaN rather than raising; the model
  writes this as `Float.NonFinite`. A Python division by zero raises; the model returns
  `Err(ZeroDivision)`.
- **Errors.** A query whose resolver returns no rows fails with `Err(NoData)`: `pl.from_dicts([])` has
  no columns, so the next column access raises. A pivot that meets two pairs under one label fails
  with `Err(DuplicateLabel)`, and so does a join whose `_right` suffix would reuse a name.
- **Ties.** `ROW_NUMBER() OVER (… ORDER BY time DESC)` leaves equal times in an unspecified order.
  The model ranks the row stored first ahead of the other.

Behaviour worth knowing:

- **Fallback in `past_data`.** `past_data` looks only at rows at or beyond the lag
  (`backend/app/utils/db.py:98`); it has no fallback to nearer rows.
- **Weights.** Each weight is the platform amount divided by the integer-rounded total, rounded to two
  places (`backend/app/utils/db.py:113-118`). It is not a percentage rounded to one place.
- **`pct_change`.** It is computed whenever yesterday's frame has rows (`backend/app/utils/db.py:132-134`).
- **`cum_prod`.** polars' `cum_prod` skips nulls: a null entry stays null and the product carries on
  past it (`backend/app/utils/db.py:237`).

## Model

| member | source | states |
|---|---|---|
| Numbers.Divide | backend/app/utils/db.py:116-118 | a polars float division is non-finite exactly when the divisor is zero; a finite quotient times the divisor gives back the dividend |
| Strings.LessIrreflexive | backend/app/utils/db.py:104 | the platform order of `sort(by="platform")` never ranks a name before itself |
| Strings.LessTransitive | backend/app/utils/db.py:104 | the platform order is transitive |
| Strings.LessTotal | backend/app/utils/db.py:104 | any two distinct platform names are ordered one way or the other |
| Resolver.DailyTotal | backend/app/utils/db.py:76-82 | a `daily_totals` row keeps platform, account and amount; its `nz_date` is the day of `time`, and `days_ago` is the reference day minus `nz_date` |
| Resolver.PrefixMembers | backend/app/utils/db.py:66-89 | a row is among the resolved rows of the first `n` snapshots exactly when a kept snapshot before `n` projects to it |
| Resolver.ResolvedMembers | backend/app/utils/db.py:66-89 | the resolver's result holds exactly the projections of the snapshots that have `rn = 1` and pass the final filter |
| Resolver.ResolvedInWindow | backend/app/utils/db.py:82-89 | every resolved row has `days_ago` equal to the reference day minus `nz_date` and `days_ago >= 0`; it also has `days_ago <= history_days` when the history query gives that bound (lines 179-186) |
| Resolver.KeptApart | backend/app/utils/db.py:69-84 | two distinct snapshots that both get `rn = 1` never share `(platform, account, nz_date)` |
| Resolver.ResolvedUnique | backend/app/utils/db.py:69-84 | no two resolved rows share `(platform, account, nz_date)` |
| Resolver.ResolvedKeysUnique | backend/app/utils/db.py:69-84 | no two resolved rows share `(platform, account, nz_date)`, nor `(platform, account, days_ago)` |
| Resolver.PickLatest | backend/app/utils/db.py:69-72 | every `(account, platform, day)` partition has a row that is numbered before each row of the partition |
| Resolver.ResolvedComplete | backend/app/utils/db.py:66-89 | every snapshot inside the window has its `(platform, account, day)` represented among the resolved rows |
| Resolver.LatestSurvives | backend/app/utils/db.py:69-84 | a snapshot later than every other snapshot of its day is kept, and every resolved row of that day carries its amount |
| Resolver.ThreeSnapshotsOneDay | backend/app/utils/db.py:69-84 | with snapshots at t1 < t2 < t3 on one day, stored out of order, only the t3 row is resolved |
| Resolver.AppendKeepsOtherDays | backend/app/utils/db.py:66-89 | appending a snapshot leaves the resolved rows of every other `(platform, account, day)` as they were |
| Resolver.ReinsertKept | backend/app/utils/db.py:69-84 | a stored copy of an existing snapshot never gets `rn = 1`, and every old snapshot keeps or loses `rn = 1` as before |
| Resolver.SamePrefix | backend/app/utils/db.py:66-89 | two ledgers that share a prefix and keep the same snapshots of it resolve that prefix alike |
| Resolver.ReinsertInvisible | backend/app/utils/db.py:66-89 | inserting a copy of a stored snapshot leaves the resolver's result unchanged |
| Rollup.MinLag | backend/app/utils/db.py:98-100 | the per-series minimum `days_ago` among rows at or beyond the lag; it is absent exactly when the series has no such row, and it is attained and lower than every other candidate |
| Rollup.NearestRows | backend/app/utils/db.py:101 | the inner join keeps exactly the rows whose lag equals their series' minimum, each no more often than it occurs in the data |
| Rollup.SelectedIsNearest | backend/app/utils/db.py:96-101 | a row is selected by `past_data(data, N)` exactly when its lag is at least `N` and no row of its series is nearer while still at or beyond `N` |
| Rollup.NoRowBeyondContributesNothing | backend/app/utils/db.py:98-101 | a series with no row at or beyond the lag contributes no row |
| Rollup.OneRowPerSeries | backend/app/utils/db.py:99-101 | when no two rows share a join key, each series contributes at most one row |
| Rollup.ContributorsShrink | backend/app/utils/db.py:98-101 | a series that contributes at lag `n2` also contributes at every smaller lag `n1` |
| Rollup.PicksFortyOverTwentyFive | backend/app/utils/db.py:98-101 | with rows 25 and 40 days back and lag 30, the row 40 days back is the one selected |
| Rollup.InsertSorted | backend/app/utils/db.py:102-104 | adding a platform to a strictly ascending key list keeps it strictly ascending, with exactly the old keys and the new one |
| Rollup.Platforms | backend/app/utils/db.py:102-104 | the grouped platforms are strictly ascending and are exactly the platforms of the rows |
| Rollup.PastData | backend/app/utils/db.py:96-105 | one row per contributing platform, strictly ascending by platform; each amount is the rounded sum of that platform's selected amounts |
| Rollup.PastDataEmpty | backend/app/utils/db.py:96-105 | a `past_data` frame is empty exactly when no resolved row lies `N` or more days back |
| Rollup.WeightOf | backend/app/utils/db.py:116 | a weight is non-finite exactly when the total is zero; otherwise it is the amount over the total, rounded to two places |
| Rollup.Weights | backend/app/utils/db.py:116-119 | the weights frame keeps each platform in order, with the weight `WeightOf` gives |
| Rollup.Change | backend/app/utils/db.py:132-149 | a change is `None` exactly when its frame is empty, raises exactly when the frame has rows and the denominator is zero, and otherwise is `round(100 * total / denominator - 100, 1)` |
| Rollup.PortfolioFails | backend/app/utils/db.py:107-149 | `current_portfolio` fails with no data exactly when nothing resolves, and with a division by zero exactly when a non-empty period frame has a zero denominator; in every other case it returns a portfolio |
| Rollup.PortfolioFigures | backend/app/utils/db.py:107-114 | the holdings are the lag-0 and lag-1 `past_data` frames, and the totals are their rounded sums |
| Rollup.PortfolioWeightings | backend/app/utils/db.py:116-128 | today's and yesterday's weightings list the platforms of that day's holdings in order, each with `WeightOf` its amount and that day's total |
| Rollup.PortfolioChanges | backend/app/utils/db.py:132-149 | `pct_change`, `week_over_week`, `month_over_month` and `year_over_year` are the `Change` of today's total against the lag-1, 7, 30 and 365 frames: yesterday's rounded total for the first, the frame's unrounded sum for the others |
| Rollup.ResolvedReachesLag | backend/app/utils/db.py:82-89 | some resolved row lies `n` or more days back exactly when some snapshot is dated that far back |
| Rollup.ChangeAbsentIffNoOlderSnapshot | backend/app/utils/db.py:132-149 | `pct_change`, `week_over_week`, `month_over_month` and `year_over_year` are each `None` exactly when no snapshot is dated 1, 7, 30 or 365 days or more back |
| History.HistoryDays | backend/app/__init__.py:62 | the window is `days` when no months or years are asked for, and never shorter than `days` when they are non-negative |
| History.ObservedSpec | backend/app/utils/db.py:202-205 | the right join leaves a grid cell null exactly when no resolved row matches it, and otherwise fills it with a matching row's amount |
| History.Pivot | backend/app/utils/db.py:193-214 | the pivot has `h + 1` dates, oldest first and ending at the reference day, and exactly one forward-filled column per pair |
| History.NegativeWindowPrefix | backend/app/utils/db.py:186 | a negative window resolves no row |
| History.GetHistory | backend/app/utils/db.py:152-215 | `get_history` fails with no data exactly when nothing resolves, and fails on a duplicate label exactly when two pairs share one; it succeeds exactly when neither happens, and then returns the pivot of the resolved rows: `h + 1` dates and one forward-filled column per pair |
| History.FilledNone | backend/app/utils/db.py:206-208 | a forward-filled cell is null exactly when the pair has no observation at or before its date in the window |
| History.FilledFromLatest | backend/app/utils/db.py:206-208 | a forward-filled cell holds the pair's most recent observation at or before its date |
| History.FilledDependsOnOlder | backend/app/utils/db.py:206-208 | a forward-filled cell depends only on observations at or before its date |
| History.ObservedUnique | backend/app/utils/db.py:203-205 | with one row per join key, the join puts a resolved row's amount in its own cell |
| History.AppendKeepsObservations | backend/app/utils/db.py:202-205 | appending a snapshot changes no joined cell except its own pair at its own lag |
| History.AppendKeepsPairs | backend/app/utils/db.py:193 | appending a snapshot never removes a pair from the window |
| History.AppendKeepsFilled | backend/app/utils/db.py:202-208 | appending a snapshot dated D leaves every forward-filled value before D unchanged |
| History.AbsentPairIsNull | backend/app/utils/db.py:193-208 | a pair with no resolved row fills to null on every date |
| History.AppendKeepsCell | backend/app/utils/db.py:202-214 | appending a snapshot dated D leaves each old column's cells before D unchanged |
| History.AppendNewCellNull | backend/app/utils/db.py:202-214 | a column that a new snapshot dated D brings in is null on every date before D |
| History.AppendKeepsEarlierDates | backend/app/utils/db.py:202-214 | an observation on day D never changes the history for dates before D: same dates, old columns unchanged there, new columns null there |
| History.HistoryCellIsLatest | backend/app/utils/db.py:202-214 | a pair's history cell on a date is the amount of its latest resolved row at or before that date |
| History.HistoryCellNull | backend/app/utils/db.py:202-214 | a pair's history cell is null on a date before its first resolved row in the window |
| Percentage.LagRow | backend/app/utils/db.py:221-227 | the lagged row joined to date `d` is one whose date plus one day is `d` |
| Percentage.LagRowNone | backend/app/utils/db.py:221-227 | the join leaves a date without a partner only when no date is the day before it |
| Percentage.LagRowIsPrevious | backend/app/utils/db.py:221-227 | on the history's consecutive dates, row `i` is joined to row `i - 1`, and the first row to nothing |
| Percentage.RatioAt | backend/app/utils/db.py:221-237 | the ratio at row `i` is the value at `i` over the value at `i - 1`, and null on the first row |
| Percentage.GetHistoryPercentage | backend/app/utils/db.py:217-240 | fails as `get_history` fails, and on a `_right` name collision; otherwise it returns `PercentageOf` the history |
| Percentage.ConvertColumns | backend/app/utils/db.py:229-240 | the loop over the investment columns, followed by the selection without `_right` columns, yields `PercentageOf` the history |
| Percentage.SelectConverted | backend/app/utils/db.py:240 | once every column is converted, dropping the `_right` names leaves exactly the percentage frame's columns |
| Percentage.HistoryShaped | backend/app/utils/db.py:194-214 | every history column runs over all dates, and the dates are consecutive, `h + 1` of them |
| Percentage.PivotShaped | backend/app/utils/db.py:194-214 | the same for any pivot of resolved rows |
| Percentage.ProductOfNulls | backend/app/utils/db.py:237 | a running product over entries that are all null is null |
| Percentage.QuotientsTelescope | backend/app/utils/db.py:235-238 | the product, and the running product, of a null prefix followed by day-over-day quotients is the last value over the first one |
| Percentage.CumProdTelescopes | backend/app/utils/db.py:235-238 | over a column that is null before `s` and non-zero from `s` to `i`, the running ratio product at `i` is value(i) / value(s), and null at `s` |
| Percentage.FirstDateNull | backend/app/utils/db.py:221-238 | every investment column of the output is null on the first date |
| Percentage.PercentageTelescopes | backend/app/utils/db.py:221-240 | for an investment column that is null before its first date with a value, the output is null on that first date and, after it, value(d) / value on that first date while the values stay non-zero |
| Percentage.ZeroMakesNonFinite | backend/app/utils/db.py:237 | a zero balance on the day before `m` makes the running product non-finite from `m` on, while the column has values |
| Percentage.NonFiniteAbsorbs | backend/app/utils/db.py:237 | once a non-finite ratio enters the running product, the product stays non-finite |
| Percentage.FilledPersists | backend/app/utils/db.py:208 | forward fill never turns a present value back into null on a later date |
| Percentage.PivotColumnFromFirst | backend/app/utils/db.py:202-214 | a pivot column is null before the pair's first filled date and holds the filled values from there on |
| Percentage.PivotPercentageTelescopes | backend/app/utils/db.py:202-238 | in the percentage frame of a pivot, a pair's column is null up to its first value and then value(d) / first value while non-zero |
| Percentage.HistoryPercentageTelescopes | backend/app/utils/db.py:217-240 | the same for the frame that `get_history_percentage` builds from `get_history` |
| Db.SavingsDB.constructor | backend/app/utils/db.py:21-35 | a handle on a database that holds the given rows |
| Db.SavingsDB.Insert | backend/app/utils/db.py:41-53 | appends exactly the given row, with no check against the stored rows, and changes no stored row |
| Db.SavingsDB.CurrentPortfolio | backend/app/utils/db.py:55-150 | `current_portfolio` over the stored rows |
| Db.SavingsDB.GetHistory | backend/app/utils/db.py:152-215 | `get_history` over the stored rows |
| Db.SavingsDB.GetHistoryPercentage | backend/app/utils/db.py:217-240 | `get_history_percentage` over the stored rows, with its error cases |
| Db.ReinsertChangesNoQuery | backend/app/utils/db.py:41-53 | inserting a copy of a stored row changes neither `current_portfolio` nor `get_history` |

## Left out

- Connection handling. The psycopg2 connection, its parameters and transactions (`backend/app/utils/db.py:21-39`) are not modelled. The database is the sequence of stored rows.
- SQL and polars execution are not modelled. Only their results are: the common table expressions, joins, sorts, forward fill and pivot become functions on sequences and maps.
- Timezone conversion is not modelled. `timezone('Pacific/Auckland', time)::date` is the parameter `day`, and `now_nz` becomes the parameter `today`.
- The session timezone is not modelled. `%s::date` of the timezone-aware `now_nz` is cast in the database session's timezone, so the model's `today` is the NZ day only when the session uses NZ time.
- Rounding is opaque. `round(..., 2)`, `round(..., 1)` and `round(...)` are caller-supplied functions, and no property depends on how they round.
- Floating point is not modelled. Amounts are exact reals, and overflow does not happen. inf and NaN are not told apart (`Float.NonFinite`).
- Resolver.Precedes: equal `time`s within one day are ranked with the row stored first ahead. SQL leaves that order unspecified, so on such ties the database may keep the other row.
- Percentage.ConvertColumns: assumes the left join keeps the history's row order, so the running product runs oldest first. polars does not promise that order unless asked.
- Percentage.GetHistoryPercentage: the join's other collision is not modelled. A history column named `lagged_date` would be overwritten in the lagged copy. Every label contains `" - "`, so no column can have that name.
- Percentage.GetHistoryPercentage: does not model polars' schema inference when `pl.DataFrame` rebuilds the history from its list of dicts (`backend/app/utils/db.py:220`). polars infers each column's type from the first 100 rows by default, so a label that is null on the 100 oldest dates (for example an account first seen 200 days ago, under a 365-day window) may be typed as null, and the constructor may then reject its later floats. The model returns the percentage frame for such input and treats every history column as floats.
- The bank and platform API clients (`backend/app/API/*.py`, `app/API/*.py`) are not modelled: they are network calls to external services.
- `handle_missing` is not modelled: it turns an exception into 0 around those network calls.
- The FastAPI routers, cron scheduling and the multi-platform save cycle are not modelled; only the window length of the `/history` route is (`History.HistoryDays`).
- Configuration files and the React dashboard are not modelled.
