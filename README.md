# Merchant payment reliability dashboard — a verified model

The merchant dashboard lets a merchant upload a CSV file of payment
transactions. Each transaction has a date, a bank, an amount, a status and a
retry count. The dashboard then shows how reliably the payments go through.

The model covers two parts:

- **The upload page.** It reads the file and checks that it has the five
  required columns. It converts the date column and only then makes the table
  the session's active dataset. A missing file changes nothing. A missing
  column or a failed read or conversion also leaves the previous dataset in
  place.
- **The dashboard page.** It prompts for an upload when no dataset is active.
  Otherwise it computes four views from the active table:
  - the headline metrics: total, success and failure counts and rates, and the
    mean retry count;
  - a per-day trend of the success rate, failure rate and mean retries;
  - a per-bank comparison of success rate and transaction count;
  - the banks with the lowest and the highest success rate.

Modules:

- `Transactions` holds the row type, the status counts, the rates and the
  means.
- `Grouping` holds a group-by with sorted distinct keys, its partition lemma,
  and the integer and string key orders.
- `Dashboard` holds the views and the page outcome.
- `Upload` holds the column check, the date conversion and the `Session`
  class whose `txnData` field the upload page writes and the dashboard reads.
- `Scenarios` holds concrete runs across both pages.

Status matching follows the code: it is literal and case-sensitive against
`"success"` and `"failure"`. A row with any other status counts in the total
but in neither bucket. A grouped key comes out in ascending order, the way a
sorted group-by emits its groups. Days are ordered as integers. Banks are
ordered lexicographically by character code.

## Model

| member | source | states |
|---|---|---|
| Transactions.DayOf | dashboard.py:36 | the calendar day of a timestamp starts at or before it, and the next day starts after it |
| Transactions.CountStatus | dashboard.py:18-19 | the filter-count is at most the row count; it is 0 exactly when no row has the status and equals the row count exactly when every row has it |
| Transactions.StatusCountsPartition | dashboard.py:17-19 | successes plus failures is at most the total, and equals it exactly when every status is literally "success" or "failure" |
| Transactions.MeanRetry | dashboard.py:23 | the mean times the row count is the sum of the retry counts, and it is non-negative |
| Transactions.MeanRetryBounds | dashboard.py:23 | the mean lies between any lower and any upper bound of the retry counts |
| Transactions.Rate | dashboard.py:21-22 | the rate times n is 100·k; for k ≤ n it lies in [0, 100]; it is 0 exactly when k = 0 and 100 exactly when k = n |
| Transactions.RatesComplement | dashboard.py:21-22 | two disjoint counts give rates summing to exactly 100 if and only if they cover all rows |
| Grouping.Group | dashboard.py:35-37 | a group is no longer than the table, and it is non-empty exactly when its key occurs in the table |
| Grouping.GroupMembers | dashboard.py:35-37 | a group holds every row with its key, with that row's multiplicity, and no other row |
| Grouping.SortedKeys | dashboard.py:35-37 | the group keys are strictly ascending and are exactly the keys that occur in the table |
| Grouping.GroupsPartition | dashboard.py:68-71 | the groups of distinct keys that cover every row have sizes adding up to the row count |
| Grouping.IntLessIsStrictTotal | dashboard.py:35-36 | day keys are ordered by a strict total order |
| Grouping.StrLessIsStrictTotal | dashboard.py:68 | lexicographic order on bank names is a strict total order |
| Dashboard.Headlines | dashboard.py:17-23 | an empty table has no headline; otherwise the total is the row count, the counts are the literal status counts and add up to at most the total, both rates are 100·count/total and in [0, 100], and the retry figure is the mean |
| Dashboard.HeadlineRatesComplete | dashboard.py:17-22 | the success and failure rates add up to 100 if and only if every status is literally "success" or "failure" |
| Dashboard.DayRow | dashboard.py:38-40 | a day's trend row carries that day, and both its rates lie in [0, 100] |
| Dashboard.DailyRows | dashboard.py:35-41 | one trend row per listed day, in the same order |
| Dashboard.Daily | dashboard.py:35-41 | the trend is strictly ascending by day; every day in it occurs in the table and every row's day is in it; every trend row is that day's row |
| Dashboard.DailyRowOfItsDay | dashboard.py:35-41 | each trend row comes from a non-empty group of exactly that day's rows; its rates are 100 times the day's success and failure shares and its retry figure is the day's mean |
| Dashboard.PeerRowFor | dashboard.py:69-70 | a bank's row carries that bank, a positive transaction count and a success rate in [0, 100] |
| Dashboard.PeerRows | dashboard.py:68-71 | one comparison row per listed bank, in the same order |
| Dashboard.PeerComparison | dashboard.py:68-71 | banks are strictly ascending and distinct; every listed bank occurs in the table and every row's bank is listed; every row is that bank's row; a non-empty table gives a non-empty comparison |
| Dashboard.PeerRowOfItsBank | dashboard.py:68-71 | each comparison row comes from exactly that bank's rows; its count is their number, at least one, and its rate is 100 times their success share |
| Dashboard.PeerTxnsSum | dashboard.py:68-71 | the per-bank transaction counts add up to the number of rows |
| Dashboard.SortByRate | dashboard.py:89-90 | the peer table sorted by success rate is ascending and is a permutation of its input |
| Dashboard.Extremes | dashboard.py:89-90 | the extremes exist exactly when the peer table is non-empty |
| Dashboard.ExtremesAreMinMax | dashboard.py:89-90 | the worst and best bank picked from a peer table are rows of it with its minimum and maximum success rate; with one bank both are that row |
| Dashboard.Render | dashboard.py:10-23 | no dataset gives the upload prompt; a loaded empty table gives the division-by-zero fault; otherwise the page shows the report of the loaded rows |
| Dashboard.BuildReport | dashboard.py:14-90 | the page's views of a non-empty table are all computed from the same rows, and the insights from the comparison that is shown beside them (the agreement between the views is ReportConsistent) |
| Dashboard.ReportConsistent | dashboard.py:17-90 | the views of one report agree: the per-bank transaction counts add up to the headline total, and the worst and best bank are rows of the comparison shown, with its lowest and highest success rate |
| Dashboard.RenderGuarded | dashboard.py:10-12 | the corrected page never faults; it prompts for an upload exactly when no dataset is loaded or the loaded table is empty, and otherwise agrees with Render |
| Upload.HasRequiredColumns | upload.py:18-19 | a table is accepted exactly when each of `date`, `bank`, `amount`, `status` and `retry_count` is among its columns, whatever else it has |
| Upload.MissingColumns | upload.py:18-19 | an equivalent form of the acceptance test: the required columns the table lacks, none exactly when it is accepted (the page's error message names no columns) |
| Upload.ExtraColumnsAllowed | upload.py:18-19 | adding columns to an accepted table keeps it accepted |
| Upload.ConvertDates | upload.py:23 | the conversion succeeds exactly when every date cell parses; it then keeps every row in order, and only the date changes, to the parsed timestamp |
| Upload.Session.constructor | dashboard.py:10 | a fresh session has no active dataset |
| Upload.Session.Upload | upload.py:14-32 | no file gives no notice and no change; an unreadable file or a failed conversion reports failure; a missing column reports the format error; only success replaces the active dataset, with the table's columns and its converted rows; every other outcome leaves it unchanged |
| Scenarios.HeaderOnlyUploadThenView | upload.py:18-26 | a header-only file with the required columns is accepted; the dashboard then faults on it, and the guarded page prompts for an upload |
| Scenarios.RejectedUploadKeepsDataset | upload.py:19-21 | after a successful upload, a second file without the status column is rejected and the first dataset stays active |
| Scenarios.UpperCaseStatusInNoBucket | dashboard.py:18-22 | an upper-case "SUCCESS" row counts in the total but in neither bucket, so the two rates add up to 50 rather than 100 |

## Left out

- Streamlit rendering is not modelled: titles, KPI cards, plotly charts, dividers, messages and the table preview are presentation only. The notice an upload shows is modelled as a `Notice` value.
- login.py, app.py, alerts.py, reports.py and settings.py are not part of this model. They hold a login flag, sidebar routing (with the upload page commented out) and static widgets, with no computation.
- `pd.read_csv` is a library call. Its outcome is an input: an unreadable file, or the column names and parsed rows.
- `pd.to_datetime` is a library call. It is a parameter `parse` from a date cell to an optional timestamp: the wall-clock time of the parsed value, in seconds, in the column's own time zone, so that dropping the time of day gives the calendar date `.dt.date` gives. Converting between time zones is not modelled. The whole column fails if one cell fails. The format pandas infers for the whole column is folded into that function.
- Upload.ConvertDates: the model keeps only the column names of the uploaded table, not the values of extra columns.
- NaN and missing cells, dtype inference and non-integer retry counts are not modelled. A parsed row always has a bank, an amount, a status and a whole retry count.
- The in-place overwrite of the date column is modelled as a new row sequence, because the table is local to the upload call until it is stored.
- Rounding to one decimal and floating-point arithmetic are not modelled: rates and means are exact reals.
- Upload.Session.Upload: the success message and the table preview after the store (upload.py:28-29) are assumed not to raise. If one did, the page would report "Upload failed" while the new dataset is already active, which the contract's "every other outcome leaves it unchanged" does not allow for.
- Dashboard.ExtremesAreMinMax: pandas' default sort is not stable, so which of several banks with equal rates is picked is not stated. The model sorts stably and its contract states only the minimum and maximum.
- Dashboard.Extremes: the index error on an empty comparison table is modelled as `None`. The page never reaches it, because a non-empty table has a non-empty comparison.
- Statuses are matched literally and case-sensitively, `retry_count` is a required column, and an empty table divides by zero. The model keeps all three and adds no status canonicalisation, no default retry count and no "no data" result.

## Findings

| source | as written | input that shows it | evidently intended | confidence | as-written member | corrected member |
|---|---|---|---|---|---|---|
| dashboard.py:10-21 | the early return covers only a missing dataset, so an active table with no rows reaches `success_txns / total_txns` with a total of 0 and raises a division by zero | a CSV with the header `date,bank,amount,status,retry_count` and no rows, which upload.py:18-26 accepts; app.py routes to no upload page (app.py:8 and 48-49 are commented out) and nothing else sets `txn_data`, so the app as shipped always shows the prompt and the fault needs the upload page routed in | show the upload prompt, as when no data is loaded | not executed; high | Scenarios.HeaderOnlyUploadThenView | Dashboard.RenderGuarded |
