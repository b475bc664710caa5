# Commit activity report — a Dafny model

git-retrospective builds a per-contributor, per-day commit report from the
merged pull requests of a repository. Its logic is in three steps of
`main.py`:

1. `fetch_commit_data` walks the closed pull requests. For each one merged
   between 00:00 UTC of the start date and 00:00 UTC of the end date, both
   bounds inclusive, it appends one `(committer date, committer email)`
   record per commit (module `Commits`, file `commits.dfy`).
2. `generate_commit_report` pivots the records into a table: one row per
   distinct date, ascending, and one column per distinct contributor, in
   lexicographic order. Each cell counts the records for its date and
   contributor, and is 0 where there are none (module `Pivot`, file
   `pivot.dfy`; the sort orders are in module `Ordering`, file
   `ordering.dfy`).
3. `add_stats` appends two rows below the data rows: "Total commits", each
   contributor column summed over the data rows, then "Total worked days",
   the number of data rows where the column is positive (module `Stats`,
   file `stats.dfy`).

Modelling choices:

- An instant is an integer number of seconds since 1970-01-01T00:00:00 UTC.
- A calendar date is an integer day number, with 1970-01-01 as day 0.
- `Midnight(d)` is what a `YYYY-MM-DD` bound parses to.
- `DateOf(t)` is the date part of a timestamp (floor division by 86400).
- A pull request is a record with an optional merge instant (`None` when
  it was closed without a merge) and its sequence of commits.
- `FetchCommitData` keeps the source's two nested loops and its list
  accumulator. It is proved equal to the specification function
  `Extracted`.
- The pivot and the summary rows are functions on values, as the source
  computes them as whole-table expressions.
- The report that `add_stats` writes is a `Report`. Its first column holds
  either a date (`Date`) or one of the two labels (`Text`).

`main.py` has no committer filter, no title-keyword filter and no branch
parameter: the base branch is fixed to `develop` in the `get_pulls` call
(main.py:15). The columns of the pivot follow pandas' default sorted order
(main.py:30), so they are in lexicographic order, not in order of first
appearance.

The contracts below are stated in terms of these definitions:

- `Commits.Qualifies`: the window test of main.py:19. The pull request has
  a merge instant, and that instant lies from `Midnight(start)` to
  `Midnight(end)`, both inclusive.
- `Pivot.PivotTable`: the `pivot_table` call of main.py:30.
- `Stats.TotalCommitsRow` and `Stats.TotalWorkedDaysRow`: the two rows that
  main.py:36-38 compute. Each maps every column of the table to its sum, or
  to its number of positive data rows.

## Model

| member | source | states |
|---|---|---|
| `Commits.DateOf` | main.py:21 | the date of an instant is the unique day whose midnight is at or before it and whose next midnight is after it |
| `Commits.Records` | main.py:20-22 | one record per commit: as many records as commits |
| `Commits.RecordsAt` | main.py:20-22 | the k-th record is the date and committer email of the k-th commit |
| `Commits.FetchCommitData` | main.py:16-24 | the nested loops return exactly `Extracted(pulls, start, end)`: the records of the commits of the qualifying pull requests, in traversal order |
| `Commits.ExtractedAppend` | main.py:18-22 | extracting from a concatenation of pull-request lists gives the two extractions concatenated, in traversal order |
| `Commits.ExtractedLength` | main.py:16-22 | the number of records equals the total commit count of the pull requests merged inside the window |
| `Commits.ExtractedMembership` | main.py:18-22 | a record is extracted iff it is the (date, email) of some commit of some qualifying pull request (both directions) |
| `Commits.SkippedPullContributesNothing` | main.py:19 | inserting a pull request that fails the window test anywhere in the list leaves the extracted records unchanged |
| `Commits.UnmergedPullContributesNothing` | main.py:19 | a pull request with no merge timestamp contributes no records, whatever its commits |
| `Commits.QualifiesByCalendarDay` | main.py:12-19 | a merged pull request qualifies iff it was merged on a day from the start day to the day before the end day, or exactly at 00:00 UTC of the end day |
| `Commits.WindowBoundsInclusive` | main.py:12-19 | a pull request merged exactly at midnight of the start day or of the end day contributes all its commits |
| `Commits.MergedLaterOnEndDayExcluded` | main.py:12-19 | a pull request merged on the end day after 00:00 UTC contributes nothing |
| `Commits.RecordDateMayLieOutsideWindow` | main.py:19-22 | a pull request merged inside the window yields a record whose date lies before the window: record dates are not checked |
| `Ordering.SortedElements` | main.py:30 | pivot keys are sorted strictly ascending and are exactly the elements of the key column |
| `Ordering.SortedUnique` | main.py:30 | two strictly sorted sequences with the same elements are equal, so the key order is determined by the key set |
| `Ordering.StringLessIsStrictTotal` | main.py:30 | the code-point lexicographic order used for contributor columns is irreflexive, transitive and total |
| `Pivot.Count` | main.py:30 | the size of a (date, contributor) group is the multiplicity of that record in the record list |
| `Pivot.Dates` | main.py:30 | the row index is strictly ascending and holds exactly the dates that occur in the records |
| `Pivot.Contributors` | main.py:30 | the columns are in strict lexicographic order and are exactly the contributors that occur in the records |
| `Pivot.PivotTable` | main.py:30 | the columns are sorted and are exactly the contributors that occur, and every row has a value in every column; its rows and cells are stated by `PivotShape` and `PivotCell` |
| `Pivot.PivotShape` | main.py:30 | the pivot's rows are the distinct dates ascending, its columns the distinct contributors sorted, every row has a value for every column, and each value is the multiplicity of its (date, contributor) |
| `Pivot.PivotCell` | main.py:30 | for every date and contributor, the cell equals the number of records equal to that pair, so it is 0 for a pair that no record has |
| `Pivot.PivotPermutationInvariant` | main.py:30 | two record lists that are permutations of each other give the same table |
| `Pivot.PivotConservesRecords` | main.py:30 | the cells of the pivot sum to the number of records |
| `Pivot.GenerateCommitReport` | main.py:27-31 | the report is the pivot of the extracted records, and its cells sum to the commit count of the qualifying pull requests |
| `Stats.WorkedDaysAtMostRows` | main.py:38 | a column's worked days are at most the number of data rows |
| `Stats.WorkedDaysAtMostTotal` | main.py:36-38 | a column's worked days are at most its total commits |
| `Stats.AddStats` | main.py:34-42 | the data rows come first, unchanged and in order; then "Total commits", then "Total worked days", both computed from the data rows only and over the contributor columns only; worked days are bounded by the row count and by the total |
| `Stats.PivotColumnTotal` | main.py:36-37 | over a pivot, a contributor's column sum equals the number of records by that contributor |
| `Stats.PivotWorkedDays` | main.py:38 | over a pivot, a contributor's worked days equal the number of distinct dates on which that contributor has a record |
| `Stats.ReportTotals` | main.py:36-41 | in the final report, the row after the data rows is labelled "Total commits" and holds the contributor's record count; the last row is labelled "Total worked days" and holds the number of distinct days, which is at most the count and at most the number of data rows |
| `Stats.EmptyReport` | main.py:29-41 | no records give no data rows and no columns, and two summary rows with no values |
| `Stats.TwoCommitterReport` | main.py:16-41 | one pull request merged on 2024-01-03 with alice's commit that day and bob's the next day gives rows alice=1,bob=0 and alice=0,bob=1, then totals 1,1 and worked days 1,1 |

## Left out

- Client construction, `get_repo`, `get_pulls` and `get_commits` (main.py:9-10, 15, 20) are network calls through a client library. The pull requests and their commits are taken as an in-memory sequence. So the fixed `state`, `sort` and `base='develop'` arguments, lazy pagination and remote errors are not modelled.
- `strptime` parsing and time-zone attachment (main.py:12-13) are library behaviour. Bounds are given as day numbers, and `Midnight` gives their instant.
- A commit timestamp `committedAt` is a `Timestamp` like every other instant: seconds since 1970-01-01T00:00:00 UTC. `.date()` (main.py:21) then gives its UTC calendar day, which is floor division by 86400. The model assumes that the client library reports committer dates in UTC. Any other offset it might attach is not modelled.
- The CSV round trip is not modelled: `to_csv`, `read_csv` and `commit_report.csv` (main.py:31, 35, 42) are file I/O. `AddStats` takes the pivot table directly, and the written report is the `Report` value.
- pandas internals are not modelled: frame construction, dtypes, and what the library does with an empty frame (main.py:29, 40-41). `Stats.EmptyReport` states the case directly: no data rows, no columns, and two summary rows with no values.
- A contributor email equal to the column name `date` would clash with the index column after the CSV round trip. The model keeps the date in its own field, so this clash is not modelled.
- The `__main__` block (main.py:45-49) holds hard-coded arguments only.
- Committer and title-keyword filters and a branch parameter are not part of `main.py`, so they are not modelled.
