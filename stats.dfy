/** `add_stats`: two summary rows appended below the data rows of a report,
    "Total commits" (each column's sum over the data rows) and then
    "Total worked days" (each column's number of data rows with a positive
    value). The date column is a label, not a number, and takes part in
    neither. */
module Stats {
  import opened Ordering
  import opened Commits
  import opened Pivot

  const TotalCommitsLabel: string := "Total commits"
  const TotalWorkedDaysLabel: string := "Total worked days"

  /** The first column of an output row: the date of a data row, or the text
      label of a summary row. */
  datatype Label = Date(day: Day) | Text(text: string)

  datatype ReportRow = ReportRow(index: Label, values: map<Email, nat>)

  datatype Report = Report(columns: seq<Email>, rows: seq<ReportRow>)

  /** The value of a data row in column `c`. */
  function Value(row: Row, c: Email): nat {
    if c in row.counts then row.counts[c] else 0
  }

  /** Column `c` summed over the data rows. */
  function ColumnTotal(rows: seq<Row>, c: Email): nat {
    if rows == [] then 0 else Value(rows[0], c) + ColumnTotal(rows[1..], c)
  }

  /** The number of data rows with a positive value in column `c`. */
  function WorkedDays(rows: seq<Row>, c: Email): nat {
    if rows == [] then 0 else (if Value(rows[0], c) > 0 then 1 else 0) + WorkedDays(rows[1..], c)
  }

  function TotalCommitsRow(t: Table): map<Email, nat> {
    map c | c in t.columns :: ColumnTotal(t.rows, c)
  }

  function TotalWorkedDaysRow(t: Table): map<Email, nat> {
    map c | c in t.columns :: WorkedDays(t.rows, c)
  }

  /** A column has positive values on at most as many rows as there are. */
  lemma {:induction false} WorkedDaysAtMostRows(rows: seq<Row>, c: Email)
    ensures WorkedDays(rows, c) <= |rows|
  {
    if rows != [] {
      WorkedDaysAtMostRows(rows[1..], c);
    }
  }

  /** Every positive value is at least 1, so a column's worked days never
      exceed its total. */
  lemma {:induction false} WorkedDaysAtMostTotal(rows: seq<Row>, c: Email)
    ensures WorkedDays(rows, c) <= ColumnTotal(rows, c)
  {
    if rows != [] {
      WorkedDaysAtMostTotal(rows[1..], c);
    }
  }

  /** `add_stats`: the data rows, unchanged and in order, then the
      "Total commits" row, then the "Total worked days" row, both computed
      from the data rows alone. */
  function AddStats(t: Table): (r: Report)
    ensures r.columns == t.columns
    ensures |r.rows| == |t.rows| + 2
    ensures forall i :: 0 <= i < |t.rows| ==> r.rows[i] == ReportRow(Date(t.rows[i].date), t.rows[i].counts)
    ensures r.rows[|t.rows|] == ReportRow(Text(TotalCommitsLabel), TotalCommitsRow(t))
    ensures r.rows[|t.rows| + 1] == ReportRow(Text(TotalWorkedDaysLabel), TotalWorkedDaysRow(t))
    ensures forall c :: c in t.columns ==>
              r.rows[|t.rows| + 1].values[c] <= |t.rows| &&
              r.rows[|t.rows| + 1].values[c] <= r.rows[|t.rows|].values[c]
  {
    forall c | c in t.columns
      ensures WorkedDays(t.rows, c) <= |t.rows| && WorkedDays(t.rows, c) <= ColumnTotal(t.rows, c)
    {
      WorkedDaysAtMostRows(t.rows, c);
      WorkedDaysAtMostTotal(t.rows, c);
    }
    var data := seq(|t.rows|, i requires 0 <= i < |t.rows| => ReportRow(Date(t.rows[i].date), t.rows[i].counts));
    Report(t.columns, data + [ReportRow(Text(TotalCommitsLabel), TotalCommitsRow(t)),
                              ReportRow(Text(TotalWorkedDaysLabel), TotalWorkedDaysRow(t))])
  }

  // The summary rows of a pivot, in terms of the extracted records.

  lemma {:induction false} GridColumnTotal(records: seq<CommitRecord>, ds: seq<Day>, cs: seq<Email>, c: Email)
    requires c in cs
    ensures ColumnTotal(Grid(records, ds, cs), c) == GridSum(records, ds, [c])
  {
    if ds != [] {
      var rows := Grid(records, ds, cs);
      assert rows[1..] == Grid(records, ds[1..], cs);
      assert [c][1..] == [];
      assert Value(rows[0], c) == Count(records, ds[0], c);
      assert DaySum(records, ds[0], [c]) == Count(records, ds[0], c) + DaySum(records, ds[0], []);
      GridColumnTotal(records, ds[1..], cs, c);
    }
  }

  lemma {:induction false} ColumnOfAbsentContributor(rows: seq<Row>, c: Email)
    requires forall i :: 0 <= i < |rows| ==> c !in rows[i].counts
    ensures ColumnTotal(rows, c) == 0 && WorkedDays(rows, c) == 0
  {
    if rows != [] {
      ColumnOfAbsentContributor(rows[1..], c);
    }
  }

  lemma {:induction false} CountWithinOneContributor(records: seq<CommitRecord>, ds: seq<Day>, c: Email)
    requires forall r :: r in records ==> r.date in ds
    ensures CountWithin(records, ds, [c]) == CommitsBy(records, c)
  {
    if records != [] {
      var front := records[..|records| - 1];
      assert records[|records| - 1] in records;
      assert forall r :: r in front ==> r in records;
      CountWithinOneContributor(front, ds, c);
    }
  }

  lemma {:induction false} CommitsByAbsent(records: seq<CommitRecord>, c: Email)
    requires forall r :: r in records ==> r.contributor != c
    ensures CommitsBy(records, c) == 0
  {
    if records != [] {
      var front := records[..|records| - 1];
      assert records[|records| - 1] in records;
      assert forall r :: r in front ==> r in records;
      CommitsByAbsent(front, c);
    }
  }

  /** In a pivot, the "Total commits" value of a contributor is the number of
      extracted records by that contributor. */
  lemma PivotColumnTotal(records: seq<CommitRecord>, c: Email)
    ensures ColumnTotal(PivotTable(records).rows, c) == CommitsBy(records, c)
  {
    var ds, cs := Dates(records), Contributors(records);
    var rows := PivotTable(records).rows;
    if c in cs {
      DayLessIsStrictTotal();
      StringLessIsStrictTotal();
      SortedIsDistinct(DayLess, ds);
      GridColumnTotal(records, ds, cs, c);
      GridSumCountsRecords(records, ds, [c]);
      CountWithinOneContributor(records, ds, c);
    } else {
      ColumnOfAbsentContributor(rows, c);
      CommitsByAbsent(records, c);
    }
  }

  /** Over rows with distinct dates, the number of rows with a positive value
      in column `c` is the number of dates in `days`, when `days` holds just
      the dates of those rows. */
  lemma {:induction false} WorkedDaysCountsDays(rows: seq<Row>, c: Email, days: set<Day>)
    requires forall i, j :: 0 <= i < j < |rows| ==> rows[i].date != rows[j].date
    requires forall i :: 0 <= i < |rows| ==> (Value(rows[i], c) > 0 <==> rows[i].date in days)
    requires forall d :: d in days ==> exists i :: 0 <= i < |rows| && rows[i].date == d
    ensures WorkedDays(rows, c) == |days|
  {
    if rows == [] {
      assert forall d :: d !in days;
      assert days == {};
    } else {
      var d0, tail := rows[0].date, rows[1..];
      var rest := days - {d0};
      assert forall i :: 0 <= i < |tail| ==> tail[i] == rows[i + 1];
      forall d | d in rest ensures exists i :: 0 <= i < |tail| && tail[i].date == d {
        var j :| 0 <= j < |rows| && rows[j].date == d;
        assert tail[j - 1] == rows[j];
      }
      WorkedDaysCountsDays(tail, c, rest);
      if d0 in days {
        assert days == rest + {d0};
      } else {
        assert days == rest;
      }
    }
  }

  lemma PivotRowsDistinct(records: seq<CommitRecord>)
    ensures var rows := PivotTable(records).rows;
            forall i, j :: 0 <= i < j < |rows| ==> rows[i].date != rows[j].date
  {
    var rows := PivotTable(records).rows;
    PivotShape(records);
    DayLessIsStrictTotal();
    SortedIsDistinct(DayLess, Project(rows, DateOfRow));
    assert forall i, j :: 0 <= i < j < |rows| ==> Project(rows, DateOfRow)[i] != Project(rows, DateOfRow)[j];
  }

  lemma PivotRowsPositive(records: seq<CommitRecord>, c: Email)
    ensures var rows := PivotTable(records).rows;
            forall i :: 0 <= i < |rows| ==> (Value(rows[i], c) > 0 <==> rows[i].date in DaysWorked(records, c))
  {
    var t := PivotTable(records);
    var days := DaysWorked(records, c);
    PivotShape(records);
    forall i | 0 <= i < |t.rows| ensures Value(t.rows[i], c) > 0 <==> t.rows[i].date in days {
      var d := t.rows[i].date;
      if Value(t.rows[i], c) > 0 {
        assert CommitRecord(d, c) in multiset(records);
        assert CommitRecord(d, c) in records;
      }
      if d in days {
        var r :| r in records && r.contributor == c && r.date == d;
        assert r == CommitRecord(d, c);
        assert c in t.columns;
      }
    }
  }

  lemma PivotRowsCover(records: seq<CommitRecord>, c: Email)
    ensures var rows := PivotTable(records).rows;
            forall d :: d in DaysWorked(records, c) ==> exists i :: 0 <= i < |rows| && rows[i].date == d
  {
    var rows := PivotTable(records).rows;
    PivotShape(records);
    forall d | d in DaysWorked(records, c) ensures exists i :: 0 <= i < |rows| && rows[i].date == d {
      var r :| r in records && r.contributor == c && r.date == d;
      assert d in Project(rows, DateOfRow);
    }
  }

  /** In a pivot, the "Total worked days" value of a contributor is the number
      of distinct days on which that contributor has a record. */
  lemma PivotWorkedDays(records: seq<CommitRecord>, c: Email)
    ensures WorkedDays(PivotTable(records).rows, c) == |DaysWorked(records, c)|
  {
    PivotRowsDistinct(records);
    PivotRowsPositive(records, c);
    PivotRowsCover(records, c);
    WorkedDaysCountsDays(PivotTable(records).rows, c, DaysWorked(records, c));
  }

  /** The summary rows of the report built from the extracted records: for
      every contributor, "Total commits" is the number of that contributor's
      records and "Total worked days" the number of distinct days among them,
      which is at most that total and at most the number of data rows. */
  lemma ReportTotals(records: seq<CommitRecord>, c: Email)
    requires exists r :: r in records && r.contributor == c
    ensures var t := PivotTable(records);
            var report := AddStats(t);
            var n := |t.rows|;
            && report.rows[n].index == Text(TotalCommitsLabel)
            && report.rows[n].values[c] == CommitsBy(records, c)
            && report.rows[n + 1].index == Text(TotalWorkedDaysLabel)
            && report.rows[n + 1].values[c] == |DaysWorked(records, c)|
            && |DaysWorked(records, c)| <= CommitsBy(records, c)
            && |DaysWorked(records, c)| <= n
  {
    var t := PivotTable(records);
    assert c in t.columns;
    PivotColumnTotal(records, c);
    PivotWorkedDays(records, c);
    WorkedDaysAtMostRows(t.rows, c);
    WorkedDaysAtMostTotal(t.rows, c);
  }

  /** No records: no data rows, no columns, and two empty summary rows. */
  lemma EmptyReport()
    ensures AddStats(PivotTable([])) ==
            Report([], [ReportRow(Text(TotalCommitsLabel), map[]), ReportRow(Text(TotalWorkedDaysLabel), map[])])
  {
    assert Project([], DateOfRecord) == [];
    assert Project([], ContributorOfRecord) == [];
  }

  /** One pull request merged on 2024-01-03 (day 19725) with a commit by
      alice on that day and one by bob on 2024-01-04, reported over
      2024-01-01 to 2024-05-01 (days 19723 to 19844): one row per day, a
      column per committer, and totals of 1 commit on 1 day each. */
  lemma TwoCommitterReport()
    ensures var alice, bob := "alice@x.com", "bob@x.com";
            var pull := PullRequest(Some(Midnight(19725) + 36000),
                                    [Commit(Midnight(19725) + 3600, alice), Commit(Midnight(19726) + 7200, bob)]);
            AddStats(PivotTable(Extracted([pull], 19723, 19844))) ==
            Report([alice, bob],
                   [ReportRow(Date(19725), map[alice := 1, bob := 0]),
                    ReportRow(Date(19726), map[alice := 0, bob := 1]),
                    ReportRow(Text(TotalCommitsLabel), map[alice := 1, bob := 1]),
                    ReportRow(Text(TotalWorkedDaysLabel), map[alice := 1, bob := 1])])
  {
    TwoCommitterExtraction();
    TwoCommitterPivot();
    TwoCommitterStats();
  }

  lemma TwoCommitterStats()
    ensures var alice, bob := "alice@x.com", "bob@x.com";
            AddStats(Table([alice, bob], [Row(19725, map[alice := 1, bob := 0]), Row(19726, map[alice := 0, bob := 1])])) ==
            Report([alice, bob],
                   [ReportRow(Date(19725), map[alice := 1, bob := 0]),
                    ReportRow(Date(19726), map[alice := 0, bob := 1]),
                    ReportRow(Text(TotalCommitsLabel), map[alice := 1, bob := 1]),
                    ReportRow(Text(TotalWorkedDaysLabel), map[alice := 1, bob := 1])])
  {
    var alice, bob := "alice@x.com", "bob@x.com";
    var t := Table([alice, bob], [Row(19725, map[alice := 1, bob := 0]), Row(19726, map[alice := 0, bob := 1])]);
    assert alice[0] != bob[0];
    assert t.rows[1..] == [t.rows[1]] && t.rows[1..][1..] == [];
    assert Value(t.rows[0], alice) == 1 && Value(t.rows[0], bob) == 0;
    assert Value(t.rows[1], alice) == 0 && Value(t.rows[1], bob) == 1;
    assert ColumnTotal(t.rows[1..], alice) == 0 && ColumnTotal(t.rows[1..], bob) == 1;
    assert WorkedDays(t.rows[1..], alice) == 0 && WorkedDays(t.rows[1..], bob) == 1;
    assert ColumnTotal(t.rows, alice) == 1 && ColumnTotal(t.rows, bob) == 1;
    assert WorkedDays(t.rows, alice) == 1 && WorkedDays(t.rows, bob) == 1;
    assert TotalCommitsRow(t) == map[alice := 1, bob := 1];
    assert TotalWorkedDaysRow(t) == map[alice := 1, bob := 1];
  }

  lemma TwoCommitterExtraction()
    ensures var alice, bob := "alice@x.com", "bob@x.com";
            var pull := PullRequest(Some(Midnight(19725) + 36000),
                                    [Commit(Midnight(19725) + 3600, alice), Commit(Midnight(19726) + 7200, bob)]);
            Extracted([pull], 19723, 19844) == [CommitRecord(19725, alice), CommitRecord(19726, bob)]
  {
    var alice, bob := "alice@x.com", "bob@x.com";
    var commits := [Commit(Midnight(19725) + 3600, alice), Commit(Midnight(19726) + 7200, bob)];
    var pull := PullRequest(Some(Midnight(19725) + 36000), commits);
    assert [pull][..0] == [];
    assert DateOf(Midnight(19725) + 3600) == 19725;
    assert DateOf(Midnight(19726) + 7200) == 19726;
    RecordsAt(commits, 0);
    RecordsAt(commits, 1);
  }

  lemma TwoCommitterDates()
    ensures Dates([CommitRecord(19725, "alice@x.com"), CommitRecord(19726, "bob@x.com")]) == [19725, 19726]
  {
    var records := [CommitRecord(19725, "alice@x.com"), CommitRecord(19726, "bob@x.com")];
    var ds := Dates(records);
    DayLessIsStrictTotal();
    forall d ensures d in ds <==> d in [19725, 19726] {
      assert d in ds <==> exists r :: r in records && r.date == d;
      assert records[0] in records && records[1] in records;
    }
    assert Elements(ds) == Elements([19725, 19726]);
    SortedUnique(DayLess, ds, [19725, 19726]);
  }

  lemma TwoCommitterContributorSet()
    ensures Elements(Contributors([CommitRecord(19725, "alice@x.com"), CommitRecord(19726, "bob@x.com")])) ==
            Elements(["alice@x.com", "bob@x.com"])
  {
    var records := [CommitRecord(19725, "alice@x.com"), CommitRecord(19726, "bob@x.com")];
    var cs := Contributors(records);
    forall c ensures c in cs <==> c in ["alice@x.com", "bob@x.com"] {
      assert c in cs <==> exists r :: r in records && r.contributor == c;
      assert records[0] in records && records[1] in records;
    }
  }

  /** The two committers' identifiers in lexicographic order are the only
      sorted arrangement of them. */
  lemma TwoCommitterOrder(cs: seq<Email>)
    requires Sorted(StringLess, cs)
    requires Elements(cs) == Elements(["alice@x.com", "bob@x.com"])
    ensures cs == ["alice@x.com", "bob@x.com"]
  {
    StringLessIsStrictTotal();
    assert StringLess("alice@x.com", "bob@x.com");
    SortedUnique(StringLess, cs, ["alice@x.com", "bob@x.com"]);
  }

  lemma TwoCommitterContributors()
    ensures Contributors([CommitRecord(19725, "alice@x.com"), CommitRecord(19726, "bob@x.com")]) == ["alice@x.com", "bob@x.com"]
  {
    TwoCommitterContributorSet();
    TwoCommitterOrder(Contributors([CommitRecord(19725, "alice@x.com"), CommitRecord(19726, "bob@x.com")]));
  }

  lemma TwoCommitterCounts()
    ensures var records := [CommitRecord(19725, "alice@x.com"), CommitRecord(19726, "bob@x.com")];
            && RowFor(records, 19725, ["alice@x.com", "bob@x.com"]) == Row(19725, map["alice@x.com" := 1, "bob@x.com" := 0])
            && RowFor(records, 19726, ["alice@x.com", "bob@x.com"]) == Row(19726, map["alice@x.com" := 0, "bob@x.com" := 1])
  {
    var records := [CommitRecord(19725, "alice@x.com"), CommitRecord(19726, "bob@x.com")];
    assert records[..1] == [records[0]];
    assert records[..1][..0] == [];
    assert Count(records, 19725, "alice@x.com") == 1 && Count(records, 19725, "bob@x.com") == 0;
    assert Count(records, 19726, "alice@x.com") == 0 && Count(records, 19726, "bob@x.com") == 1;
  }

  lemma TwoCommitterPivot()
    ensures var alice, bob := "alice@x.com", "bob@x.com";
            PivotTable([CommitRecord(19725, alice), CommitRecord(19726, bob)]) ==
            Table([alice, bob], [Row(19725, map[alice := 1, bob := 0]), Row(19726, map[alice := 0, bob := 1])])
  {
    TwoCommitterDates();
    TwoCommitterContributors();
    TwoCommitterGrid();
  }

  lemma TwoCommitterGrid()
    ensures var alice, bob := "alice@x.com", "bob@x.com";
            Grid([CommitRecord(19725, alice), CommitRecord(19726, bob)], [19725, 19726], [alice, bob]) ==
            [Row(19725, map[alice := 1, bob := 0]), Row(19726, map[alice := 0, bob := 1])]
  {
    var records := [CommitRecord(19725, "alice@x.com"), CommitRecord(19726, "bob@x.com")];
    var cs := ["alice@x.com", "bob@x.com"];
    TwoCommitterCounts();
    var rows := Grid(records, [19725, 19726], cs);
    assert rows == [RowFor(records, 19725, cs), RowFor(records, 19726, cs)];
  }
}
