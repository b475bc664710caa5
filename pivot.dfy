/** The count pivot of `generate_commit_report`: the extracted records become
    a table with one row per distinct date (ascending), one column per
    distinct contributor (in lexicographic order), and in each cell the
    number of records for that date and contributor, 0 where there is none. */
module Pivot {
  import opened Ordering
  import opened Commits

  /** A data row of the report: its date, and a count for every column. */
  datatype Row = Row(date: Day, counts: map<Email, nat>)

  datatype Table = Table(columns: seq<Email>, rows: seq<Row>)

  /** The number of records for date `d` and contributor `c`. */
  function Count(records: seq<CommitRecord>, d: Day, c: Email): (n: nat)
    ensures n == multiset(records)[CommitRecord(d, c)]
  {
    if records == [] then 0
    else
      assert records == records[..|records| - 1] + [records[|records| - 1]];
      Count(records[..|records| - 1], d, c) + (if records[|records| - 1] == CommitRecord(d, c) then 1 else 0)
  }

  /** The number of records by contributor `c`, whatever their date. */
  function CommitsBy(records: seq<CommitRecord>, c: Email): nat {
    if records == [] then 0
    else CommitsBy(records[..|records| - 1], c) + (if records[|records| - 1].contributor == c then 1 else 0)
  }

  /** The days on which contributor `c` has at least one record. */
  function DaysWorked(records: seq<CommitRecord>, c: Email): set<Day> {
    set r | r in records && r.contributor == c :: r.date
  }

  /** `f` applied to every element of `s`, in order: one column of a frame. */
  function Project<A, B>(s: seq<A>, f: A -> B): (r: seq<B>)
    ensures |r| == |s|
    ensures forall i :: 0 <= i < |s| ==> r[i] == f(s[i])
  {
    seq(|s|, i requires 0 <= i < |s| => f(s[i]))
  }

  function DateOfRecord(r: CommitRecord): Day { r.date }

  function ContributorOfRecord(r: CommitRecord): Email { r.contributor }

  /** The row keys of the pivot: the distinct record dates, ascending. */
  function Dates(records: seq<CommitRecord>): (ds: seq<Day>)
    ensures Sorted(DayLess, ds)
    ensures forall d :: d in ds <==> exists r :: r in records && r.date == d
  {
    DayLessIsStrictTotal();
    var col := Project(records, DateOfRecord);
    var ds := SortedElements(DayLess, col);
    assert forall d :: d in ds <==> d in Elements(col);
    assert forall d :: d in col <==> exists r :: r in records && r.date == d by {
      forall d ensures d in col <==> exists r :: r in records && r.date == d {
        if d in col {
          var i :| 0 <= i < |col| && col[i] == d;
          assert records[i] in records;
        }
        if exists r :: r in records && r.date == d {
          var r :| r in records && r.date == d;
          var i :| 0 <= i < |records| && records[i] == r;
          assert col[i] == d;
        }
      }
    }
    ds
  }

  /** The column keys of the pivot: the distinct contributors, in
      lexicographic order. */
  function Contributors(records: seq<CommitRecord>): (cs: seq<Email>)
    ensures Sorted(StringLess, cs)
    ensures forall c :: c in cs <==> exists r :: r in records && r.contributor == c
  {
    StringLessIsStrictTotal();
    var col := Project(records, ContributorOfRecord);
    var cs := SortedElements(StringLess, col);
    assert forall c :: c in cs <==> c in Elements(col);
    assert forall c :: c in col <==> exists r :: r in records && r.contributor == c by {
      forall c ensures c in col <==> exists r :: r in records && r.contributor == c {
        if c in col {
          var i :| 0 <= i < |col| && col[i] == c;
          assert records[i] in records;
        }
        if exists r :: r in records && r.contributor == c {
          var r :| r in records && r.contributor == c;
          var i :| 0 <= i < |records| && records[i] == r;
          assert col[i] == c;
        }
      }
    }
    cs
  }

  /** The row for date `d`: a count for each of the columns `cs`. */
  function RowFor(records: seq<CommitRecord>, d: Day, cs: seq<Email>): Row {
    Row(d, map c | c in cs :: Count(records, d, c))
  }

  /** One row per date of `ds`, in that order. */
  function Grid(records: seq<CommitRecord>, ds: seq<Day>, cs: seq<Email>): (rows: seq<Row>)
    ensures |rows| == |ds|
    ensures forall i :: 0 <= i < |ds| ==> rows[i] == RowFor(records, ds[i], cs)
  {
    seq(|ds|, i requires 0 <= i < |ds| => RowFor(records, ds[i], cs))
  }

  /** `pivot_table(index='date', columns='contributor', aggfunc='size',
      fill_value=0)`: a column for every contributor that occurs and no
      other, sorted, and a value in every column of every row.
      `PivotShape` and `PivotCell` give its rows and its cells. */
  function PivotTable(records: seq<CommitRecord>): (t: Table)
    ensures Sorted(StringLess, t.columns)
    ensures forall c :: c in t.columns <==> exists r :: r in records && r.contributor == c
    ensures forall i :: 0 <= i < |t.rows| ==> t.rows[i].counts.Keys == Elements(t.columns)
  {
    var cs := Contributors(records);
    Table(cs, Grid(records, Dates(records), cs))
  }

  function DateOfRow(row: Row): Day { row.date }

  /** The shape of the pivot: its rows are the distinct record dates in
      ascending order, its columns the distinct contributors in lexicographic
      order, every row has a value in every column, and that value is the
      number of records for its date and contributor. */
  lemma PivotShape(records: seq<CommitRecord>)
    ensures var t := PivotTable(records);
      && Sorted(DayLess, Project(t.rows, DateOfRow))
      && (forall d :: d in Project(t.rows, DateOfRow) <==> exists r :: r in records && r.date == d)
      && Sorted(StringLess, t.columns)
      && (forall c :: c in t.columns <==> exists r :: r in records && r.contributor == c)
      && (forall i :: 0 <= i < |t.rows| ==> t.rows[i].counts.Keys == Elements(t.columns))
      && (forall i, c :: 0 <= i < |t.rows| && c in t.rows[i].counts ==>
            t.rows[i].counts[c] == multiset(records)[CommitRecord(t.rows[i].date, c)])
  {
    var t := PivotTable(records);
    assert Project(t.rows, DateOfRow) == Dates(records);
  }

  /** The value at row `d`, column `c` of a table; 0 when the table has no
      such row or no such column. */
  function Cell(t: Table, d: Day, c: Email): nat {
    CellIn(t.rows, d, c)
  }

  function CellIn(rows: seq<Row>, d: Day, c: Email): nat {
    if rows == [] then 0
    else if rows[0].date == d then (if c in rows[0].counts then rows[0].counts[c] else 0)
    else CellIn(rows[1..], d, c)
  }

  lemma {:induction false} CellInAt(rows: seq<Row>, i: nat, c: Email)
    requires i < |rows|
    requires forall j :: 0 <= j < i ==> rows[j].date != rows[i].date
    ensures CellIn(rows, rows[i].date, c) == if c in rows[i].counts then rows[i].counts[c] else 0
  {
    if i > 0 {
      CellInAt(rows[1..], i - 1, c);
    }
  }

  lemma {:induction false} CellInAbsent(rows: seq<Row>, d: Day, c: Email)
    requires forall j :: 0 <= j < |rows| ==> rows[j].date != d
    ensures CellIn(rows, d, c) == 0
  {
    if rows != [] {
      CellInAbsent(rows[1..], d, c);
    }
  }

  lemma GridCell(records: seq<CommitRecord>, ds: seq<Day>, cs: seq<Email>, d: Day, c: Email)
    requires Distinct(ds)
    requires forall r :: r in records ==> r.date in ds && r.contributor in cs
    ensures CellIn(Grid(records, ds, cs), d, c) == multiset(records)[CommitRecord(d, c)]
  {
    var rows := Grid(records, ds, cs);
    if i :| 0 <= i < |ds| && ds[i] == d {
      CellInAt(rows, i, c);
      if c !in cs {
        assert CommitRecord(d, c) !in records;
      }
    } else {
      CellInAbsent(rows, d, c);
      assert CommitRecord(d, c) !in records;
    }
  }

  /** Every cell of the pivot, present or not, is the number of records for
      its date and contributor: in particular it is 0 for a pair that no
      record has. */
  lemma PivotCell(records: seq<CommitRecord>, d: Day, c: Email)
    ensures Cell(PivotTable(records), d, c) == multiset(records)[CommitRecord(d, c)]
  {
    var ds, cs := Dates(records), Contributors(records);
    DayLessIsStrictTotal();
    SortedIsDistinct(DayLess, ds);
    GridCell(records, ds, cs, d, c);
  }

  lemma DatesDependOnElements(a: seq<CommitRecord>, b: seq<CommitRecord>)
    requires forall r :: r in a <==> r in b
    ensures Dates(a) == Dates(b)
  {
    var da, db := Dates(a), Dates(b);
    DayLessIsStrictTotal();
    assert Elements(da) == Elements(db);
    SortedUnique(DayLess, da, db);
  }

  lemma ContributorsDependOnElements(a: seq<CommitRecord>, b: seq<CommitRecord>)
    requires forall r :: r in a <==> r in b
    ensures Contributors(a) == Contributors(b)
  {
    var ca, cb := Contributors(a), Contributors(b);
    StringLessIsStrictTotal();
    assert Elements(ca) == Elements(cb);
    SortedUnique(StringLess, ca, cb);
  }

  lemma GridDependsOnMultiset(a: seq<CommitRecord>, b: seq<CommitRecord>, ds: seq<Day>, cs: seq<Email>)
    requires multiset(a) == multiset(b)
    ensures Grid(a, ds, cs) == Grid(b, ds, cs)
  {
    forall i | 0 <= i < |ds| ensures RowFor(a, ds[i], cs) == RowFor(b, ds[i], cs) {
      assert forall c :: Count(a, ds[i], c) == Count(b, ds[i], c);
    }
  }

  /** The pivot depends only on the multiset of records: permuting the
      extracted list leaves the table unchanged. */
  lemma PivotPermutationInvariant(a: seq<CommitRecord>, b: seq<CommitRecord>)
    requires multiset(a) == multiset(b)
    ensures PivotTable(a) == PivotTable(b)
  {
    forall r ensures r in a <==> r in b {
      assert r in a <==> r in multiset(a);
      assert r in b <==> r in multiset(b);
    }
    DatesDependOnElements(a, b);
    ContributorsDependOnElements(a, b);
    GridDependsOnMultiset(a, b, Dates(a), Contributors(a));
  }

  // Sums over a table, and the record count they add up to.

  /** The sum of a row's values over the given columns. */
  function RowTotal(columns: seq<Email>, counts: map<Email, nat>): nat {
    if columns == [] then 0
    else (if columns[0] in counts then counts[columns[0]] else 0) + RowTotal(columns[1..], counts)
  }

  function RowsTotal(columns: seq<Email>, rows: seq<Row>): nat {
    if rows == [] then 0
    else RowTotal(columns, rows[0].counts) + RowsTotal(columns, rows[1..])
  }

  /** The sum of all cells of a table. */
  function TableTotal(t: Table): nat {
    RowsTotal(t.columns, t.rows)
  }

  /** Sum of the counts of date `d` over the contributors `cs`. */
  function DaySum(records: seq<CommitRecord>, d: Day, cs: seq<Email>): nat {
    if cs == [] then 0 else Count(records, d, cs[0]) + DaySum(records, d, cs[1..])
  }

  /** Sum of the counts over the dates `ds` and contributors `cs`. */
  function GridSum(records: seq<CommitRecord>, ds: seq<Day>, cs: seq<Email>): nat {
    if ds == [] then 0 else DaySum(records, ds[0], cs) + GridSum(records, ds[1..], cs)
  }

  /** The number of records whose date is in `ds` and contributor in `cs`. */
  function CountWithin(records: seq<CommitRecord>, ds: seq<Day>, cs: seq<Email>): nat {
    if records == [] then 0
    else
      var r := records[|records| - 1];
      CountWithin(records[..|records| - 1], ds, cs) + (if r.date in ds && r.contributor in cs then 1 else 0)
  }

  lemma {:induction false} DaySumSnoc(records: seq<CommitRecord>, r: CommitRecord, d: Day, cs: seq<Email>)
    requires Distinct(cs)
    ensures DaySum(records + [r], d, cs) ==
            DaySum(records, d, cs) + (if r.date == d && r.contributor in cs then 1 else 0)
  {
    var rs := records + [r];
    assert rs[..|rs| - 1] == records;
    if cs != [] {
      assert Distinct(cs[1..]);
      assert cs[0] !in cs[1..];
      DaySumSnoc(records, r, d, cs[1..]);
    }
  }

  lemma {:induction false} GridSumSnoc(records: seq<CommitRecord>, r: CommitRecord, ds: seq<Day>, cs: seq<Email>)
    requires Distinct(ds) && Distinct(cs)
    ensures GridSum(records + [r], ds, cs) ==
            GridSum(records, ds, cs) + (if r.date in ds && r.contributor in cs then 1 else 0)
  {
    if ds != [] {
      assert Distinct(ds[1..]);
      assert ds[0] !in ds[1..];
      DaySumSnoc(records, r, ds[0], cs);
      GridSumSnoc(records, r, ds[1..], cs);
    }
  }

  /** Over duplicate-free keys, the grid of counts adds up to the number of
      records whose keys are in the grid. */
  lemma {:induction false} GridSumCountsRecords(records: seq<CommitRecord>, ds: seq<Day>, cs: seq<Email>)
    requires Distinct(ds) && Distinct(cs)
    ensures GridSum(records, ds, cs) == CountWithin(records, ds, cs)
    decreases |records|
  {
    if records == [] {
      GridSumOfNothing(ds, cs);
    } else {
      var front := records[..|records| - 1];
      assert records == front + [records[|records| - 1]];
      GridSumCountsRecords(front, ds, cs);
      GridSumSnoc(front, records[|records| - 1], ds, cs);
    }
  }

  lemma {:induction false} GridSumOfNothing(ds: seq<Day>, cs: seq<Email>)
    ensures GridSum([], ds, cs) == 0
  {
    if ds != [] {
      DaySumOfNothing(ds[0], cs);
      GridSumOfNothing(ds[1..], cs);
    }
  }

  lemma {:induction false} DaySumOfNothing(d: Day, cs: seq<Email>)
    ensures DaySum([], d, cs) == 0
  {
    if cs != [] {
      DaySumOfNothing(d, cs[1..]);
    }
  }

  lemma {:induction false} CountWithinCovering(records: seq<CommitRecord>, ds: seq<Day>, cs: seq<Email>)
    requires forall r :: r in records ==> r.date in ds && r.contributor in cs
    ensures CountWithin(records, ds, cs) == |records|
  {
    if records != [] {
      var front := records[..|records| - 1];
      assert records[|records| - 1] in records;
      assert forall r :: r in front ==> r in records;
      CountWithinCovering(front, ds, cs);
    }
  }

  lemma {:induction false} RowTotalIsDaySum(records: seq<CommitRecord>, d: Day, cs: seq<Email>, counts: map<Email, nat>)
    requires forall c :: c in cs ==> c in counts && counts[c] == Count(records, d, c)
    ensures RowTotal(cs, counts) == DaySum(records, d, cs)
  {
    if cs != [] {
      RowTotalIsDaySum(records, d, cs[1..], counts);
    }
  }

  lemma {:induction false} RowsTotalIsGridSum(records: seq<CommitRecord>, ds: seq<Day>, cs: seq<Email>, rows: seq<Row>)
    requires |rows| == |ds|
    requires forall i :: 0 <= i < |rows| ==> rows[i] == RowFor(records, ds[i], cs)
    ensures RowsTotal(cs, rows) == GridSum(records, ds, cs)
  {
    if rows != [] {
      RowTotalIsDaySum(records, ds[0], cs, rows[0].counts);
      RowsTotalIsGridSum(records, ds[1..], cs, rows[1..]);
    }
  }

  /** The cells of the pivot add up to the number of extracted records. */
  lemma PivotConservesRecords(records: seq<CommitRecord>)
    ensures TableTotal(PivotTable(records)) == |records|
  {
    var ds, cs := Dates(records), Contributors(records);
    DayLessIsStrictTotal();
    StringLessIsStrictTotal();
    SortedIsDistinct(DayLess, ds);
    SortedIsDistinct(StringLess, cs);
    RowsTotalIsGridSum(records, ds, cs, PivotTable(records).rows);
    GridSumCountsRecords(records, ds, cs);
    CountWithinCovering(records, ds, cs);
  }

  /** `generate_commit_report`: extract the records, then pivot them. */
  method GenerateCommitReport(pulls: seq<PullRequest>, startDay: Day, endDay: Day) returns (report: Table)
    ensures report == PivotTable(Extracted(pulls, startDay, endDay))
    ensures TableTotal(report) == QualifyingCommitCount(pulls, startDay, endDay)
  {
    var commitsInfo := FetchCommitData(pulls, startDay, endDay);
    report := PivotTable(commitsInfo);
    PivotConservesRecords(commitsInfo);
    ExtractedLength(pulls, startDay, endDay);
  }
}
