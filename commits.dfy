/** The pull requests of a repository, their commits, and the extraction of
    one (date, contributor) record per commit of every pull request merged
    inside the reporting window (`fetch_commit_data`). */
module Commits {

  datatype Option<T> = None | Some(value: T)

  /** A calendar day, counted from 1970-01-01. */
  type Day = int

  /** An instant, in seconds since 1970-01-01T00:00:00 UTC. */
  type Timestamp = int

  type Email = string

  const SecondsPerDay: int := 86400

  /** 00:00 UTC of `day`: what a `YYYY-MM-DD` bound parses to. */
  function Midnight(day: Day): Timestamp {
    day * SecondsPerDay
  }

  /** The calendar day of an instant: the time of day is dropped. */
  function DateOf(t: Timestamp): (day: Day)
    ensures Midnight(day) <= t < Midnight(day + 1)
  {
    t / SecondsPerDay
  }

  datatype Commit = Commit(committedAt: Timestamp, committerEmail: Email)

  /** A closed pull request: `mergedAt` is `None` when it was closed without
      being merged. */
  datatype PullRequest = PullRequest(mergedAt: Option<Timestamp>, commits: seq<Commit>)

  /** One row of the extracted data: the day of a commit and its committer. */
  datatype CommitRecord = CommitRecord(date: Day, contributor: Email)

  /** The window test on a merge instant: both bounds are midnight UTC of the
      given days, and both are inclusive. */
  predicate InWindow(t: Timestamp, startDay: Day, endDay: Day) {
    Midnight(startDay) <= t <= Midnight(endDay)
  }

  /** A pull request is reported when it was merged inside the window. */
  predicate Qualifies(pull: PullRequest, startDay: Day, endDay: Day) {
    pull.mergedAt.Some? && InWindow(pull.mergedAt.value, startDay, endDay)
  }

  function RecordOf(commit: Commit): CommitRecord {
    CommitRecord(DateOf(commit.committedAt), commit.committerEmail)
  }

  /** One record per commit, in the order of the commits. */
  function Records(commits: seq<Commit>): (rs: seq<CommitRecord>)
    ensures |rs| == |commits|
  {
    if commits == [] then []
    else Records(commits[..|commits| - 1]) + [RecordOf(commits[|commits| - 1])]
  }

  /** The k-th record is the date and committer of the k-th commit. */
  lemma {:induction false} RecordsAt(commits: seq<Commit>, k: int)
    requires 0 <= k < |commits|
    ensures Records(commits)[k] == RecordOf(commits[k])
    decreases |commits|
  {
    if k < |commits| - 1 {
      RecordsAt(commits[..|commits| - 1], k);
    }
  }

  /** What one pull request adds to the extracted list. */
  function Contribution(pull: PullRequest, startDay: Day, endDay: Day): seq<CommitRecord> {
    if Qualifies(pull, startDay, endDay) then Records(pull.commits) else []
  }

  /** The extracted list: the contributions of the pull requests, in the
      order the pull requests are listed. */
  function Extracted(pulls: seq<PullRequest>, startDay: Day, endDay: Day): seq<CommitRecord> {
    if pulls == [] then []
    else Extracted(pulls[..|pulls| - 1], startDay, endDay) + Contribution(pulls[|pulls| - 1], startDay, endDay)
  }

  /** The commit count of the qualifying pull requests. */
  function QualifyingCommitCount(pulls: seq<PullRequest>, startDay: Day, endDay: Day): nat {
    if pulls == [] then 0
    else (if Qualifies(pulls[0], startDay, endDay) then |pulls[0].commits| else 0)
         + QualifyingCommitCount(pulls[1..], startDay, endDay)
  }

  /** `fetch_commit_data`: walks the pull requests and, for each one merged
      inside the window, appends a record for every one of its commits. */
  method FetchCommitData(pulls: seq<PullRequest>, startDay: Day, endDay: Day)
    returns (commitsInfo: seq<CommitRecord>)
    ensures commitsInfo == Extracted(pulls, startDay, endDay)
  {
    var start := Midnight(startDay);
    var end := Midnight(endDay);
    commitsInfo := [];
    for i := 0 to |pulls|
      invariant commitsInfo == Extracted(pulls[..i], startDay, endDay)
    {
      var pull := pulls[i];
      if pull.mergedAt.Some? && start <= pull.mergedAt.value <= end {
        for j := 0 to |pull.commits|
          invariant commitsInfo == Extracted(pulls[..i], startDay, endDay) + Records(pull.commits[..j])
        {
          var commit := pull.commits[j];
          var commitDate := DateOf(commit.committedAt);
          commitsInfo := commitsInfo + [CommitRecord(commitDate, commit.committerEmail)];
          assert pull.commits[..j + 1][..j] == pull.commits[..j];
        }
        assert pull.commits[..|pull.commits|] == pull.commits;
      }
      assert pulls[..i + 1][..i] == pulls[..i];
    }
    assert pulls[..|pulls|] == pulls;
  }

  /** Extraction distributes over concatenation: the records keep the order in
      which the pull requests are traversed. */
  lemma {:induction false} ExtractedAppend(a: seq<PullRequest>, b: seq<PullRequest>, startDay: Day, endDay: Day)
    ensures Extracted(a + b, startDay, endDay) == Extracted(a, startDay, endDay) + Extracted(b, startDay, endDay)
    decreases |b|
  {
    if b == [] {
      assert a + b == a;
    } else {
      var b' := b[..|b| - 1];
      assert (a + b)[..|a + b| - 1] == a + b';
      assert (a + b)[|a + b| - 1] == b[|b| - 1];
      ExtractedAppend(a, b', startDay, endDay);
    }
  }

  /** The extracted list has one record per commit of every qualifying pull
      request, and no other. */
  lemma {:induction false} ExtractedLength(pulls: seq<PullRequest>, startDay: Day, endDay: Day)
    ensures |Extracted(pulls, startDay, endDay)| == QualifyingCommitCount(pulls, startDay, endDay)
    decreases |pulls|
  {
    if pulls != [] {
      assert pulls == [pulls[0]] + pulls[1..];
      ExtractedAppend([pulls[0]], pulls[1..], startDay, endDay);
      assert [pulls[0]][..0] == [];
      ExtractedLength(pulls[1..], startDay, endDay);
    }
  }

  /** A record is extracted if and only if it is the record of some commit of
      some qualifying pull request. */
  lemma {:induction false} ExtractedMembership(pulls: seq<PullRequest>, startDay: Day, endDay: Day, r: CommitRecord)
    ensures r in Extracted(pulls, startDay, endDay) <==>
            exists i, k :: 0 <= i < |pulls| && Qualifies(pulls[i], startDay, endDay) &&
                           0 <= k < |pulls[i].commits| && r == RecordOf(pulls[i].commits[k])
    decreases |pulls|
  {
    if pulls != [] {
      var n := |pulls| - 1;
      var front := pulls[..n];
      ExtractedMembership(front, startDay, endDay, r);
      if r in Extracted(pulls, startDay, endDay) {
        if r in Extracted(front, startDay, endDay) {
          var i, k :| 0 <= i < |front| && Qualifies(front[i], startDay, endDay) &&
                      0 <= k < |front[i].commits| && r == RecordOf(front[i].commits[k]);
          assert front[i] == pulls[i];
        } else {
          var c := Contribution(pulls[n], startDay, endDay);
          assert r in c;
          var k :| 0 <= k < |c| && c[k] == r;
          RecordsAt(pulls[n].commits, k);
        }
      } else {
        forall i, k | 0 <= i < |pulls| && Qualifies(pulls[i], startDay, endDay) && 0 <= k < |pulls[i].commits|
          ensures r != RecordOf(pulls[i].commits[k])
        {
          if i < n {
            assert front[i] == pulls[i];
          } else {
            RecordsAt(pulls[n].commits, k);
          }
        }
      }
    }
  }

  /** A pull request that fails the window test adds nothing, wherever it
      stands in the list. */
  lemma SkippedPullContributesNothing(before: seq<PullRequest>, pull: PullRequest, after: seq<PullRequest>, startDay: Day, endDay: Day)
    requires !Qualifies(pull, startDay, endDay)
    ensures Extracted(before + [pull] + after, startDay, endDay) == Extracted(before + after, startDay, endDay)
  {
    ExtractedAppend(before, [pull], startDay, endDay);
    ExtractedAppend(before + [pull], after, startDay, endDay);
    ExtractedAppend(before, after, startDay, endDay);
    assert [pull][..0] == [];
  }

  /** A pull request that was closed without being merged adds nothing,
      whatever its commits. */
  lemma UnmergedPullContributesNothing(before: seq<PullRequest>, pull: PullRequest, after: seq<PullRequest>, startDay: Day, endDay: Day)
    requires pull.mergedAt.None?
    ensures Extracted(before + [pull] + after, startDay, endDay) == Extracted(before + after, startDay, endDay)
  {
    SkippedPullContributesNothing(before, pull, after, startDay, endDay);
  }

  /** The window in calendar terms: a merged pull request qualifies if and
      only if it was merged on a day from the start day up to the day before
      the end day, or at exactly 00:00 UTC of the end day. */
  lemma QualifiesByCalendarDay(pull: PullRequest, startDay: Day, endDay: Day)
    requires pull.mergedAt.Some?
    ensures Qualifies(pull, startDay, endDay) <==>
            var t := pull.mergedAt.value;
            startDay <= DateOf(t) && (DateOf(t) < endDay || t == Midnight(endDay))
  {
    var t := pull.mergedAt.value;
    var d := DateOf(t);
    if startDay <= d {
      assert Midnight(startDay) <= Midnight(d);
    } else {
      assert Midnight(d + 1) <= Midnight(startDay);
    }
    if d < endDay {
      assert Midnight(d + 1) <= Midnight(endDay);
    } else {
      assert Midnight(endDay) <= Midnight(d);
    }
  }

  /** Both bounds are inclusive: a pull request merged at exactly 00:00 UTC of
      the start day or of the end day is reported. */
  lemma WindowBoundsInclusive(pull: PullRequest, startDay: Day, endDay: Day)
    requires startDay <= endDay
    requires pull.mergedAt == Some(Midnight(startDay)) || pull.mergedAt == Some(Midnight(endDay))
    ensures Contribution(pull, startDay, endDay) == Records(pull.commits)
  {
  }

  /** A pull request merged on the end day after 00:00 UTC is not reported. */
  lemma {:induction false} MergedLaterOnEndDayExcluded(pull: PullRequest, startDay: Day, endDay: Day)
    requires pull.mergedAt.Some? && DateOf(pull.mergedAt.value) == endDay
    requires pull.mergedAt.value != Midnight(endDay)
    ensures Contribution(pull, startDay, endDay) == []
  {
    QualifiesByCalendarDay(pull, startDay, endDay);
  }

  /** A record's date is not checked against the window: a commit made long
      before the merge yields a record dated outside the window. */
  lemma RecordDateMayLieOutsideWindow()
    ensures var pull := PullRequest(Some(Midnight(10)), [Commit(Midnight(3) + 3600, "a@x.com")]);
            Extracted([pull], 5, 10) == [CommitRecord(3, "a@x.com")]
  {
    var pull := PullRequest(Some(Midnight(10)), [Commit(Midnight(3) + 3600, "a@x.com")]);
    assert [pull][..0] == [];
    assert pull.commits[..0] == [];
    assert DateOf(Midnight(3) + 3600) == 3;
  }
}
