/** What a summary says of its rows, in terms of the rows' outcomes and flags alone. */
module Summaries {
  import opened Options
  import opened Results
  import opened Orchestration
  import opened FoldResults

  ghost predicate Held(row: Row) { row.outcome.Skipped? && row.outcome.code == Some("NOT_RUN_AFTER_FATAL") }

  ghost predicate Sinks(row: Row) { row.outcome.Failure? && row.fatal == Some(true) }

  ghost function Indices(n: nat): (r: set<nat>)
    ensures |r| == n && forall k: nat :: k in r <==> k < n
  {
    if n == 0 then {} else Indices(n - 1) + {n - 1}
  }

  /** The rows of a kind. */
  ghost function Where(rows: seq<Row>, which: Row -> bool): set<nat> {
    set k: nat | k < |rows| && which(rows[k])
  }

  lemma {:induction false} TotalIsCount(rows: seq<Row>, measure: Row -> int, which: Row -> bool)
    requires forall r :: measure(r) == if which(r) then 1 else 0
    ensures Total(rows, measure) == |Where(rows, which)|
  {
    if rows != [] {
      var init, n := rows[..|rows| - 1], |rows| - 1;
      TotalIsCount(init, measure, which);
      if which(rows[n]) {
        assert Where(rows, which) == Where(init, which) + {n};
      } else {
        assert Where(rows, which) == Where(init, which);
      }
    }
  }

  /** The first row that fails fatally. */
  ghost predicate FirstSinks(rows: seq<Row>, k: int) {
    0 <= k < |rows| && Sinks(rows[k]) && forall j :: 0 <= j < k ==> !Sinks(rows[j])
  }

  /** The first held row that names the check that held it. */
  ghost predicate FirstNames(rows: seq<Row>, k: int) {
    && 0 <= k < |rows| && Held(rows[k]) && rows[k].outcome.haltedBy.Some?
    && forall j :: 0 <= j < k ==> !(Held(rows[j]) && rows[j].outcome.haltedBy.Some?)
  }

  /** The one row of a suite whose predicate declined. */
  ghost predicate Declined(suite: string, phase: Option<Phase>, rows: seq<Row>) {
    |rows| == 1 && rows[0].outcome.Skipped? && rows[0].id == ComputeId(phase, suite, suite + ".applies")
  }

  ghost predicate CountsThem(counts: Counts, rows: seq<Row>) {
    && counts.passed == |Where(rows, (r: Row) => r.outcome.Success?)|
    && counts.failed == |Where(rows, (r: Row) => r.outcome.Failure?)|
    && counts.skipped == |Where(rows, (r: Row) => r.outcome.Skipped?)|
  }

  /** Mixed when some checks passed and some failed; one of the two when only they did; nothing otherwise. */
  ghost predicate StatusTells(status: Status, rows: seq<Row>) {
    var passed, failed := exists r :: r in rows && r.outcome.Success?, exists r :: r in rows && r.outcome.Failure?;
    && (status == Mixed <==> passed && failed)
    && (status == AllFailed <==> failed && !passed)
    && (status == AllPassed <==> passed && !failed)
  }

  ghost predicate MessageTells(message: Message, suite: string, phase: Option<Phase>, rows: seq<Row>) {
    match message
    case NotApplicable(reason) => Declined(suite, phase, rows) && reason == rows[0].outcome.reason
    case AllNotRun(halter) =>
      && !Declined(suite, phase, rows) && (forall r :: r in rows ==> Held(r))
      && exists k :: FirstNames(rows, k) && rows[k].outcome.haltedBy == Some(halter)
    case Counted(passed, failed, skipped, notRun) =>
      && !Declined(suite, phase, rows)
      && ((exists r :: r in rows && !Held(r)) || forall k :: !FirstNames(rows, k))
      && passed == |Where(rows, (r: Row) => r.outcome.Success?)|
      && failed == |Where(rows, (r: Row) => r.outcome.Failure?)|
      && skipped == |Where(rows, (r: Row) => r.outcome.Skipped? && !Held(r))|
      && notRun == |Where(rows, (r: Row) => Held(r))|
  }

  lemma Totals(rows: seq<Row>)
    ensures Total(rows, PASSED) == |Where(rows, (r: Row) => r.outcome.Success?)|
    ensures Total(rows, FAILED) == |Where(rows, (r: Row) => r.outcome.Failure?)|
    ensures Total(rows, SKIPPED) == |Where(rows, (r: Row) => r.outcome.Skipped? && !Held(r))|
    ensures Total(rows, NOT_RUN) == |Where(rows, (r: Row) => Held(r))|
  {
    TotalIsCount(rows, PASSED, (r: Row) => r.outcome.Success?);
    TotalIsCount(rows, FAILED, (r: Row) => r.outcome.Failure?);
    TotalIsCount(rows, SKIPPED, (r: Row) => r.outcome.Skipped? && !Held(r));
    TotalIsCount(rows, NOT_RUN, (r: Row) => Held(r));
    hide Total;
  }

  lemma Shares(a: set<nat>, b: set<nat>, c: set<nat>, n: nat)
    requires a !! b && (a + b) !! c && a + b + c == Indices(n)
    ensures |a| + |b| + |c| == n
  {
    hide Indices;
    assert |a + b| == |a| + |b|;
  }

  /** The kinds of outcome share out the rows. */
  lemma Kinds(rows: seq<Row>)
    ensures |Where(rows, (r: Row) => r.outcome.Success?)| + |Where(rows, (r: Row) => r.outcome.Failure?)| +
            |Where(rows, (r: Row) => r.outcome.Skipped?)| == |rows|
  {
    hide Indices;
    var p, f, s := Where(rows, (r: Row) => r.outcome.Success?), Where(rows, (r: Row) => r.outcome.Failure?), Where(rows, (r: Row) => r.outcome.Skipped?);
    forall k: nat ensures k in p + f + s <==> k in Indices(|rows|) {
    }
    Shares(p, f, s, |rows|);
  }

  lemma SomeWhere(rows: seq<Row>, which: Row -> bool)
    ensures |Where(rows, which)| > 0 <==> exists r :: r in rows && which(r)
    ensures |Where(rows, which)| == |rows| <==> forall r :: r in rows ==> which(r)
  {
    var w, all := Where(rows, which), Indices(|rows|);
    if r :| r in rows && which(r) {
      var k :| 0 <= k < |rows| && rows[k] == r;
      assert k in w;
    }
    if |w| > 0 {
      var k :| k in w;
      assert rows[k] in rows;
    }
    if forall r :: r in rows ==> which(r) {
      assert w == all;
    } else {
      var r :| r in rows && !which(r);
      var k :| 0 <= k < |rows| && rows[k] == r;
      assert w <= all - {k};
      Smaller(w, all - {k});
    }
  }

  lemma Smaller(a: set<nat>, b: set<nat>)
    requires a <= b
    ensures |a| <= |b|
  {
    assert b == a + (b - a);
  }

  lemma MessageIs(message: Message, suite: string, phase: Option<Phase>, rows: seq<Row>)
    requires Tells(message, suite, phase, rows)
    ensures MessageTells(message, suite, phase, rows)
  {
    Totals(rows);
    SomeWhere(rows, (r: Row) => Held(r));
    assert forall r :: Held(r) <==> NotRun(r);
    hide Total, ComputeId, Where;
    forall k ensures FirstNames(rows, k) <==>
                     0 <= k < |rows| && !NamesNoHalter(rows[k]) && forall j :: 0 <= j < k ==> NamesNoHalter(rows[j])
    {
    }
    assert forall k :: 0 <= k < |rows| ==> rows[k] in rows;
  }

  lemma StatusIs(s: SuiteSummary, suite: string, phase: Option<Phase>, rows: seq<Row>)
    requires Summarizes(s, suite, phase, rows)
    ensures CountsThem(s.counts, rows) && StatusTells(s.status, rows)
  {
    Totals(rows);
    Kinds(rows);
    SomeWhere(rows, (r: Row) => r.outcome.Success?);
    SomeWhere(rows, (r: Row) => r.outcome.Failure?);
    hide Total, ComputeId, Where, Tells, RollsUp, Verified, SummaryId;
  }

  lemma FailureIs(s: SuiteSummary, suite: string, phase: Option<Phase>, rows: seq<Row>)
    requires Summarizes(s, suite, phase, rows)
    ensures s.verified <==> forall r :: r in rows ==> !Sinks(r)
    ensures forall k :: FirstSinks(rows, k) ==> s.fatalFailureAt == Some(rows[k].id)
    ensures s.fatalFailureAt.Some? ==> exists k :: FirstSinks(rows, k)
  {
    hide Tells, RollsUp, DeriveStatus, Total, SummaryId;
    assert forall r :: Sinks(r) <==> FatalFailure(r);
    assert forall k :: 0 <= k < |rows| ==> rows[k] in rows;
    if s.fatalFailureAt.Some? {
      var k :| 0 <= k < |rows| && FatalFailure(rows[k]) && Verified(rows[..k]) && s.fatalFailureAt == Some(rows[k].id);
      assert forall j :: 0 <= j < k ==> rows[..k][j] == rows[j];
      assert FirstSinks(rows, k);
    }
  }

  /**
   A summary, exactly: it counts the passed, failed and skipped rows; its status tells whether any passed and
   any failed; it is verified iff no row fails fatally, and otherwise names the first that does; and its message tells the
   declined predicate, the check that held every row, or the counts, each when it should.
   */
  lemma SummaryExactly(s: SuiteSummary, suite: string, phase: Option<Phase>, rows: seq<Row>)
    requires Summarizes(s, suite, phase, rows)
    ensures CountsThem(s.counts, rows) && StatusTells(s.status, rows)
    ensures s.verified <==> forall r :: r in rows ==> !Sinks(r)
    ensures forall k :: FirstSinks(rows, k) ==> s.fatalFailureAt == Some(rows[k].id)
    ensures s.fatalFailureAt.Some? ==> exists k :: FirstSinks(rows, k)
    ensures MessageTells(s.message, suite, phase, rows)
  {
    StatusIs(s, suite, phase, rows);
    MessageIs(s.message, suite, phase, rows);
    FailureIs(s, suite, phase, rows);
    hide *;
  }

  /** A summary's phase is that of the last suite with its id. */
  lemma {:induction false} PhaseOfLast(suites: seq<Suite>, id: string, k: nat)
    requires k < |suites| && suites[k].id == id && forall j :: k < j < |suites| ==> suites[j].id != id
    ensures PhaseOf(suites, id) == suites[k].phase
  {
    if k < |suites| - 1 {
      PhaseOfLast(suites[..|suites| - 1], id, k);
    }
  }
}
