/**
 The rollup: a flat report grouped by suite in first-seen order, each group
 reduced to one summary.
 */
module FoldResults {
  import opened Options
  import opened Results
  import opened Orchestration

  datatype Counts = Counts(passed: nat, failed: nat, skipped: nat)

  datatype Status = Mixed | AllFailed | AllPassed | NothingRan

  datatype SuiteSummary = SuiteSummary(
    id: string,
    phase: Option<Phase>,
    suite: string,
    status: Status,
    verified: bool,
    counts: Counts,
    fatalFailureAt: Option<string>,
    timing: Option<Timing>,
    message: Message)

  /** What a summary's sentence names, before it is worded. */
  datatype Message =
    | NotApplicable(reason: string)
    | AllNotRun(haltedBy: string)
    | Counted(passed: int, failed: int, skipped: int, notRun: int)

  // ----- grouping -----

  /** The rows of one suite, in report order. */
  function RowsOf(rows: seq<Row>, suite: string): seq<Row> {
    if rows == [] then []
    else
      var last := rows[|rows| - 1];
      RowsOf(rows[..|rows| - 1], suite) + if last.suite == suite then [last] else []
  }

  /** The suites of a report, each once, in the order they first appear. */
  function FirstSeen(rows: seq<Row>): seq<string> {
    if rows == [] then []
    else
      var order := FirstSeen(rows[..|rows| - 1]);
      var last := rows[|rows| - 1];
      if last.suite in order then order else order + [last.suite]
  }

  /** Where a suite first appears, or the length of the report when it does not. */
  function FirstIndex(rows: seq<Row>, suite: string): (k: nat)
    ensures k <= |rows|
    ensures k < |rows| ==> rows[k].suite == suite
    ensures forall j :: 0 <= j < k ==> rows[j].suite != suite
  {
    if rows == [] then 0
    else
      var k := FirstIndex(rows[..|rows| - 1], suite);
      if k < |rows| - 1 then k
      else if rows[|rows| - 1].suite == suite then |rows| - 1
      else |rows|
  }

  method GroupChecksBySuite(rows: seq<Row>) returns (order: seq<string>, groups: map<string, seq<Row>>)
    ensures order == FirstSeen(rows)
    ensures forall s :: s in groups <==> s in order
    ensures forall s :: s in groups ==> groups[s] == RowsOf(rows, s)
  {
    order, groups := [], map[];
    for i := 0 to |rows|
      invariant order == FirstSeen(rows[..i])
      invariant forall s :: s in groups <==> s in order
      invariant forall s :: s !in groups ==> RowsOf(rows[..i], s) == []
      invariant forall s :: s in groups ==> groups[s] == RowsOf(rows[..i], s)
    {
      assert rows[..i + 1][..i] == rows[..i];
      var c := rows[i];
      if c.suite in groups {
        groups := groups[c.suite := groups[c.suite] + [c]];
      } else {
        order := order + [c.suite];
        groups := groups[c.suite := [c]];
      }
    }
    assert rows[..|rows|] == rows;
  }

  /** The groups laid end to end. */
  function Flatten(rows: seq<Row>, order: seq<string>): seq<Row> {
    if order == [] then []
    else Flatten(rows, order[..|order| - 1]) + RowsOf(rows, order[|order| - 1])
  }

  lemma {:induction false} RowsOfAre(rows: seq<Row>, suite: string)
    ensures forall r :: r in RowsOf(rows, suite) <==> r in rows && r.suite == suite
  {
    if rows != [] {
      RowsOfAre(rows[..|rows| - 1], suite);
      assert rows == rows[..|rows| - 1] + [rows[|rows| - 1]];
    }
  }

  lemma {:induction false} FirstSeenAre(rows: seq<Row>)
    ensures forall s :: s in FirstSeen(rows) <==> exists k :: 0 <= k < |rows| && rows[k].suite == s
    ensures forall a, b :: 0 <= a < b < |FirstSeen(rows)| ==>
              FirstIndex(rows, FirstSeen(rows)[a]) < FirstIndex(rows, FirstSeen(rows)[b])
  {
    if rows != [] {
      var init, last := rows[..|rows| - 1], rows[|rows| - 1];
      FirstSeenAre(init);
      forall s ensures s in FirstSeen(rows) <==> exists k :: 0 <= k < |rows| && rows[k].suite == s {
        if s in FirstSeen(init) {
          var k :| 0 <= k < |init| && init[k].suite == s;
          assert rows[k].suite == s;
        }
        if s == last.suite { assert rows[|rows| - 1].suite == s; }
      }
      var order := FirstSeen(init);
      forall a | 0 <= a < |order|
        ensures FirstIndex(rows, order[a]) == FirstIndex(init, order[a]) < |init|
      {
        assert order[a] in order;
      }
    }
  }

  lemma RowsOfAppend(rows: seq<Row>, last: Row, suite: string)
    ensures RowsOf(rows + [last], suite) == RowsOf(rows, suite) + if last.suite == suite then [last] else []
  {
    assert (rows + [last])[..|rows|] == rows;
  }

  lemma {:induction false} FlattenAppend(rows: seq<Row>, last: Row, order: seq<string>)
    requires forall a, b :: 0 <= a < b < |order| ==> order[a] != order[b]
    ensures multiset(Flatten(rows + [last], order)) ==
            multiset(Flatten(rows, order)) + if last.suite in order then multiset{last} else multiset{}
  {
    hide RowsOf;
    if order != [] {
      var init, suite := order[..|order| - 1], order[|order| - 1];
      FlattenAppend(rows, last, init);
      RowsOfAppend(rows, last, suite);
      assert last.suite in order <==> last.suite in init || last.suite == suite;
      assert suite !in init;
    }
  }

  lemma NoRowsOf(rows: seq<Row>, suite: string)
    requires suite !in FirstSeen(rows)
    ensures RowsOf(rows, suite) == []
  {
    FirstSeenAre(rows);
    RowsOfAre(rows, suite);
    assert forall k :: 0 <= k < |rows| ==> rows[k].suite != suite;
    assert RowsOf(rows, suite) == [] || RowsOf(rows, suite)[0] in RowsOf(rows, suite);
  }

  lemma {:induction false} FlattenIsPermutation(rows: seq<Row>)
    ensures multiset(Flatten(rows, FirstSeen(rows))) == multiset(rows)
  {
    if rows != [] {
      var init, last := rows[..|rows| - 1], rows[|rows| - 1];
      var before := FirstSeen(init);
      assert rows == init + [last];
      FlattenIsPermutation(init);
      FirstSeenAre(init);
      FlattenAppend(init, last, before);
      if last.suite !in before {
        NoRowsOf(init, last.suite);
        assert (before + [last.suite])[..|before|] == before;
      }
      hide FirstIndex;
    }
  }

  /**
   Grouping is a stable partition: the suites are distinct and listed by first
   appearance, every row lands in exactly one group, and no row is lost or repeated.
   */
  lemma GroupsPartition(rows: seq<Row>)
    ensures var order := FirstSeen(rows);
            && (forall a, b :: 0 <= a < b < |order| ==> FirstIndex(rows, order[a]) < FirstIndex(rows, order[b]))
            && (forall k :: 0 <= k < |order| ==> RowsOf(rows, order[k]) != [])
            && multiset(Flatten(rows, order)) == multiset(rows)
  {
    FirstSeenAre(rows);
    FlattenIsPermutation(rows);
    hide Flatten;
    var order := FirstSeen(rows);
    forall k | 0 <= k < |order| ensures RowsOf(rows, order[k]) != [] {
      RowsOfAre(rows, order[k]);
      assert order[k] in order;
      var m :| 0 <= m < |rows| && rows[m].suite == order[k];
      assert rows[m] in RowsOf(rows, order[k]);
    }
  }

  // ----- reducing one group -----

  /** A measure of a row, summed over a report. */
  function Total(rows: seq<Row>, measure: Row -> int): int {
    if rows == [] then 0 else Total(rows[..|rows| - 1], measure) + measure(rows[|rows| - 1])
  }

  const PASSED := (r: Row) => if r.outcome.Success? then 1 else 0
  const FAILED := (r: Row) => if r.outcome.Failure? then 1 else 0
  const NOT_RUN := (r: Row) => if NotRun(r) then 1 else 0
  const SKIPPED := (r: Row) => if r.outcome.Skipped? && !NotRun(r) then 1 else 0
  const DURATION := (r: Row) => if r.timing.Some? then r.timing.value.durationMs else 0

  datatype SuiteTally = SuiteTally(passed: nat, failed: nat, skipped: nat, notRun: nat, haltedBy: Option<string>)

  /** `halter` is the halting check named by the first not-run row that names one. */
  ghost predicate FirstHaltedBy(rows: seq<Row>, halter: string) {
    exists k :: 0 <= k < |rows| && NamesHalter(rows[k], halter) && forall j :: 0 <= j < k ==> NamesNoHalter(rows[j])
  }

  predicate NamesHalter(row: Row, halter: string) { NotRun(row) && row.outcome.haltedBy == Some(halter) }

  predicate NamesNoHalter(row: Row) { NotRun(row) ==> row.outcome.haltedBy.None? }

  method TallySuite(rows: seq<Row>) returns (tally: SuiteTally)
    ensures tally.passed == Total(rows, PASSED) && tally.failed == Total(rows, FAILED)
    ensures tally.skipped == Total(rows, SKIPPED) && tally.notRun == Total(rows, NOT_RUN)
    ensures tally.passed + tally.failed + tally.skipped + tally.notRun == |rows|
    ensures tally.haltedBy.Some? ==> FirstHaltedBy(rows, tally.haltedBy.value)
    ensures tally.haltedBy.None? ==> forall r :: r in rows ==> NamesNoHalter(r)
  {
    tally := SuiteTally(0, 0, 0, 0, None);
    for i := 0 to |rows|
      invariant tally.passed == Total(rows[..i], PASSED) && tally.failed == Total(rows[..i], FAILED)
      invariant tally.skipped == Total(rows[..i], SKIPPED) && tally.notRun == Total(rows[..i], NOT_RUN)
      invariant tally.passed + tally.failed + tally.skipped + tally.notRun == i
      invariant tally.haltedBy.Some? ==> FirstHaltedBy(rows, tally.haltedBy.value)
      invariant tally.haltedBy.None? ==> forall k :: 0 <= k < i ==> NamesNoHalter(rows[k])
    {
      assert rows[..i + 1][..i] == rows[..i];
      var outcome := rows[i].outcome;
      assert outcome.Skipped? && outcome.haltedBy.Some? && NotRun(rows[i]) ==> NamesHalter(rows[i], outcome.haltedBy.value);
      if outcome.Success? {
        tally := tally.(passed := tally.passed + 1);
      } else if outcome.Failure? {
        tally := tally.(failed := tally.failed + 1);
      } else if outcome.code == Some(NOT_RUN_AFTER_FATAL) {
        tally := tally.(notRun := tally.notRun + 1,
                        haltedBy := if tally.haltedBy.None? then outcome.haltedBy else tally.haltedBy);
      } else {
        tally := tally.(skipped := tally.skipped + 1);
      }
    }
    assert rows[..|rows|] == rows;
  }

  /** `t` is the envelope of the rows' windows, with their durations summed. */
  ghost predicate RollsUp(t: Option<Timing>, rows: seq<Row>) {
    && (t.None? <==> forall r :: r in rows ==> r.timing.None?)
    && (t.Some? ==>
          && t.value.durationMs == Total(rows, DURATION)
          && (exists r :: r in rows && r.timing.Some? && r.timing.value.startedAt == t.value.startedAt)
          && (exists r :: r in rows && r.timing.Some? && r.timing.value.endedAt == t.value.endedAt)
          && forall r :: r in rows && r.timing.Some? ==>
               t.value.startedAt <= r.timing.value.startedAt && r.timing.value.endedAt <= t.value.endedAt)
  }

  function Widen(t: Option<Timing>, own: Timing): Timing {
    if t.None? then own
    else Timing(if own.startedAt < t.value.startedAt then own.startedAt else t.value.startedAt,
                if own.endedAt > t.value.endedAt then own.endedAt else t.value.endedAt,
                t.value.durationMs + own.durationMs)
  }

  lemma RollsUpAppend(t: Option<Timing>, rows: seq<Row>, row: Row)
    requires RollsUp(t, rows) && (t.None? ==> Total(rows, DURATION) == 0)
    ensures row.timing.None? ==> RollsUp(t, rows + [row])
    ensures row.timing.Some? ==> RollsUp(Some(Widen(t, row.timing.value)), rows + [row])
    ensures Total(rows + [row], DURATION) == Total(rows, DURATION) + DURATION(row)
  {
    assert (rows + [row])[..|rows|] == rows;
    hide Total;
    assert forall r :: r in rows + [row] <==> r in rows || r == row;
    assert row in rows + [row];
  }

  method RollupSuiteTiming(rows: seq<Row>) returns (t: Option<Timing>)
    ensures RollsUp(t, rows)
  {
    t := None;
    assert RollsUp(t, rows[..0]);
    hide RollsUp;
    for i := 0 to |rows|
      invariant RollsUp(t, rows[..i])
      invariant t.None? ==> Total(rows[..i], DURATION) == 0
    {
      assert rows[..i + 1] == rows[..i] + [rows[i]];
      RollsUpAppend(t, rows[..i], rows[i]);
      if rows[i].timing.Some? {
        t := Some(Widen(t, rows[i].timing.value));
      }
    }
    assert rows[..|rows|] == rows;
  }

  function DeriveStatus(counts: Counts): Status {
    if counts.failed > 0 && counts.passed > 0 then Mixed
    else if counts.failed > 0 then AllFailed
    else if counts.passed > 0 then AllPassed
    else NothingRan
  }

  /** The row a run emits alone for an explicitly queued suite whose predicate declined. */
  predicate DeclinedAlone(suite: string, phase: Option<Phase>, rows: seq<Row>) {
    && |rows| == 1
    && rows[0].outcome.Skipped?
    && rows[0].id == ComputeId(phase, suite, suite + ".applies")
  }

  /** What the summary's sentence names: a cause when nothing of the suite's own was run, the counts otherwise. */
  ghost predicate Tells(message: Message, suite: string, phase: Option<Phase>, rows: seq<Row>) {
    match message
    case NotApplicable(reason) => DeclinedAlone(suite, phase, rows) && reason == rows[0].outcome.reason
    case AllNotRun(halter) =>
      && !DeclinedAlone(suite, phase, rows)
      && FirstHaltedBy(rows, halter)
      && Total(rows, NOT_RUN) == |rows|
    case Counted(passed, failed, skipped, notRun) =>
      && !DeclinedAlone(suite, phase, rows)
      && (Total(rows, NOT_RUN) < |rows| || forall r :: r in rows ==> NamesNoHalter(r))
      && passed == Total(rows, PASSED) && failed == Total(rows, FAILED)
      && skipped == Total(rows, SKIPPED) && notRun == Total(rows, NOT_RUN)
  }

  /** What a summary says about the rows it stands for. */
  ghost predicate Summarizes(s: SuiteSummary, suite: string, phase: Option<Phase>, rows: seq<Row>) {
    && s.suite == suite && s.phase == phase && s.id == SummaryId(phase, suite)
    && s.counts.passed == Total(rows, PASSED)
    && s.counts.failed == Total(rows, FAILED)
    && s.counts.passed + s.counts.failed + s.counts.skipped == |rows|
    && s.status == DeriveStatus(s.counts)
    && (s.verified <==> Verified(rows))
    && (s.fatalFailureAt.None? <==> Verified(rows))
    && (s.fatalFailureAt.Some? ==>
          exists k :: 0 <= k < |rows| && FatalFailure(rows[k]) && Verified(rows[..k])
                      && s.fatalFailureAt == Some(rows[k].id))
    && RollsUp(s.timing, rows)
    && Tells(s.message, suite, phase, rows)
  }

  method SummarizeSuite(suite: string, phase: Option<Phase>, rows: seq<Row>) returns (s: SuiteSummary)
    ensures Summarizes(s, suite, phase, rows)
  {
    var tally := TallySuite(rows);
    var counts := Counts(tally.passed, tally.failed, tally.skipped + tally.notRun);
    var fatalCheck: Option<Row> := None;
    var i := 0;
    while i < |rows| && fatalCheck.None?
      invariant 0 <= i <= |rows|
      invariant fatalCheck.None? ==> Verified(rows[..i])
      invariant fatalCheck.Some? ==>
                  0 < i && FatalFailure(rows[i - 1]) && Verified(rows[..i - 1]) && fatalCheck.value == rows[i - 1]
      decreases |rows| - i
    {
      if FatalFailure(rows[i]) { fatalCheck := Some(rows[i]); }
      i := i + 1;
    }
    assert fatalCheck.None? ==> rows[..i] == rows;
    var timing := RollupSuiteTiming(rows);
    var at := if fatalCheck.Some? then Some(fatalCheck.value.id) else None;
    var message :=
      if DeclinedAlone(suite, phase, rows) then NotApplicable(rows[0].outcome.reason)
      else if tally.notRun == |rows| && tally.haltedBy.Some? then AllNotRun(tally.haltedBy.value)
      else Counted(tally.passed, tally.failed, tally.skipped, tally.notRun);
    s := SuiteSummary(ComputeId(phase, suite, ""), phase, suite, DeriveStatus(counts), fatalCheck.None?, counts, at, timing, message);
  }

  // ----- the fold -----

  /** The phase of the last suite with this id, as a map filled in list order ends up holding it. */
  function PhaseOf(suites: seq<Suite>, id: string): Option<Phase> {
    if suites == [] then None
    else if suites[|suites| - 1].id == id then suites[|suites| - 1].phase
    else PhaseOf(suites[..|suites| - 1], id)
  }

  method IndexSuitesById(suites: seq<Suite>) returns (index: map<string, Suite>)
    ensures forall id :: (if id in index then index[id].phase else None) == PhaseOf(suites, id)
  {
    index := map[];
    for i := 0 to |suites|
      invariant forall id :: (if id in index then index[id].phase else None) == PhaseOf(suites[..i], id)
    {
      assert suites[..i + 1][..i] == suites[..i];
      index := index[suites[i].id := suites[i]];
    }
    assert suites[..|suites|] == suites;
  }

  /** One summary per suite of the report, in first-seen order. */
  ghost predicate Folds(summaries: seq<SuiteSummary>, rows: seq<Row>, suites: seq<Suite>) {
    var order := FirstSeen(rows);
    && |summaries| == |order|
    && forall k :: 0 <= k < |order| ==>
         Summarizes(summaries[k], order[k], PhaseOf(suites, order[k]), RowsOf(rows, order[k]))
  }

  method FoldCheckResults(rows: seq<Row>, suites: seq<Suite>)
    returns (results: seq<Row>, summaries: seq<SuiteSummary>)
    ensures results == rows
    ensures Folds(summaries, rows, suites)
  {
    hide Summarizes, RowsOf;
    results, summaries := rows, [];
    if |rows| == 0 && |suites| == 0 {
      return;
    }
    var index := IndexSuitesById(suites);
    var order, groups := GroupChecksBySuite(rows);
    for k := 0 to |order|
      invariant |summaries| == k
      invariant forall m :: 0 <= m < k ==>
                  Summarizes(summaries[m], order[m], PhaseOf(suites, order[m]), RowsOf(rows, order[m]))
    {
      assert order[k] in groups;
      var phase := if order[k] in index then index[order[k]].phase else None;
      var summary := SummarizeSuite(order[k], phase, groups[order[k]]);
      summaries := summaries + [summary];
    }
  }

  // ----- conservation -----

  function CountSum(summaries: seq<SuiteSummary>): nat {
    if summaries == [] then 0
    else
      var c := summaries[|summaries| - 1].counts;
      CountSum(summaries[..|summaries| - 1]) + c.passed + c.failed + c.skipped
  }

  function DurationSum(summaries: seq<SuiteSummary>): int {
    if summaries == [] then 0
    else
      var t := summaries[|summaries| - 1].timing;
      DurationSum(summaries[..|summaries| - 1]) + if t.Some? then t.value.durationMs else 0
  }

  lemma {:induction false} TotalConcat(a: seq<Row>, b: seq<Row>, measure: Row -> int)
    ensures Total(a + b, measure) == Total(a, measure) + Total(b, measure)
    decreases |b|
  {
    if b == [] {
      assert a + b == a;
    } else {
      assert (a + b)[..|a + b| - 1] == a + b[..|b| - 1];
      TotalConcat(a, b[..|b| - 1], measure);
    }
  }

  lemma {:induction false} TotalPermuted(a: seq<Row>, b: seq<Row>, measure: Row -> int)
    requires multiset(a) == multiset(b)
    ensures Total(a, measure) == Total(b, measure)
    decreases |a|
  {
    if a == [] {
      assert |multiset(b)| == 0;
    } else {
      var last := a[|a| - 1];
      assert a == a[..|a| - 1] + [last];
      assert last in multiset(b);
      var k :| 0 <= k < |b| && b[k] == last;
      var rest := b[..k] + b[k + 1..];
      assert b == b[..k] + [last] + b[k + 1..];
      assert multiset(a) == multiset(a[..|a| - 1]) + multiset{last};
      assert multiset(b) == multiset(rest) + multiset{last};
      assert multiset(a[..|a| - 1]) == multiset(a) - multiset{last};
      TotalPermuted(a[..|a| - 1], rest, measure);
      TotalConcat(b[..k], b[k + 1..], measure);
      TotalConcat(b[..k] + [last], b[k + 1..], measure);
      TotalConcat(b[..k], [last], measure);
      assert [last][..0] == [];
      assert Total([last], measure) == measure(last);
    }
  }

  lemma {:induction false} UntimedTotal(rows: seq<Row>)
    requires forall r :: r in rows ==> r.timing.None?
    ensures Total(rows, DURATION) == 0
  {
    if rows != [] {
      UntimedTotal(rows[..|rows| - 1]);
    }
  }

  lemma {:induction false} SumsOverGroups(summaries: seq<SuiteSummary>, rows: seq<Row>, suites: seq<Suite>, order: seq<string>)
    requires |summaries| == |order|
    requires forall k :: 0 <= k < |order| ==>
               Summarizes(summaries[k], order[k], PhaseOf(suites, order[k]), RowsOf(rows, order[k]))
    ensures CountSum(summaries) == |Flatten(rows, order)|
    ensures DurationSum(summaries) == Total(Flatten(rows, order), DURATION)
  {
    if order != [] {
      var n := |order| - 1;
      SumsOverGroups(summaries[..n], rows, suites, order[..n]);
      TotalConcat(Flatten(rows, order[..n]), RowsOf(rows, order[n]), DURATION);
      if summaries[n].timing.None? { UntimedTotal(RowsOf(rows, order[n])); }
    }
  }

  lemma FoldVerdict(summaries: seq<SuiteSummary>, rows: seq<Row>, suites: seq<Suite>)
    requires Folds(summaries, rows, suites)
    ensures Verified(rows) <==> forall k :: 0 <= k < |summaries| ==> summaries[k].verified
  {
    var order := FirstSeen(rows);
    FirstSeenAre(rows);
    hide FirstSeen, RowsOf, RollsUp;
    if k :| 0 <= k < |rows| && FatalFailure(rows[k]) {
      assert rows[k].suite in order;
      var m :| 0 <= m < |order| && order[m] == rows[k].suite;
      RowsOfAre(rows, order[m]);
      assert rows[k] in RowsOf(rows, order[m]);
      assert !summaries[m].verified;
    }
    forall m | 0 <= m < |summaries| && !summaries[m].verified ensures !Verified(rows) {
      RowsOfAre(rows, order[m]);
      var group := RowsOf(rows, order[m]);
      var k :| 0 <= k < |group| && FatalFailure(group[k]);
      assert group[k] in rows;
    }
  }

  /**
   Folding conserves: the counts of all summaries add up to the rows, the
   summary durations to the row durations, and the report is verified iff every
   summary is, iff none names a fatal failure.
   */
  lemma FoldConserves(summaries: seq<SuiteSummary>, rows: seq<Row>, suites: seq<Suite>)
    requires Folds(summaries, rows, suites)
    ensures CountSum(summaries) == |rows|
    ensures DurationSum(summaries) == Total(rows, DURATION)
    ensures Verified(rows) <==> forall k :: 0 <= k < |summaries| ==> summaries[k].verified
    ensures Verified(rows) <==> forall k :: 0 <= k < |summaries| ==> summaries[k].fatalFailureAt.None?
  {
    var order := FirstSeen(rows);
    FoldVerdict(summaries, rows, suites);
    assert forall k :: 0 <= k < |summaries| ==> (summaries[k].verified <==> summaries[k].fatalFailureAt.None?);
    FlattenIsPermutation(rows);
    SumsOverGroups(summaries, rows, suites, order);
    hide Folds, Verified, Summarizes;
    assert |multiset(rows)| == |multiset(Flatten(rows, order))|;
    TotalPermuted(Flatten(rows, order), rows, DURATION);
  }
}
