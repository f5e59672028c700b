/**
 The id namespace consumers read a report by: every row lies in its suite's namespace, and
 when the documented prefix recipe picks out exactly a summary's rows.
 */
module IdNamespace {
  import opened Options
  import opened Results
  import opened Orchestration
  import opened FoldResults
  import RowIds

  ghost predicate UniqueIds(suites: seq<Suite>) {
    forall a, b :: 0 <= a < b < |suites| ==> suites[a].id != suites[b].id
  }

  /** No check's id is its suite's id and a dot with nothing after, or empty. */
  ghost predicate NonEmptyLocalParts(p: Pipeline) {
    forall i, c :: 0 <= i < |p.suites| && c in p.suites[i].checks ==> LocalPart(p.suites[i].id, c.id) != ""
  }

  /** The entry's row is named inside its suite's namespace. */
  ghost predicate InNamespace(p: Pipeline, e: Entry) {
    && e.suite < |p.suites|
    && var suite := p.suites[e.suite];
       var prefix := SummaryId(suite.phase, suite.id) + ".";
       e.row.suite == suite.id && prefix <= e.row.id
  }

  lemma AppliesIdInNamespace(suite: Suite)
    ensures LocalPart(suite.id, AppliesId(suite)) == "applies"
  {
    assert AppliesId(suite) == (suite.id + ".") + "applies";
  }

  lemma {:induction false} ChecksToInNamespace(p: Pipeline, w: World, i: nat, j: nat, st: State)
    requires i < |p.suites| && j <= |p.suites[i].checks| && NonEmptyLocalParts(p)
    requires forall e :: e in st.log ==> InNamespace(p, e)
    ensures forall e :: e in ChecksTo(p, w, i, j, st).log ==> InNamespace(p, e)
  {
    hide ComputeId, LocalPart, SummaryId, AppliesToSubject, ExecutionOutcome, Window, NotRunOutcome;
    if j > 0 {
      ChecksToInNamespace(p, w, i, j - 1, st);
      var suite := p.suites[i];
      RowIdExtendsSummaryId(suite.phase, suite.id, suite.checks[j - 1].id);
    }
  }

  lemma SuiteStepInNamespace(p: Pipeline, w: World, i: nat, st: State)
    requires i < |p.suites| && NonEmptyLocalParts(p)
    requires forall e :: e in st.log ==> InNamespace(p, e)
    ensures forall e :: e in SuiteStep(p, w, i, st).log ==> InNamespace(p, e)
  {
    var suite := p.suites[i];
    ChecksToInNamespace(p, w, i, |suite.checks|, st);
    RowIdExtendsSummaryId(suite.phase, suite.id, AppliesId(suite));
    AppliesIdInNamespace(suite);
    hide ComputeId, LocalPart, ChecksTo, AppliesId, HasFatalCheck;
  }

  lemma {:induction false} RunToInNamespace(p: Pipeline, w: World, i: nat, start: nat)
    requires i <= |p.suites| && NonEmptyLocalParts(p)
    ensures forall e :: e in RunTo(p, w, i, start).log ==> InNamespace(p, e)
  {
    hide SuiteStep, InNamespace;
    if i > 0 {
      RunToInNamespace(p, w, i - 1, start);
      SuiteStepInNamespace(p, w, i - 1, RunTo(p, w, i - 1, start));
    }
  }

  lemma {:induction false} PhaseOfUnique(suites: seq<Suite>, i: nat)
    requires UniqueIds(suites) && i < |suites|
    ensures PhaseOf(suites, suites[i].id) == suites[i].phase
  {
    if i < |suites| - 1 {
      PhaseOfUnique(suites[..|suites| - 1], i);
    }
  }

  /** Each row lies in the namespace of its suite's summary. */
  lemma RowsInSummaryNamespace(p: Pipeline, w: World, start: nat, summaries: seq<SuiteSummary>)
    requires UniqueIds(p.suites) && NonEmptyLocalParts(p)
    requires Folds(summaries, Rows(Run(p, w, start).log), p.suites)
    ensures RowsUnderSummaries(Rows(Run(p, w, start).log), summaries)
  {
    var log := Run(p, w, start).log;
    var rows := Rows(log);
    RunToInNamespace(p, w, |p.suites|, start);
    hide Run, SummaryId, RollsUp, Tells, FirstSeen, RowsOf, Total;
    forall m, k | 0 <= m < |summaries| && 0 <= k < |rows| && rows[k].suite == summaries[m].suite
      ensures summaries[m].id + "." <= rows[k].id
    {
      assert log[k] in log && InNamespace(p, log[k]);
      PhaseOfUnique(p.suites, log[k].suite);
    }
  }

  ghost predicate HasRow(rows: seq<Row>, suite: string) {
    exists k :: 0 <= k < |rows| && rows[k].suite == suite
  }

  ghost predicate HasSummary(summaries: seq<SuiteSummary>, suite: string) {
    exists m :: 0 <= m < |summaries| && summaries[m].suite == suite
  }

  /** Every row's id begins with the id and dot of its suite's summary. */
  ghost predicate RowsUnderSummaries(rows: seq<Row>, summaries: seq<SuiteSummary>) {
    forall m, k :: 0 <= m < |summaries| && 0 <= k < |rows| && rows[k].suite == summaries[m].suite ==>
      summaries[m].id + "." <= rows[k].id
  }

  /** Summaries and rows cover each other, and no two summaries share a suite. */
  ghost predicate Covering(rows: seq<Row>, summaries: seq<SuiteSummary>) {
    && (forall m :: 0 <= m < |summaries| ==> HasRow(rows, summaries[m].suite))
    && (forall k :: 0 <= k < |rows| ==> HasSummary(summaries, rows[k].suite))
    && (forall a, b :: 0 <= a < |summaries| && 0 <= b < |summaries| && a != b ==> summaries[a].suite != summaries[b].suite)
  }

  lemma SummariesCoverRows(rows: seq<Row>, suites: seq<Suite>, summaries: seq<SuiteSummary>)
    requires Folds(summaries, rows, suites)
    ensures Covering(rows, summaries)
  {
    var order := FirstSeen(rows);
    FirstSeenAre(rows);
    hide FirstSeen, RollsUp, Tells, RowsOf, Total, FirstIndex;
    assert forall m :: 0 <= m < |summaries| ==> summaries[m].suite == order[m];
    forall m | 0 <= m < |summaries| ensures HasRow(rows, summaries[m].suite) {
      assert order[m] in order;
    }
    forall k | 0 <= k < |rows| ensures HasSummary(summaries, rows[k].suite) {
      assert rows[k].suite in order;
      var m :| 0 <= m < |order| && order[m] == rows[k].suite;
      assert summaries[m].suite == order[m];
    }
    forall a, b | 0 <= a < b < |summaries| ensures summaries[a].suite != summaries[b].suite {
      assert FirstIndex(rows, order[a]) < FirstIndex(rows, order[b]);
    }
  }

  /** The rows whose id starts with a summary's id and a dot are exactly that summary's rows. */
  ghost predicate SummaryRecipe(rows: seq<Row>, summaries: seq<SuiteSummary>) {
    forall m, k :: 0 <= m < |summaries| && 0 <= k < |rows| ==>
      (summaries[m].id + "." <= rows[k].id <==> rows[k].suite == summaries[m].suite)
  }

  /**
   The README's recipe, end to end over a run and its fold: the rows whose id
   starts with a summary's id and a dot are exactly that summary's rows, iff no
   summary's id and dot begins another's.
   */
  lemma PrefixRecipe(p: Pipeline, w: World, start: nat, summaries: seq<SuiteSummary>)
    requires UniqueIds(p.suites) && NonEmptyLocalParts(p)
    requires Folds(summaries, Rows(Run(p, w, start).log), p.suites)
    ensures SummaryRecipe(Rows(Run(p, w, start).log), summaries) <==>
            (forall a, b :: 0 <= a < |summaries| && 0 <= b < |summaries| && a != b ==>
               !(summaries[a].id + "." <= summaries[b].id + "."))
  {
    var rows := Rows(Run(p, w, start).log);
    RowsInSummaryNamespace(p, w, start, summaries);
    SummariesCoverRows(rows, p.suites, summaries);
    hide Run, Folds, RowsUnderSummaries, Covering, SummaryRecipe;
    Prefixes(rows, summaries);
  }

  /** The string half of the recipe: two prefixes of one id are prefixes of each other. */
  lemma Prefixes(rows: seq<Row>, summaries: seq<SuiteSummary>)
    requires RowsUnderSummaries(rows, summaries) && Covering(rows, summaries)
    ensures SummaryRecipe(rows, summaries) <==>
            (forall a, b :: 0 <= a < |summaries| && 0 <= b < |summaries| && a != b ==>
               !(summaries[a].id + "." <= summaries[b].id + "."))
  {
    forall a, b | 0 <= a < |summaries| && 0 <= b < |summaries| && a != b && summaries[a].id + "." <= summaries[b].id + "."
      ensures exists m, k :: 0 <= m < |summaries| && 0 <= k < |rows| &&
                summaries[m].id + "." <= rows[k].id && rows[k].suite != summaries[m].suite
    {
      assert HasRow(rows, summaries[b].suite);
      var k :| 0 <= k < |rows| && rows[k].suite == summaries[b].suite;
      assert summaries[a].id + "." <= rows[k].id;
    }
    forall m, k | 0 <= m < |summaries| && 0 <= k < |rows| && summaries[m].id + "." <= rows[k].id && rows[k].suite != summaries[m].suite
      ensures exists a, b :: 0 <= a < |summaries| && 0 <= b < |summaries| && a != b &&
                summaries[a].id + "." <= summaries[b].id + "."
    {
      assert HasSummary(summaries, rows[k].suite);
      var n :| 0 <= n < |summaries| && summaries[n].suite == rows[k].suite;
      var P, Q := summaries[m].id + ".", summaries[n].id + ".";
      assert Q <= rows[k].id;
      if |P| <= |Q| { assert P <= Q; } else { assert Q <= P; }
    }
  }

  // ----- what can be checked before any run -----

  /** Suite `i` can have a row in some run: a check for this subject, or a predicate whose throw is reported. */
  predicate CanReport(p: Pipeline, i: nat)
    requires i < |p.suites|
  {
    SuiteRunsInPhases(p.suites[i], p.phases) && (p.suites[i].hasPredicate || HasApplicable(p, i))
  }

  predicate HasApplicable(p: Pipeline, i: nat)
    requires i < |p.suites|
  {
    exists c :: c in p.suites[i].checks && AppliesToSubject(c, p.subject)
  }

  function SuitePrefix(p: Pipeline, i: nat): string
    requires i < |p.suites|
  {
    SummaryId(p.suites[i].phase, p.suites[i].id) + "."
  }

  /** No summary id and dot, of a suite that can report, begins another's. */
  ghost predicate PrefixFree(p: Pipeline) {
    forall a, b :: 0 <= a < |p.suites| && 0 <= b < |p.suites| && a != b && CanReport(p, a) && CanReport(p, b) ==>
      !(SuitePrefix(p, a) <= SuitePrefix(p, b))
  }

  ghost predicate Reports(log: seq<Entry>, i: nat) {
    exists k :: 0 <= k < |log| && log[k].suite == i
  }

  /** The recipe over a run's rows: for each suite with a row, the rows under its summary's id and dot are its own. */
  ghost predicate RowRecipe(p: Pipeline, log: seq<Entry>) {
    forall a, k :: 0 <= a < |p.suites| && Reports(log, a) && 0 <= k < |log| ==>
      (SuitePrefix(p, a) <= log[k].row.id <==> log[k].row.suite == p.suites[a].id)
  }

  /** The recipe over the run's rows is the recipe over its summaries. */
  lemma RecipesAgree(p: Pipeline, w: World, start: nat, summaries: seq<SuiteSummary>)
    requires UniqueIds(p.suites) && NonEmptyLocalParts(p)
    requires Folds(summaries, Rows(Run(p, w, start).log), p.suites)
    ensures SummaryRecipe(Rows(Run(p, w, start).log), summaries) <==> RowRecipe(p, Run(p, w, start).log)
  {
    var log := Run(p, w, start).log;
    forall m | 0 <= m < |summaries|
      ensures SomeSuiteOf(p, log, summaries[m])
    {
      var a := SuiteOfSummary(p, w, start, summaries, m);
    }
    forall a | 0 <= a < |p.suites| && Reports(log, a)
      ensures SomeSummaryOf(p, summaries, a)
    {
      var m := SummaryOfSuite(p, w, start, summaries, a);
    }
    hide *;
    MatchedRecipes(p, log, summaries);
  }

  lemma SuiteOfSummary(p: Pipeline, w: World, start: nat, summaries: seq<SuiteSummary>, m: nat) returns (a: nat)
    requires UniqueIds(p.suites) && NonEmptyLocalParts(p) && m < |summaries|
    requires Folds(summaries, Rows(Run(p, w, start).log), p.suites)
    ensures a < |p.suites| && Reports(Run(p, w, start).log, a) && SummaryOf(p, a, summaries[m])
  {
    var log := Run(p, w, start).log;
    SummariesCoverRows(Rows(log), p.suites, summaries);
    RunToInNamespace(p, w, |p.suites|, start);
    hide Run, FirstSeen, RowsOf, RollsUp, Tells, Total, SummaryId, ComputeId, NonEmptyLocalParts, UniqueIds;
    assert HasRow(Rows(log), summaries[m].suite);
    var k :| 0 <= k < |log| && Rows(log)[k].suite == summaries[m].suite;
    assert log[k] in log && InNamespace(p, log[k]);
    a := log[k].suite;
    PhaseOfUnique(p.suites, a);
  }

  lemma SummaryOfSuite(p: Pipeline, w: World, start: nat, summaries: seq<SuiteSummary>, a: nat) returns (m: nat)
    requires UniqueIds(p.suites) && NonEmptyLocalParts(p) && a < |p.suites| && Reports(Run(p, w, start).log, a)
    requires Folds(summaries, Rows(Run(p, w, start).log), p.suites)
    ensures m < |summaries| && SummaryOf(p, a, summaries[m])
  {
    var log := Run(p, w, start).log;
    SummariesCoverRows(Rows(log), p.suites, summaries);
    RunToInNamespace(p, w, |p.suites|, start);
    hide Run, FirstSeen, RowsOf, RollsUp, Tells, Total, SummaryId, ComputeId, NonEmptyLocalParts, UniqueIds;
    var k :| 0 <= k < |log| && log[k].suite == a;
    assert log[k] in log && InNamespace(p, log[k]);
    assert HasSummary(summaries, Rows(log)[k].suite);
    m :| 0 <= m < |summaries| && summaries[m].suite == Rows(log)[k].suite;
    PhaseOfUnique(p.suites, a);
  }

  ghost predicate SummaryOf(p: Pipeline, a: nat, s: SuiteSummary)
    requires a < |p.suites|
  {
    s.suite == p.suites[a].id && s.id + "." == SuitePrefix(p, a)
  }

  /** The summary is of a suite that reports. */
  ghost predicate SomeSuiteOf(p: Pipeline, log: seq<Entry>, s: SuiteSummary) {
    exists a :: 0 <= a < |p.suites| && Reports(log, a) && SummaryOf(p, a, s)
  }

  /** The suite has a summary. */
  ghost predicate SomeSummaryOf(p: Pipeline, summaries: seq<SuiteSummary>, a: nat)
    requires a < |p.suites|
  {
    exists m :: 0 <= m < |summaries| && SummaryOf(p, a, summaries[m])
  }

  lemma MatchedRecipes(p: Pipeline, log: seq<Entry>, summaries: seq<SuiteSummary>)
    requires forall m :: 0 <= m < |summaries| ==> SomeSuiteOf(p, log, summaries[m])
    requires forall a :: 0 <= a < |p.suites| && Reports(log, a) ==> SomeSummaryOf(p, summaries, a)
    ensures SummaryRecipe(Rows(log), summaries) <==> RowRecipe(p, log)
  {
    hide SuitePrefix, Reports;
  }

  /** A world in which every suite that can report does: checks pass, and a predicate with no check behind it throws. */
  function EveryoneReports(p: Pipeline): World {
    World((i: nat) => if i < |p.suites| && HasApplicable(p, i) then Returns(true) else Throws(""),
          (i: nat, j: nat) => Returns(Success("")), (n: nat) => Instant(0, 0), (i: nat, j: nat) => 0)
  }

  lemma EveryoneDoes(p: Pipeline, i: nat)
    requires i < |p.suites| && CanReport(p, i)
    ensures Reports(Run(p, EveryoneReports(p), 0).log, i)
  {
    var w := EveryoneReports(p);
    forall a | 0 <= a < i ensures !RowIds.HaltsAt(p, w, a) {
      assert RowIds.ThrowHalts(p, w, a) ==> HasApplicable(p, a);
    }
    RowIds.HaltedIff(p, w, i, 0);
    var at := RowIds.SuiteSegment(p, w, 0, i);
    var added := RowIds.Added(p, w, i, false);
    AddsSomething(p, i);
    hide Run, RowIds.Added, RunTo, RowIds.HaltsAt, CanReport;
    var log := Run(p, w, 0).log;
    assert RowIds.Places(log)[at] == (i, added[0]);
    assert log[at].suite == i;
  }

  lemma AddsSomething(p: Pipeline, i: nat)
    requires i < |p.suites| && CanReport(p, i)
    ensures RowIds.Added(p, EveryoneReports(p), i, false) != []
  {
    ListedIff(p, i, |p.suites[i].checks|);
    hide RowIds.ListedTo;
  }

  lemma {:induction false} ListedIff(p: Pipeline, i: nat, j: nat)
    requires i < |p.suites| && j <= |p.suites[i].checks|
    ensures RowIds.ListedTo(p, i, j) != [] <==> exists k :: 0 <= k < j && AppliesToSubject(p.suites[i].checks[k], p.subject)
  {
    hide AppliesToSubject, ComputeId;
    if j > 0 {
      ListedIff(p, i, j - 1);
    }
  }

  /** Only suites that can report have rows. */
  lemma OnlyTheyReport(p: Pipeline, w: World, start: nat, i: nat)
    requires i < |p.suites| && Reports(Run(p, w, start).log, i)
    ensures CanReport(p, i)
  {
    var log := Run(p, w, start).log;
    var k :| 0 <= k < |log| && log[k].suite == i;
    var at := RowIds.SuiteSegment(p, w, start, i);
    var added := RowIds.Added(p, w, i, RunTo(p, w, i, start).halt.Some?);
    assert RowIds.Places(log)[k].0 == i;
    assert added != [];
    ListedIff(p, i, |p.suites[i].checks|);
    hide Run, RunTo, RowIds.ListedTo, AppliesToSubject;
  }

  lemma CapturedWhenEveryoneReports(p: Pipeline, a: nat, b: nat)
    requires UniqueIds(p.suites) && NonEmptyLocalParts(p)
    requires a < |p.suites| && b < |p.suites| && a != b && CanReport(p, a) && CanReport(p, b)
    requires SuitePrefix(p, a) <= SuitePrefix(p, b)
    ensures !RowRecipe(p, Run(p, EveryoneReports(p), 0).log)
  {
    var w := EveryoneReports(p);
    EveryoneDoes(p, a);
    EveryoneDoes(p, b);
    RunToInNamespace(p, w, |p.suites|, 0);
    hide Run, CanReport, EveryoneReports, NonEmptyLocalParts, SummaryId;
    var log := Run(p, w, 0).log;
    var k :| 0 <= k < |log| && log[k].suite == b;
    assert log[k] in log && InNamespace(p, log[k]);
    assert SuitePrefix(p, a) <= log[k].row.id && log[k].row.suite == p.suites[b].id;
  }

  lemma PrefixFreeIsEnough(p: Pipeline, w: World, start: nat)
    requires UniqueIds(p.suites) && NonEmptyLocalParts(p) && PrefixFree(p)
    ensures RowRecipe(p, Run(p, w, start).log)
  {
    var log := Run(p, w, start).log;
    RunToInNamespace(p, w, |p.suites|, start);
    forall a, k | 0 <= a < |p.suites| && Reports(log, a) && 0 <= k < |log|
      ensures SuitePrefix(p, a) <= log[k].row.id <==> log[k].row.suite == p.suites[a].id
    {
      var b := log[k].suite;
      assert log[k] in log && InNamespace(p, log[k]);
      assert Reports(log, b);
      OnlyTheyReport(p, w, start, a);
      OnlyTheyReport(p, w, start, b);
      if a != b && SuitePrefix(p, a) <= log[k].row.id {
        Comparable(SuitePrefix(p, a), SuitePrefix(p, b), log[k].row.id);
      }
    }
  }

  lemma Comparable(x: string, y: string, id: string)
    requires y <= id && x <= id
    ensures x <= y || y <= x
  {
    if |x| <= |y| { assert x <= y; } else { assert y <= x; }
  }

  /**
   The recipe's condition as a caller can check it before any call: it works in every run iff no
   summary id and dot, of a suite that can report, begins another's.
   */
  lemma PrefixRecipeBeforehand(p: Pipeline)
    requires UniqueIds(p.suites) && NonEmptyLocalParts(p)
    ensures (forall w, start :: RowRecipe(p, Run(p, w, start).log)) <==> PrefixFree(p)
  {
    hide RowRecipe, Run;
    if PrefixFree(p) {
      forall w, start ensures RowRecipe(p, Run(p, w, start).log) {
        PrefixFreeIsEnough(p, w, start);
      }
    } else {
      hide CanReport, SuitePrefix;
      var a, b :| 0 <= a < |p.suites| && 0 <= b < |p.suites| && a != b && CanReport(p, a) && CanReport(p, b) &&
                  SuitePrefix(p, a) <= SuitePrefix(p, b);
      CapturedWhenEveryoneReports(p, a, b);
    }
  }

  const REGISTRY := Suite("registry", [Check("registry.issuer", Some([VerifiableCredential]), Some(false), None)], Some(Trust), false)
  const TRUST := Suite("trust", [Check("trust.issuer-details", Some([VerifiableCredential]), Some(false), None)], Some(Trust), false)

  /** The built-in registry suite with the opt-in trust suite queued after it. */
  const WITH_TRUST := Pipeline([REGISTRY, TRUST], {VerifiableCredential}, {"trust"}, None, false)

  lemma TrustAboveRegistry()
    ensures SummaryId(Some(Trust), "trust") + "." <= SummaryId(Some(Trust), "registry") + "."
  {
    Pair("trust", "");
    Triple("trust", "registry", "");
    assert SummaryId(Some(Trust), "trust") == "trust";
    assert SummaryId(Some(Trust), "registry") == "trust.registry";
  }

  lemma LocalPartAfter(suite: string, rest: string)
    ensures LocalPart(suite, suite + "." + rest) == rest
  {
    assert (suite + "." + rest)[..|suite| + 1] == suite + ".";
  }

  lemma TrustNamesItsChecks()
    ensures UniqueIds(WITH_TRUST.suites) && NonEmptyLocalParts(WITH_TRUST)
  {
    LocalPartAfter("registry", "issuer");
    LocalPartAfter("trust", "issuer-details");
    hide LocalPart;
    assert "registry" + "." + "issuer" == "registry.issuer";
    assert "trust" + "." + "issuer-details" == "trust.issuer-details";
    assert |"registry"| != |"trust"|;
  }

  lemma BothCanReport()
    ensures CanReport(WITH_TRUST, 0) && CanReport(WITH_TRUST, 1)
  {
    assert VerifiableCredential in [VerifiableCredential];
    assert REGISTRY.checks[0] in REGISTRY.checks && TRUST.checks[0] in TRUST.checks;
  }

  /** The built-in ids break the condition: in this run the summary `trust` captures the row of `trust.registry`. */
  lemma TrustCapturesRegistry()
    ensures !RowRecipe(WITH_TRUST, Run(WITH_TRUST, EveryoneReports(WITH_TRUST), 0).log)
  {
    TrustAboveRegistry();
    TrustNamesItsChecks();
    BothCanReport();
    hide Run, RunTo, SummaryId, RowRecipe, CanReport, UniqueIds, NonEmptyLocalParts, EveryoneReports;
    CapturedWhenEveryoneReports(WITH_TRUST, 1, 0);
  }
}
