/**
 What a run reports, row by row, in terms of the suites, the subject and the answers alone:
 an account of the report that uses none of the runner's own predicates.
 */
module Reports {
  import opened Options
  import opened Results
  import opened Orchestration
  import opened Halting
  import RowIds

  // ----- the words of the account -----

  /** The check is for every subject, or for a type of this one. */
  ghost predicate Concerns(check: Check, subject: set<SubjectType>) {
    check.appliesTo.Some? && check.appliesTo.value != [] ==> !((set t | t in check.appliesTo.value) !! subject)
  }

  ghost predicate Kept(suite: Suite, phases: Option<seq<Phase>>) {
    phases.None? || suite.phase.None? || exists k :: 0 <= k < |phases.value| && phases.value[k] == suite.phase.value
  }

  /** A failure that stops everything after it. */
  ghost predicate Halts(row: Row) {
    row.outcome.Failure? && row.fatal == Some(true) && row.halts != Some(false)
  }

  ghost predicate HaltedIn(log: seq<Entry>, n: nat)
    requires n <= |log|
  {
    exists l :: 0 <= l < n && Halts(log[l].row)
  }

  /** A not-run skip that names the check of a halting row before position `n`. */
  ghost predicate NotRunFor(p: Pipeline, log: seq<Entry>, n: nat, outcome: Outcome)
    requires n <= |log|
  {
    && outcome.Skipped? && outcome.code == Some("NOT_RUN_AFTER_FATAL") && outcome.haltedBy.Some?
    && exists l :: 0 <= l < n && Halts(log[l].row) && log[l].suite < |p.suites|
                   && log[l].row.id == RowIds.RowId(p.suites[log[l].suite], outcome.haltedBy.value)
  }

  /** Line `at` is the row of check `j` of suite `i`: executed, unless the run had halted by then. */
  ghost predicate CheckRow(p: Pipeline, w: World, i: nat, j: nat, log: seq<Entry>, at: nat, calls: seq<(nat, nat)>)
    requires i < |p.suites|
  {
    && j < |p.suites[i].checks| && at < |log|
    && var (suite, check, row) := (p.suites[i], p.suites[i].checks[j], log[at].row);
       && log[at].suite == i && row.suite == suite.id && row.id == RowIds.RowId(suite, check.id)
       && row.fatal == check.fatal && row.halts == check.halts
       && ((i, j) in calls <==> !HaltedIn(log, at))
       && if HaltedIn(log, at) then NotRunFor(p, log, at, row.outcome)
          else
            match w.execute(i, j)
            case Returns(outcome) => row.outcome == outcome
            case Throws(error) => row.outcome == Failure([Problem(CheckError, error, None)])
  }

  ghost predicate Increasing(js: seq<nat>) { forall a, b :: 0 <= a < b < |js| ==> js[a] < js[b] }

  /** The checks of suite `i`, up to position `j`, that concern the subject, in order. */
  ghost predicate Covers(p: Pipeline, i: nat, j: nat, js: seq<nat>)
    requires i < |p.suites| && j <= |p.suites[i].checks|
  {
    Increasing(js) && forall k: nat :: k in js <==> k < j && Concerns(p.suites[i].checks[k], p.subject)
  }

  /** From line `at` on stand the rows of those checks, one for each. */
  ghost predicate CheckRows(p: Pipeline, w: World, i: nat, js: seq<nat>, log: seq<Entry>, at: nat, calls: seq<(nat, nat)>)
    requires i < |p.suites|
  {
    forall k :: 0 <= k < |js| ==> CheckRow(p, w, i, js[k], log, at + k, calls)
  }

  ghost predicate HasFatal(p: Pipeline, i: nat)
    requires i < |p.suites|
  {
    exists k :: 0 <= k < |p.suites[i].checks| && p.suites[i].checks[k].fatal == Some(true) && Concerns(p.suites[i].checks[k], p.subject)
  }

  /** Line `at` is a row the runner emits for the suite's predicate. */
  ghost predicate PredicateRow(p: Pipeline, i: nat, e: Entry)
    requires i < |p.suites|
  {
    && e.suite == i && e.row.suite == p.suites[i].id && e.row.id == RowIds.RowId(p.suites[i], p.suites[i].id + ".applies")
    && e.row.halts.None?
  }

  /** What suite `i` reports, on the lines from `at` up to `end`. */
  ghost predicate SuiteReport(p: Pipeline, w: World, i: nat, log: seq<Entry>, at: nat, end: nat, calls: seq<(nat, nat)>)
    requires i < |p.suites| && at <= end <= |log|
  {
    if !Kept(p.suites[i], p.phases) then end == at
    else
      match if p.suites[i].hasPredicate then w.predicate_(i) else Returns(true)
      case Returns(true) => ListsChecks(p, w, i, log, at, end, calls)
      case Returns(false) =>
        if p.suites[i].id !in p.explicitSuiteIds then end == at
        else
          && end == at + 1 && PredicateRow(p, i, log[at]) && log[at].row.fatal.None?
          && log[at].row.outcome.Skipped? && log[at].row.outcome.code.None?
      case Throws(error) =>
        if HaltedIn(log, at) then ListsChecks(p, w, i, log, at, end, calls)
        else
          && end == at + 1 && PredicateRow(p, i, log[at])
          && log[at].row.fatal == Some(HasFatal(p, i))
          && log[at].row.outcome == Failure([Problem(CheckError, error, None)])
  }

  ghost predicate ListsChecks(p: Pipeline, w: World, i: nat, log: seq<Entry>, at: nat, end: nat, calls: seq<(nat, nat)>)
    requires i < |p.suites| && at <= end <= |log|
  {
    exists js :: Covers(p, i, |p.suites[i].checks|, js) && end == at + |js| && CheckRows(p, w, i, js, log, at, calls)
  }

  // ----- the account is true -----

  lemma ConcernsIs(check: Check, subject: set<SubjectType>)
    ensures Concerns(check, subject) <==> AppliesToSubject(check, subject)
  {
  }

  /** The latch is set once some row halts. */
  lemma LatchIsHalt(p: Pipeline, w: World, st: State, i: nat, j: nat)
    requires Latched(p, w, st, i, j)
    ensures st.halt.Some? <==> HaltedIn(st.log, |st.log|)
    ensures st.halt.Some? ==> NotRunFor(p, st.log, |st.log|, NotRunOutcome(st.halt.value.checkId))
  {
    hide ComputeId, HaltSource, SkipAfterHalt;
    assert forall k :: 0 <= k < |st.log| ==> Halts(st.log[k].row) == HaltingFailure(st.log[k].row);
  }

  lemma HaltedInPrefix(log: seq<Entry>, more: seq<Entry>, n: nat)
    requires n <= |log| && log <= more
    ensures HaltedIn(more, n) == HaltedIn(log, n)
  {
    assert forall l :: 0 <= l < n ==> more[l] == log[l];
  }

  lemma CheckRowLater(p: Pipeline, w: World, i: nat, j: nat, log: seq<Entry>, at: nat, calls: seq<(nat, nat)>,
                      more: seq<Entry>, calls': seq<(nat, nat)>)
    requires i < |p.suites| && CheckRow(p, w, i, j, log, at, calls)
    requires log <= more && ((i, j) in calls <==> (i, j) in calls')
    ensures CheckRow(p, w, i, j, more, at, calls')
  {
    HaltedInPrefix(log, more, at);
    assert forall l :: 0 <= l <= at ==> more[l] == log[l];
    hide HaltedIn, Halts;
  }

  lemma CheckStepRow(p: Pipeline, w: World, i: nat, j: nat, st: State)
    requires i < |p.suites| && j < |p.suites[i].checks| && Latched(p, w, st, i, j) && Concerns(p.suites[i].checks[j], p.subject)
    ensures var st' := CheckStep(p, w, i, j, st);
            && st.log <= st'.log && |st'.log| == |st.log| + 1
            && (st'.calls == st.calls || st'.calls == st.calls + [(i, j)])
            && CheckRow(p, w, i, j, st'.log, |st.log|, st'.calls)
  {
    ConcernsIs(p.suites[i].checks[j], p.subject);
    LatchIsHalt(p, w, st, i, j);
    var st' := CheckStep(p, w, i, j, st);
    NotYetCalled(p, w, st, i, j);
    hide Latched, ComputeId, Window, Concerns, AppliesToSubject, NotRunOutcome, HaltedIn, NotRunFor;
    assert st.log <= st'.log;
    HaltedInPrefix(st.log, st'.log, |st.log|);
    if st.halt.Some? {
      NotRunForLater(p, st.log, st'.log, NotRunOutcome(st.halt.value.checkId));
    }
  }

  lemma NotYetCalled(p: Pipeline, w: World, st: State, i: nat, j: nat)
    requires Latched(p, w, st, i, j)
    ensures (i, j) !in st.calls
    ensures forall k: nat :: (i, k) in st.calls ==> k < j
  {
    hide HaltSource, SkipAfterHalt, ComputeId;
  }

  lemma NotRunForLater(p: Pipeline, log: seq<Entry>, more: seq<Entry>, outcome: Outcome)
    requires NotRunFor(p, log, |log|, outcome) && log <= more
    ensures NotRunFor(p, more, |log|, outcome)
  {
    hide Halts;
    assert forall l :: 0 <= l < |log| ==> more[l] == log[l];
  }

  /** From `st` to `after` lines were added, and checks of suite `i` executed. */
  ghost predicate Adds(i: nat, st: State, after: State) {
    && st.log <= after.log && st.calls <= after.calls
    && forall k :: |st.calls| <= k < |after.calls| ==> after.calls[k].0 == i
  }

  lemma AddsTwice(i: nat, a: State, b: State, c: State)
    requires Adds(i, a, b) && Adds(i, b, c)
    ensures Adds(i, a, c)
  {
  }

  /** From `st` to `after`, suite `i` has reported its checks up to position `j`, and executed none but them. */
  ghost predicate Reported(p: Pipeline, w: World, i: nat, j: nat, st: State, after: State, js: seq<nat>)
    requires i < |p.suites| && j <= |p.suites[i].checks|
  {
    && Covers(p, i, j, js)
    && Adds(i, st, after) && |after.log| == |st.log| + |js|
    && CheckRows(p, w, i, js, after.log, |st.log|, after.calls)
  }

  /** The rows reported before stay as they are, and one more joins them. */
  lemma RowsStay(p: Pipeline, w: World, i: nat, j: nat, js: seq<nat>, log: seq<Entry>, at: nat, calls: seq<(nat, nat)>,
                 more: seq<Entry>, calls': seq<(nat, nat)>)
    requires i < |p.suites| && CheckRows(p, w, i, js, log, at, calls) && log <= more
    requires calls' == calls || calls' == calls + [(i, j)]
    requires forall k :: 0 <= k < |js| ==> js[k] < j
    requires CheckRow(p, w, i, j, more, at + |js|, calls')
    ensures CheckRows(p, w, i, js + [j], more, at, calls')
  {
    hide CheckRow;
    forall k | 0 <= k < |js| ensures CheckRow(p, w, i, js[k], more, at + k, calls') {
      assert (i, js[k]) in calls <==> (i, js[k]) in calls';
      CheckRowLater(p, w, i, js[k], log, at + k, calls, more, calls');
    }
  }

  lemma CoveredBefore(p: Pipeline, i: nat, j: nat, js: seq<nat>)
    requires i < |p.suites| && j <= |p.suites[i].checks| && Covers(p, i, j, js)
    ensures forall k :: 0 <= k < |js| ==> js[k] < j
  {
    hide Concerns;
    assert forall k :: 0 <= k < |js| ==> js[k] in js;
  }

  lemma ReportedOneMore(p: Pipeline, w: World, i: nat, j: nat, st: State, st1: State, st2: State, js: seq<nat>)
    requires i < |p.suites| && 0 < j <= |p.suites[i].checks| && Reported(p, w, i, j - 1, st, st1, js)
    requires Concerns(p.suites[i].checks[j - 1], p.subject) && Adds(i, st1, st2) && |st2.log| == |st1.log| + 1
    requires st2.calls == st1.calls || st2.calls == st1.calls + [(i, j - 1)]
    requires CheckRow(p, w, i, j - 1, st2.log, |st1.log|, st2.calls)
    ensures Reported(p, w, i, j, st, st2, js + [j - 1])
  {
    hide CheckRow, CheckRows, Concerns, Covers;
    CoversOneMore(p, i, j, js, true);
    CoveredBefore(p, i, j - 1, js);
    AddsTwice(i, st, st1, st2);
    RowsStay(p, w, i, j - 1, js, st1.log, |st.log|, st1.calls, st2.log, st2.calls);
  }

  lemma {:induction false} ChecksReported(p: Pipeline, w: World, i: nat, j: nat, st: State) returns (js: seq<nat>)
    requires i < |p.suites| && j <= |p.suites[i].checks| && Latched(p, w, st, i, 0)
    ensures Reported(p, w, i, j, st, ChecksTo(p, w, i, j, st), js)
  {
    hide Latched, CheckRow, Concerns, AppliesToSubject;
    if j == 0 {
      js := [];
    } else {
      js := ChecksReported(p, w, i, j - 1, st);
      var st1 := ChecksTo(p, w, i, j - 1, st);
      ChecksToLatched(p, w, i, j - 1, st);
      var check := p.suites[i].checks[j - 1];
      ConcernsIs(check, p.subject);
      if Concerns(check, p.subject) {
        CheckStepRow(p, w, i, j - 1, st1);
        hide CheckStep, Reported;
        ReportedOneMore(p, w, i, j, st, st1, ChecksTo(p, w, i, j, st), js);
        js := js + [j - 1];
      } else {
        CoversOneMore(p, i, j, js, false);
      }
    }
  }

  lemma CoversOneMore(p: Pipeline, i: nat, j: nat, js: seq<nat>, one: bool)
    requires i < |p.suites| && 0 < j <= |p.suites[i].checks| && Covers(p, i, j - 1, js)
    requires one <==> Concerns(p.suites[i].checks[j - 1], p.subject)
    ensures Covers(p, i, j, if one then js + [j - 1] else js)
  {
    hide Concerns;
    assert forall a :: 0 <= a < |js| ==> js[a] in js;
  }

  lemma ListedReported(p: Pipeline, w: World, i: nat, st: State)
    requires i < |p.suites| && Latched(p, w, st, i, 0)
    ensures var st' := AllChecks(p, w, i, st);
            && st.log <= st'.log && st.calls <= st'.calls
            && (forall k :: |st.calls| <= k < |st'.calls| ==> st'.calls[k].0 == i)
            && ListsChecks(p, w, i, st'.log, |st.log|, |st'.log|, st'.calls)
  {
    var js := ChecksReported(p, w, i, |p.suites[i].checks|, st);
    hide ChecksTo, Covers, CheckRows, Latched;
  }

  lemma DeclinedReported(p: Pipeline, w: World, i: nat, st: State)
    requires i < |p.suites| && Kept(p.suites[i], p.phases) && EvaluateApplies(p, w, i) == Returns(false)
    ensures var st' := SuiteStep(p, w, i, st);
            st.log <= st'.log && st.calls == st'.calls && SuiteReport(p, w, i, st'.log, |st.log|, |st'.log|, st'.calls)
  {
    KeptIs(p.suites[i], p.phases);
    hide ComputeId, Window, SuiteRunsInPhases, Kept, HaltedIn, ListsChecks;
  }

  lemma ThrewReported(p: Pipeline, w: World, i: nat, st: State)
    requires i < |p.suites| && Kept(p.suites[i], p.phases) && EvaluateApplies(p, w, i).Throws?
    requires st.halt.None? && !HaltedIn(st.log, |st.log|)
    ensures var st' := SuiteStep(p, w, i, st);
            st.log <= st'.log && st.calls == st'.calls && SuiteReport(p, w, i, st'.log, |st.log|, |st'.log|, st'.calls)
  {
    KeptIs(p.suites[i], p.phases);
    FatalIs(p, i);
    var st' := SuiteStep(p, w, i, st);
    hide ComputeId, Window, SuiteRunsInPhases, Kept, HaltedIn, ListsChecks, HasFatal, HasFatalCheck;
    HaltedInPrefix(st.log, st'.log, |st.log|);
  }

  lemma SuiteReported(p: Pipeline, w: World, i: nat, st: State)
    requires i < |p.suites| && Latched(p, w, st, i, 0)
    ensures var st' := SuiteStep(p, w, i, st);
            && st.log <= st'.log && st.calls <= st'.calls
            && (forall k :: |st.calls| <= k < |st'.calls| ==> st'.calls[k].0 == i)
            && SuiteReport(p, w, i, st'.log, |st.log|, |st'.log|, st'.calls)
  {
    KeptIs(p.suites[i], p.phases);
    LatchIsHalt(p, w, st, i, 0);
    hide Latched, AllChecks, ListsChecks, SuiteRunsInPhases, Kept, HaltedIn, NotRunFor, PredicateThrew, Synthetic, PredicateRow;
    if Kept(p.suites[i], p.phases) {
      if EvaluateApplies(p, w, i) == Returns(false) {
        DeclinedReported(p, w, i, st);
      } else if EvaluateApplies(p, w, i).Throws? && st.halt.None? {
        ThrewReported(p, w, i, st);
      } else {
        ListedReported(p, w, i, st);
        HaltedInPrefix(st.log, AllChecks(p, w, i, st).log, |st.log|);
      }
    }
  }

  lemma KeptIs(suite: Suite, phases: Option<seq<Phase>>)
    ensures Kept(suite, phases) <==> SuiteRunsInPhases(suite, phases)
  {
  }

  lemma FatalIs(p: Pipeline, i: nat)
    requires i < |p.suites|
    ensures HasFatal(p, i) <==> HasFatalCheck(p, i)
  {
    forall c: Check ensures Concerns(c, p.subject) <==> AppliesToSubject(c, p.subject) {
      ConcernsIs(c, p.subject);
    }
    hide Concerns, AppliesToSubject;
  }

  // ----- the whole run -----

  /** Where the report of each suite begins: suite `i` stands on the lines from `bounds[i]` up to `bounds[i + 1]`. */
  ghost predicate Accounts(p: Pipeline, w: World, n: nat, log: seq<Entry>, calls: seq<(nat, nat)>, bounds: seq<nat>)
    requires n <= |p.suites|
  {
    && |bounds| == n + 1 && bounds[0] == 0 && bounds[n] == |log|
    && forall i :: 0 <= i < n ==> Section(p, w, i, log, calls, bounds)
  }

  ghost predicate Section(p: Pipeline, w: World, i: nat, log: seq<Entry>, calls: seq<(nat, nat)>, bounds: seq<nat>)
    requires i < |p.suites|
  {
    i + 1 < |bounds| && bounds[i] <= bounds[i + 1] <= |log| && SuiteReport(p, w, i, log, bounds[i], bounds[i + 1], calls)
  }

  lemma ListsLater(p: Pipeline, w: World, i: nat, log: seq<Entry>, at: nat, end: nat, calls: seq<(nat, nat)>,
                   more: seq<Entry>, calls': seq<(nat, nat)>)
    requires i < |p.suites| && at <= end <= |log| && ListsChecks(p, w, i, log, at, end, calls)
    requires log <= more && calls <= calls' && forall k :: |calls| <= k < |calls'| ==> calls'[k].0 > i
    ensures ListsChecks(p, w, i, more, at, end, calls')
  {
    hide Covers, CheckRow;
    var js :| Covers(p, i, |p.suites[i].checks|, js) && end == at + |js| && CheckRows(p, w, i, js, log, at, calls);
    forall k | 0 <= k < |js| ensures CheckRow(p, w, i, js[k], more, at + k, calls') {
      assert (i, js[k]) in calls <==> (i, js[k]) in calls';
      CheckRowLater(p, w, i, js[k], log, at + k, calls, more, calls');
    }
  }

  lemma ReportLater(p: Pipeline, w: World, i: nat, log: seq<Entry>, at: nat, end: nat, calls: seq<(nat, nat)>,
                    more: seq<Entry>, calls': seq<(nat, nat)>)
    requires i < |p.suites| && at <= end <= |log| && SuiteReport(p, w, i, log, at, end, calls)
    requires log <= more && calls <= calls' && forall k :: |calls| <= k < |calls'| ==> calls'[k].0 > i
    ensures SuiteReport(p, w, i, more, at, end, calls')
  {
    HaltedInPrefix(log, more, at);
    if ListsChecks(p, w, i, log, at, end, calls) {
      ListsLater(p, w, i, log, at, end, calls, more, calls');
    }
    hide HaltedIn, ListsChecks, Kept, HasFatal, PredicateRow;
    assert end > at ==> more[at] == log[at];
  }

  lemma {:induction false} RunReported(p: Pipeline, w: World, n: nat, start: nat) returns (bounds: seq<nat>)
    requires n <= |p.suites|
    ensures Accounts(p, w, n, RunTo(p, w, n, start).log, RunTo(p, w, n, start).calls, bounds)
  {
    if n == 0 {
      bounds := [0];
    } else {
      var before := RunReported(p, w, n - 1, start);
      var st, st' := RunTo(p, w, n - 1, start), RunTo(p, w, n, start);
      RunToLatched(p, w, n - 1, start);
      SuiteReported(p, w, n - 1, st);
      hide SuiteStep, SuiteReport, Latched;
      bounds := before + [|st'.log|];
      forall i | 0 <= i < n ensures Section(p, w, i, st'.log, st'.calls, bounds) {
        if i < n - 1 {
          assert Section(p, w, i, st.log, st.calls, before);
          ReportLater(p, w, i, st.log, before[i], before[i + 1], st.calls, st'.log, st'.calls);
        }
      }
    }
  }

  /**
   Every run's report, exactly: suite by suite in order, nothing for a suite the phases drop; for one whose
   predicate holds, one row for each check that concerns the subject, in order and with the check's flags, executed
   unless a row before it halts; one row or none when the predicate declines; and when it throws, one failure row
   that is fatal iff a fatal check concerns the subject, or the checks as not run.
   */
  lemma ReportExactly(p: Pipeline, w: World, start: nat)
    ensures exists bounds :: Accounts(p, w, |p.suites|, Run(p, w, start).log, Run(p, w, start).calls, bounds)
  {
    var bounds := RunReported(p, w, |p.suites|, start);
    hide Accounts, RunTo;
    assert Accounts(p, w, |p.suites|, Run(p, w, start).log, Run(p, w, start).calls, bounds);
  }

  // ----- when each row was made -----

  /** The row spans two readings of the clock, with those of the check it reports, if it executed, in between. */
  ghost predicate Spans(w: World, p: Pipeline, e: Entry, first: nat, last: nat) {
    && e.row.timing == Some(Timing(w.clock(first).wall, w.clock(last).wall, w.clock(last).mono - w.clock(first).mono))
    && (last == first + 1 ||
        exists j :: e.suite < |p.suites| && 0 <= j < |p.suites[e.suite].checks| && last == first + 1 + w.readings(e.suite, j))
  }

  /** From reading `start` to the one before `tick`, the clock was read for these rows and nothing else, one row after the other. */
  ghost predicate Clocked(w: World, p: Pipeline, log: seq<Entry>, start: nat, tick: nat)
    decreases |log|
  {
    if log == [] then tick == start
    else
      var init, e := log[..|log| - 1], log[|log| - 1];
      tick > 0 && exists first: nat :: Clocked(w, p, init, start, first) && Spans(w, p, e, first, tick - 1)
  }

  ghost predicate TimedWell(w: World, p: Pipeline, st: State, start: nat) {
    if p.timing then Clocked(w, p, st.log, start, st.tick) else forall e :: e in st.log ==> e.row.timing.None?
  }

  lemma SyntheticTimed(p: Pipeline, w: World, i: nat, checkId: string, outcome: Outcome,
                       fatal: Option<bool>, halts: Option<bool>, start: nat, st: State)
    requires i < |p.suites| && TimedWell(w, p, st, start)
    ensures TimedWell(w, p, Synthetic(p, w, i, checkId, outcome, fatal, halts, st), start)
  {
    hide ComputeId;
    var st' := Synthetic(p, w, i, checkId, outcome, fatal, halts, st);
    assert st'.log[..|st.log|] == st.log;
    if p.timing {
      assert Spans(w, p, st'.log[|st.log|], st.tick, st.tick + 1);
    }
  }

  lemma ExecuteTimed(p: Pipeline, w: World, i: nat, j: nat, start: nat, st: State)
    requires i < |p.suites| && j < |p.suites[i].checks| && TimedWell(w, p, st, start)
    ensures TimedWell(w, p, Execute(p, w, i, j, st), start)
  {
    hide ComputeId, ExecutionOutcome;
    var st' := Execute(p, w, i, j, st);
    assert st'.log[..|st.log|] == st.log;
    if p.timing {
      assert Spans(w, p, st'.log[|st.log|], st.tick, st.tick + 1 + w.readings(i, j));
    }
  }

  lemma {:induction false} ChecksTimed(p: Pipeline, w: World, i: nat, j: nat, start: nat, st: State)
    requires i < |p.suites| && j <= |p.suites[i].checks| && TimedWell(w, p, st, start)
    ensures TimedWell(w, p, ChecksTo(p, w, i, j, st), start)
  {
    hide TimedWell, Synthetic, Execute;
    if j > 0 {
      ChecksTimed(p, w, i, j - 1, start, st);
      var before := ChecksTo(p, w, i, j - 1, st);
      var check := p.suites[i].checks[j - 1];
      if before.halt.Some? {
        SyntheticTimed(p, w, i, check.id, NotRunOutcome(before.halt.value.checkId), check.fatal, check.halts, start, before);
      } else {
        ExecuteTimed(p, w, i, j - 1, start, before);
      }
    }
  }

  lemma SuiteTimed(p: Pipeline, w: World, i: nat, start: nat, st: State)
    requires i < |p.suites| && TimedWell(w, p, st, start)
    ensures TimedWell(w, p, SuiteStep(p, w, i, st), start)
  {
    ChecksTimed(p, w, i, |p.suites[i].checks|, start, st);
    SyntheticTimed(p, w, i, AppliesId(p.suites[i]), PREDICATE_FALSE, None, None, start, st);
    var applies := EvaluateApplies(p, w, i);
    if applies.Throws? {
      SyntheticTimed(p, w, i, AppliesId(p.suites[i]), CheckErrorOutcome(applies.error), Some(HasFatalCheck(p, i)), None, start, st);
    }
    hide ChecksTo, Synthetic, Clocked;
  }

  /** With timing on, a run reads the clock twice for every row, and in between whatever the row's check reads; with timing off no row is timed. */
  lemma {:induction false} RowsTimed(p: Pipeline, w: World, n: nat, start: nat)
    requires n <= |p.suites|
    ensures TimedWell(w, p, RunTo(p, w, n, start), start)
  {
    if n > 0 {
      RowsTimed(p, w, n - 1, start);
      SuiteTimed(p, w, n - 1, start, RunTo(p, w, n - 1, start));
      hide SuiteStep, TimedWell;
    }
  }
}
