/**
 Runs compared across phase filters: the verdict of a full pass against the
 verdicts of filtered passes, and the report of a filtered pass against the
 full report. Checks are fixed functions of the subject here: both runs meet the same world.
 */
module Phases {
  import opened Options
  import opened Results
  import opened Orchestration
  import opened Halting

  // ----- the verdict -----

  predicate CheckFails(p: Pipeline, w: World, i: nat, j: nat)
    requires i < |p.suites| && j < |p.suites[i].checks|
  {
    var check := p.suites[i].checks[j];
    AppliesToSubject(check, p.subject) && check.fatal == Some(true) && ExecutionOutcome(w, i, j).Failure?
  }

  /**
   Suite `i` would fail the subject if it were run on its own: a fatal check of
   it fails or throws, or its predicate throws while it has a fatal check.
   Nothing here mentions halting.
   */
  predicate SuiteFails(p: Pipeline, w: World, i: nat)
    requires i < |p.suites|
  {
    match EvaluateApplies(p, w, i)
    case Throws(_) => HasFatalCheck(p, i)
    case Returns(applies) => applies && exists j :: 0 <= j < |p.suites[i].checks| && CheckFails(p, w, i, j)
  }

  ghost predicate Tainted(log: seq<Entry>) {
    exists k :: 0 <= k < |log| && FatalFailure(log[k].row)
  }

  lemma TaintedAppend(log: seq<Entry>, e: Entry)
    ensures Tainted(log + [e]) <==> Tainted(log) || FatalFailure(e.row)
  {
    if Tainted(log) {
      var k :| 0 <= k < |log| && FatalFailure(log[k].row);
      assert (log + [e])[k] == log[k];
    }
    assert (log + [e])[|log|] == e;
  }

  lemma CheckStepVerdict(p: Pipeline, w: World, i: nat, j: nat, st: State)
    requires i < |p.suites| && j < |p.suites[i].checks|
    requires st.halt.Some? ==> Tainted(st.log)
    ensures var st' := CheckStep(p, w, i, j, st);
            && (st'.halt.Some? ==> Tainted(st'.log))
            && (Tainted(st'.log) <==> Tainted(st.log) || CheckFails(p, w, i, j))
  {
    var after := CheckStep(p, w, i, j, st);
    if |after.log| > |st.log| {
      TaintedAppend(st.log, after.log[|st.log|]);
      assert after.log == st.log + [after.log[|st.log|]];
    }
    hide Tainted, ExecutionOutcome;
  }

  lemma {:induction false} ChecksToVerdict(p: Pipeline, w: World, i: nat, j: nat, st: State)
    requires i < |p.suites| && j <= |p.suites[i].checks|
    requires st.halt.Some? ==> Tainted(st.log)
    ensures var st' := ChecksTo(p, w, i, j, st);
            && (st'.halt.Some? ==> Tainted(st'.log))
            && (Tainted(st'.log) <==> Tainted(st.log) || exists k :: 0 <= k < j && CheckFails(p, w, i, k))
  {
    hide CheckStep, Tainted, CheckFails;
    if j > 0 {
      ChecksToVerdict(p, w, i, j - 1, st);
      CheckStepVerdict(p, w, i, j - 1, ChecksTo(p, w, i, j - 1, st));
      assert (exists k :: 0 <= k < j && CheckFails(p, w, i, k)) <==>
             CheckFails(p, w, i, j - 1) || exists k :: 0 <= k < j - 1 && CheckFails(p, w, i, k);
    }
  }

  lemma SuiteStepVerdict(p: Pipeline, w: World, i: nat, st: State)
    requires i < |p.suites|
    requires st.halt.Some? ==> Tainted(st.log)
    ensures var st' := SuiteStep(p, w, i, st);
            && (st'.halt.Some? ==> Tainted(st'.log))
            && (Tainted(st'.log) <==>
                Tainted(st.log) || (SuiteRunsInPhases(p.suites[i], p.phases) && SuiteFails(p, w, i)))
  {
    ChecksToVerdict(p, w, i, |p.suites[i].checks|, st);
    hide ChecksTo, Tainted, CheckFails, AppliesToSubject;
    var after := SuiteStep(p, w, i, st);
    if |after.log| == |st.log| + 1 && after.log == st.log + [after.log[|st.log|]] {
      TaintedAppend(st.log, after.log[|st.log|]);
    }
  }

  lemma {:induction false} RunToVerdict(p: Pipeline, w: World, i: nat, start: nat)
    requires i <= |p.suites|
    ensures var st := RunTo(p, w, i, start);
            && (st.halt.Some? ==> Tainted(st.log))
            && (Tainted(st.log) <==>
                exists k :: 0 <= k < i && SuiteRunsInPhases(p.suites[k], p.phases) && SuiteFails(p, w, k))
  {
    hide SuiteStep, SuiteFails, SuiteRunsInPhases;
    if i > 0 {
      RunToVerdict(p, w, i - 1, start);
      SuiteStepVerdict(p, w, i - 1, RunTo(p, w, i - 1, start));
    }
  }

  /**
   The reference definition of `verified`: a run is verified iff no suite it
   keeps would fail the subject on its own. Where the run halted does not matter.
   */
  lemma VerifiedIffNoKeptSuiteFails(p: Pipeline, w: World, start: nat)
    ensures Verified(Rows(Run(p, w, start).log)) <==>
            forall i :: 0 <= i < |p.suites| && SuiteRunsInPhases(p.suites[i], p.phases) ==> !SuiteFails(p, w, i)
  {
    RunToVerdict(p, w, |p.suites|, start);
    var log := Run(p, w, start).log;
    hide RunTo;
    if Tainted(log) {
      var k :| 0 <= k < |log| && FatalFailure(log[k].row);
      assert FatalFailure(Rows(log)[k]);
    }
  }

  // ----- phase requests -----

  /** A semantic request brings recognition with it. */
  function ExpandPhases(requested: Option<seq<Phase>>): (expanded: Option<seq<Phase>>)
    ensures expanded.Some? <==> requested.Some?
    ensures requested.Some? ==>
              forall phase :: phase in expanded.value <==>
                phase in requested.value || (phase == Recognition && Semantic in requested.value)
    ensures requested.Some? ==> requested.value <= expanded.value && |expanded.value| <= |requested.value| + 1
    ensures expanded != requested ==> Recognition !in requested.value
  {
    if requested.Some? && Semantic in requested.value && Recognition !in requested.value
    then Some(requested.value + [Recognition])
    else requested
  }

  function Pass(p: Pipeline, requested: Option<seq<Phase>>): Pipeline {
    p.(phases := ExpandPhases(requested))
  }

  /** Every tagged suite is kept by one of the passes. */
  ghost predicate Cover(p: Pipeline, passes: seq<seq<Phase>>) {
    forall i :: 0 <= i < |p.suites| && p.suites[i].phase.Some? ==>
      exists k :: 0 <= k < |passes| && SuiteRunsInPhases(p.suites[i], Pass(p, Some(passes[k])).phases)
  }

  /**
   Splitting one call into phase-filtered passes never changes the verdict: the
   full pass is verified iff every pass is, wherever any of the runs halts.
   */
  lemma PassesDecideTheFullVerdict(p: Pipeline, w: World, passes: seq<seq<Phase>>, start: nat, starts: nat -> nat)
    requires passes != [] && Cover(p, passes)
    ensures Verified(Rows(Run(Pass(p, None), w, start).log)) <==>
            forall k :: 0 <= k < |passes| ==> Verified(Rows(Run(Pass(p, Some(passes[k])), w, starts(k)).log))
  {
    var full := Pass(p, None);
    VerifiedIffNoKeptSuiteFails(full, w, start);
    forall k | 0 <= k < |passes|
      ensures Verified(Rows(Run(Pass(p, Some(passes[k])), w, starts(k)).log)) <==>
              forall i :: 0 <= i < |p.suites| && SuiteRunsInPhases(p.suites[i], Pass(p, Some(passes[k])).phases) ==>
                !SuiteFails(full, w, i)
    {
      var pass := Pass(p, Some(passes[k]));
      VerifiedIffNoKeptSuiteFails(pass, w, starts(k));
      forall i | 0 <= i < |p.suites| ensures SuiteFails(pass, w, i) == SuiteFails(full, w, i) {
        assert forall j :: 0 <= j < |p.suites[i].checks| ==> CheckFails(pass, w, i, j) == CheckFails(full, w, i, j);
      }
    }
    hide Run, Verified;
    forall i | 0 <= i < |p.suites|
      ensures exists k :: 0 <= k < |passes| && SuiteRunsInPhases(p.suites[i], Pass(p, Some(passes[k])).phases)
    {
      if p.suites[i].phase.None? {
        assert SuiteRunsInPhases(p.suites[i], Pass(p, Some(passes[0])).phases);
      }
    }
  }

  // ----- the report -----

  function Untimed(e: Entry): Entry { e.(row := e.row.(timing := None)) }

  function UntimedLog(log: seq<Entry>): (r: seq<Entry>)
    ensures |r| == |log| && forall k :: 0 <= k < |log| ==> r[k] == Untimed(log[k])
  {
    seq(|log|, k requires 0 <= k < |log| => Untimed(log[k]))
  }

  predicate Keeps(p: Pipeline, suite: nat) {
    suite < |p.suites| && SuiteRunsInPhases(p.suites[suite], p.phases)
  }

  /** The entries of the suites that `p` keeps, timing aside. */
  function Kept(p: Pipeline, log: seq<Entry>): seq<Entry> {
    if log == [] then []
    else
      var last := log[|log| - 1];
      Kept(p, log[..|log| - 1]) + if Keeps(p, last.suite) then [Untimed(last)] else []
  }

  lemma {:induction false} KeptConcat(p: Pipeline, a: seq<Entry>, b: seq<Entry>)
    ensures Kept(p, a + b) == Kept(p, a) + Kept(p, b)
    decreases |b|
  {
    if b == [] {
      assert a + b == a;
    } else {
      var init := b[..|b| - 1];
      assert (a + b)[..|a + b| - 1] == a + init;
      KeptConcat(p, a, init);
    }
  }

  lemma {:induction false} KeptNone(p: Pipeline, log: seq<Entry>)
    requires forall e :: e in log ==> !Keeps(p, e.suite)
    ensures Kept(p, log) == []
  {
    if log != [] {
      KeptNone(p, log[..|log| - 1]);
    }
  }

  lemma {:induction false} KeptFrom(p: Pipeline, log: seq<Entry>, k: nat)
    requires k < |Kept(p, log)|
    ensures exists e :: e in log && Kept(p, log)[k] == Untimed(e)
  {
    var last := log[|log| - 1];
    var init := Kept(p, log[..|log| - 1]);
    if k < |init| {
      KeptFrom(p, log[..|log| - 1], k);
    } else {
      assert Kept(p, log)[k] == Untimed(last);
    }
  }

  /** The pass without a filter, over the same suites. */
  function Full(p: Pipeline): Pipeline { p.(phases := None) }

  /** `st'` extends `st` by entries of suite `i` only, and a halt once set stays. */
  ghost predicate Extends(st: State, st': State, i: nat) {
    && st.log <= st'.log
    && (forall e :: e in st'.log[|st.log|..] ==> e.suite == i)
    && (st.halt.Some? ==> st'.halt == st.halt)
    && (st.halt.None? && st'.halt.Some? ==> st'.halt.value.suite == i)
  }

  lemma {:induction false} ChecksToExtends(p: Pipeline, w: World, i: nat, j: nat, st: State)
    requires i < |p.suites| && j <= |p.suites[i].checks|
    ensures Extends(st, ChecksTo(p, w, i, j, st), i)
  {
    if j > 0 {
      ChecksToExtends(p, w, i, j - 1, st);
    }
  }

  lemma SuiteStepExtends(p: Pipeline, w: World, i: nat, st: State)
    requires i < |p.suites|
    ensures Extends(st, SuiteStep(p, w, i, st), i)
  {
    ChecksToExtends(p, w, i, |p.suites[i].checks|, st);
  }

  lemma {:induction false} RunToGrows(p: Pipeline, w: World, i: nat, n: nat, start: nat)
    requires i <= n <= |p.suites|
    ensures var a, b := RunTo(p, w, i, start), RunTo(p, w, n, start);
            && a.log <= b.log
            && (a.halt.Some? ==> b.halt == a.halt)
            && (a.halt.None? && b.halt.Some? ==> i <= b.halt.value.suite < n)
    decreases n
  {
    if i < n {
      RunToGrows(p, w, i, n - 1, start);
      SuiteStepExtends(p, w, n - 1, RunTo(p, w, n - 1, start));
      hide SuiteStep;
    }
  }

  function HaltedBy(st: State): Option<string> {
    if st.halt.Some? then Some(st.halt.value.checkId) else None
  }

  /** The filtered run has reported exactly what the full run reported for the suites `p` keeps. */
  ghost predicate SameReport(p: Pipeline, full: State, filtered: State) {
    Kept(p, full.log) == UntimedLog(filtered.log)
  }

  lemma SameAppend(p: Pipeline, full: State, filtered: State, a: Entry, b: Entry)
    requires SameReport(p, full, filtered)
    requires Keeps(p, a.suite) && Untimed(a) == Untimed(b)
    ensures Kept(p, full.log + [a]) == UntimedLog(filtered.log + [b])
  {
    assert (full.log + [a])[..|full.log|] == full.log;
  }

  lemma {:induction false} ChecksToSame(p: Pipeline, w: World, i: nat, j: nat, st: State, st': State)
    requires i < |p.suites| && j <= |p.suites[i].checks| && Keeps(p, i)
    requires SameReport(p, st, st') && HaltedBy(st) == HaltedBy(st')
    ensures var a, b := ChecksTo(Full(p), w, i, j, st), ChecksTo(p, w, i, j, st');
            SameReport(p, a, b) && HaltedBy(a) == HaltedBy(b)
  {
    hide CheckStep, SameReport;
    if j > 0 {
      ChecksToSame(p, w, i, j - 1, st, st');
      CheckStepSame(p, w, i, j - 1, ChecksTo(Full(p), w, i, j - 1, st), ChecksTo(p, w, i, j - 1, st'));
    }
  }

  lemma CheckStepSame(p: Pipeline, w: World, i: nat, j: nat, st: State, st': State)
    requires i < |p.suites| && j < |p.suites[i].checks| && Keeps(p, i)
    requires SameReport(p, st, st') && HaltedBy(st) == HaltedBy(st')
    ensures var a, b := CheckStep(Full(p), w, i, j, st), CheckStep(p, w, i, j, st');
            SameReport(p, a, b) && HaltedBy(a) == HaltedBy(b)
  {
    hide Kept, UntimedLog, ComputeId, ExecutionOutcome, Window;
    var a, b := CheckStep(Full(p), w, i, j, st), CheckStep(p, w, i, j, st');
    if AppliesToSubject(p.suites[i].checks[j], p.subject) {
      SameAppend(p, st, st', a.log[|st.log|], b.log[|st'.log|]);
    }
  }

  lemma SyntheticSame(p: Pipeline, w: World, i: nat, checkId: string, outcome: Outcome,
                      fatal: Option<bool>, halts: Option<bool>, st: State, st': State)
    requires i < |p.suites| && Keeps(p, i) && SameReport(p, st, st')
    ensures var a, b := Synthetic(Full(p), w, i, checkId, outcome, fatal, halts, st),
                        Synthetic(p, w, i, checkId, outcome, fatal, halts, st');
            SameReport(p, a, b) && a.halt == st.halt && b.halt == st'.halt
  {
    var a, b := Synthetic(Full(p), w, i, checkId, outcome, fatal, halts, st),
                Synthetic(p, w, i, checkId, outcome, fatal, halts, st');
    SameAppend(p, st, st', a.log[|st.log|], b.log[|st'.log|]);
  }

  lemma PredicateThrewSame(p: Pipeline, w: World, i: nat, error: string, st: State, st': State)
    requires i < |p.suites| && Keeps(p, i)
    requires SameReport(p, st, st') && HaltedBy(st) == HaltedBy(st')
    ensures var a, b := PredicateThrew(Full(p), w, i, error, st), PredicateThrew(p, w, i, error, st');
            SameReport(p, a, b) && HaltedBy(a) == HaltedBy(b)
  {
    hide Synthetic, Kept, UntimedLog, AppliesId, CheckErrorOutcome;
    assert HasFatalCheck(Full(p), i) == HasFatalCheck(p, i);
    SyntheticSame(p, w, i, AppliesId(p.suites[i]), CheckErrorOutcome(error), Some(HasFatalCheck(p, i)), None, st, st');
  }

  lemma SuiteStepSame(p: Pipeline, w: World, i: nat, st: State, st': State)
    requires i < |p.suites| && Keeps(p, i)
    requires SameReport(p, st, st') && HaltedBy(st) == HaltedBy(st')
    ensures var a, b := SuiteStep(Full(p), w, i, st), SuiteStep(p, w, i, st');
            SameReport(p, a, b) && HaltedBy(a) == HaltedBy(b)
  {
    hide ChecksTo, Synthetic, PredicateThrew, SameReport, AppliesId;
    ChecksToSame(p, w, i, |p.suites[i].checks|, st, st');
    SyntheticSame(p, w, i, AppliesId(p.suites[i]), PREDICATE_FALSE, None, None, st, st');
    if EvaluateApplies(p, w, i).Throws? {
      PredicateThrewSame(p, w, i, EvaluateApplies(p, w, i).error, st, st');
    }
  }

  /** A suite that `p` drops adds nothing to what is compared. */
  lemma DroppedSuiteStep(p: Pipeline, w: World, i: nat, st: State)
    requires i < |p.suites| && !Keeps(p, i)
    ensures Kept(p, SuiteStep(Full(p), w, i, st).log) == Kept(p, st.log)
  {
    var st' := SuiteStep(Full(p), w, i, st);
    SuiteStepExtends(Full(p), w, i, st);
    hide SuiteStep;
    var added := st'.log[|st.log|..];
    assert st'.log == st.log + added;
    KeptConcat(p, st.log, added);
    KeptNone(p, added);
  }

  /** Over a dropped suite that does not halt the full run, the two runs still agree. */
  lemma DroppedSame(p: Pipeline, w: World, i: nat, st: State, st': State)
    requires i < |p.suites| && !Keeps(p, i) && SameReport(p, st, st') && HaltedBy(st) == HaltedBy(st')
    requires var halt := SuiteStep(Full(p), w, i, st).halt; halt.None? || Keeps(p, halt.value.suite)
    ensures var a, b := SuiteStep(Full(p), w, i, st), SuiteStep(p, w, i, st');
            SameReport(p, a, b) && HaltedBy(a) == HaltedBy(b)
  {
    DroppedSuiteStep(p, w, i, st);
    SuiteStepExtends(Full(p), w, i, st);
    assert SuiteStep(p, w, i, st') == st';
    hide SuiteStep, Kept, UntimedLog;
  }

  /** Until the full run halts in a suite that `p` drops, the two runs agree and halt alike. */
  lemma {:induction false} RunToSame(p: Pipeline, w: World, i: nat, start: nat, start': nat)
    requires i <= |p.suites|
    requires var halt := RunTo(Full(p), w, i, start).halt;
             halt.None? || Keeps(p, halt.value.suite)
    ensures var a, b := RunTo(Full(p), w, i, start), RunTo(p, w, i, start');
            SameReport(p, a, b) && HaltedBy(a) == HaltedBy(b)
  {
    if i > 0 {
      RunToGrows(Full(p), w, i - 1, i, start);
      hide SuiteStep, SameReport, HaltedBy;
      RunToSame(p, w, i - 1, start, start');
      if Keeps(p, i - 1) {
        SuiteStepSame(p, w, i - 1, RunTo(Full(p), w, i - 1, start), RunTo(p, w, i - 1, start'));
      } else {
        DroppedSame(p, w, i - 1, RunTo(Full(p), w, i - 1, start), RunTo(p, w, i - 1, start'));
      }
    } else {
      assert Kept(p, []) == [] && UntimedLog([]) == [];
    }
  }

  /**
   Suite `i` has nothing to report on its own account: its predicate declined,
   or it applies and none of its checks is for this subject.
   */
  predicate Inert(p: Pipeline, w: World, i: nat)
    requires i < |p.suites|
  {
    match EvaluateApplies(p, w, i)
    case Throws(_) => false
    case Returns(applies) =>
      !applies || forall j :: 0 <= j < |p.suites[i].checks| ==> !AppliesToSubject(p.suites[i].checks[j], p.subject)
  }

  /** No check forges the orchestrator's own skip. */
  ghost predicate Honest(w: World) {
    forall i: nat, j: nat :: w.execute(i, j).Returns? ==>
      !(w.execute(i, j).value.Skipped? && w.execute(i, j).value.code == Some(NOT_RUN_AFTER_FATAL))
  }

  /** The first applicable check of suite `i` decides the first entry the suite adds. */
  lemma {:induction false} ChecksToFirst(p: Pipeline, w: World, i: nat, j: nat, st: State)
    requires i < |p.suites| && j <= |p.suites[i].checks|
    ensures var st' := ChecksTo(p, w, i, j, st);
            if forall k :: 0 <= k < j ==> !AppliesToSubject(p.suites[i].checks[k], p.subject) then st' == st
            else && |st'.log| > |st.log|
                 && st'.log[..|st.log|] == st.log
                 && st'.log[|st.log|].suite == i
                 && if st.halt.Some? then NotRun(st'.log[|st.log|].row)
                    else exists k :: 0 <= k < j && st'.log[|st.log|].row.outcome == ExecutionOutcome(w, i, k)
  {
    if j > 0 {
      ChecksToFirst(p, w, i, j - 1, st);
    }
  }

  /** After a halt in a dropped suite the two reports stay equal over inert suites. */
  lemma {:induction false} RunToSameAfterHalt(p: Pipeline, w: World, i: nat, start: nat, start': nat)
    requires i <= |p.suites|
    requires var halt := RunTo(Full(p), w, i, start).halt;
             && halt.Some? && !Keeps(p, halt.value.suite)
             && forall k :: halt.value.suite < k < i && Keeps(p, k) ==> Inert(p, w, k)
    ensures var a, b := RunTo(Full(p), w, i, start), RunTo(p, w, i, start');
            SameReport(p, a, b) && b.halt.None?
  {
    hide Kept, UntimedLog, EvaluateApplies, Inert;
    var halt := RunTo(Full(p), w, i, start).halt.value;
    var a, b := RunTo(Full(p), w, i - 1, start), RunTo(p, w, i - 1, start');
    RunToGrows(Full(p), w, i - 1, i, start);
    SuiteStepExtends(Full(p), w, i - 1, a);
    if a.halt.None? {
      RunToSame(p, w, i - 1, start, start');
      DroppedSuiteStep(p, w, i - 1, a);
    } else {
      RunToGrows(Full(p), w, 0, i - 1, start);
      RunToSameAfterHalt(p, w, i - 1, start, start');
      if Keeps(p, i - 1) {
        InertStep(p, w, i - 1, a, b);
      } else {
        DroppedSuiteStep(p, w, i - 1, a);
      }
    }
  }

  lemma InertStep(p: Pipeline, w: World, i: nat, st: State, st': State)
    requires i < |p.suites| && Keeps(p, i) && Inert(p, w, i)
    requires SameReport(p, st, st') && st'.halt.None?
    ensures var a, b := SuiteStep(Full(p), w, i, st), SuiteStep(p, w, i, st');
            SameReport(p, a, b) && b.halt.None?
  {
    ChecksToFirst(Full(p), w, i, |p.suites[i].checks|, st);
    ChecksToFirst(p, w, i, |p.suites[i].checks|, st');
    hide ChecksTo;
    if EvaluateApplies(p, w, i) == Returns(false) && p.suites[i].id in p.explicitSuiteIds {
      SameAppend(p, st, st', SuiteStep(Full(p), w, i, st).log[|st.log|], SuiteStep(p, w, i, st').log[|st'.log|]);
    }
  }

  /** An unhalted run reports an active suite with a row that is no orchestrator skip, a failure if its predicate threw. */
  lemma ActiveUnhalted(p: Pipeline, w: World, k: nat, st: State)
    requires Honest(w) && k < |p.suites| && Keeps(p, k) && !Inert(p, w, k) && st.halt.None?
    ensures var log := SuiteStep(p, w, k, st).log;
            && |log| > |st.log|
            && !NotRun(log[|st.log|].row)
            && (EvaluateApplies(p, w, k).Throws? ==> log[|st.log|].row.outcome.Failure?)
  {
    ChecksToFirst(p, w, k, |p.suites[k].checks|, st);
    hide ChecksTo;
  }

  /** A halted run reports an active suite whose predicate did not throw with a not-run row. */
  lemma ActiveHalted(p: Pipeline, w: World, k: nat, st: State)
    requires k < |p.suites| && Keeps(p, k) && !Inert(p, w, k) && st.halt.Some?
    requires EvaluateApplies(p, w, k).Returns?
    ensures var log := SuiteStep(p, w, k, st).log;
            |log| > |st.log| && log[|st.log|].suite == k && NotRun(log[|st.log|].row)
  {
    ChecksToFirst(p, w, k, |p.suites[k].checks|, st);
    hide ChecksTo;
  }

  /** The first kept entry of what follows: the first entry itself when it is kept, and some entry in any case. */
  lemma KeptHead(p: Pipeline, log: seq<Entry>)
    ensures Kept(p, log) != [] ==> exists e :: e in log && Kept(p, log)[0] == Untimed(e)
    ensures log != [] && Keeps(p, log[0].suite) ==> Kept(p, log) != [] && Kept(p, log)[0] == Untimed(log[0])
  {
    if Kept(p, log) != [] {
      KeptFrom(p, log, 0);
    }
    if log != [] && Keeps(p, log[0].suite) {
      assert log == [log[0]] + log[1..];
      KeptConcat(p, [log[0]], log[1..]);
      assert [log[0]][..0] == [];
      assert Kept(p, [log[0]]) == [Untimed(log[0])];
    }
  }

  /** Everything the full run reports after a point where it is already halted is a skip. */
  lemma TailSkips(p: Pipeline, w: World, k: nat, start: nat)
    requires k <= |p.suites| && RunTo(p, w, k, start).halt.Some?
    ensures RunTo(p, w, k, start).log <= Run(p, w, start).log
    ensures forall e :: e in Run(p, w, start).log[|RunTo(p, w, k, start).log|..] ==> e.row.outcome.Skipped?
  {
    RunToGrows(p, w, k, |p.suites|, start);
    RunToLatched(p, w, |p.suites|, start);
    RunToLatched(p, w, k, start);
    hide RunTo;
  }

  /** At a kept suite with something to report, a halted full run and an unhalted filtered run part ways. */
  lemma PartAt(p: Pipeline, w: World, k: nat, start: nat, start': nat)
    requires Honest(w)
    requires k < |p.suites| && Keeps(p, k) && !Inert(p, w, k)
    requires var a, b := RunTo(Full(p), w, k, start), RunTo(p, w, k, start');
             SameReport(p, a, b) && a.halt.Some? && b.halt.None?
    ensures !SameReport(p, Run(Full(p), w, start), Run(p, w, start'))
  {
    var a, b := RunTo(Full(p), w, k, start), RunTo(p, w, k, start');
    var full, filtered := Run(Full(p), w, start), Run(p, w, start');
    TailSkips(Full(p), w, k, start);
    var tail := full.log[|a.log|..];
    ActiveUnhalted(p, w, k, b);
    RunToGrows(p, w, k + 1, |p.suites|, start');
    SuiteStepExtends(p, w, k, b);
    var own := RunTo(p, w, k + 1, start').log[|b.log|];
    assert filtered.log[|b.log|] == own;
    if EvaluateApplies(p, w, k).Returns? {
      ActiveHalted(Full(p), w, k, a);
      RunToGrows(Full(p), w, k + 1, |p.suites|, start);
      assert NotRun(tail[0].row) && tail[0].suite == k;
    }
    hide RunTo, SuiteStep, EvaluateApplies;
    assert full.log == a.log + tail;
    KeptHead(p, tail);
    Diverges(p, a.log, tail, b.log, filtered.log);
  }

  /** Two reports that agree so far no longer do once their next kept entries differ. */
  lemma Diverges(p: Pipeline, a: seq<Entry>, tail: seq<Entry>, b: seq<Entry>, filtered: seq<Entry>)
    requires Kept(p, a) == UntimedLog(b) && |b| < |filtered|
    requires Kept(p, tail) == [] || Kept(p, tail)[0] != Untimed(filtered[|b|])
    ensures UntimedLog(filtered) != Kept(p, a + tail)
  {
    hide Kept, Untimed;
    KeptConcat(p, a, tail);
  }

  /**
   When the full run's halt leaves a filtered run's report intact: there is none, or it
   lies in a kept suite, or every kept suite after it is inert.
   */
  ghost predicate HaltSpares(p: Pipeline, w: World, halt: Option<Halt>) {
    || halt.None?
    || Keeps(p, halt.value.suite)
    || forall k :: halt.value.suite < k < |p.suites| && Keeps(p, k) ==> Inert(p, w, k)
  }

  /** The rows of the full pass for the suites a filtered pass keeps, when the halt spares them. */
  lemma SparedReport(p: Pipeline, w: World, start: nat, start': nat)
    requires HaltSpares(p, w, Run(Full(p), w, start).halt)
    ensures UntimedLog(Run(p, w, start').log) == Kept(p, Run(Full(p), w, start).log)
  {
    var halt := Run(Full(p), w, start).halt;
    if halt.None? || Keeps(p, halt.value.suite) {
      RunToSame(p, w, |p.suites|, start, start');
    } else {
      RunToSameAfterHalt(p, w, |p.suites|, start, start');
    }
  }

  /** The first suite at which an unspared filtered run goes its own way. */
  lemma WhereTheyPart(p: Pipeline, w: World, start: nat, start': nat) returns (first: nat)
    requires !HaltSpares(p, w, Run(Full(p), w, start).halt)
    ensures first < |p.suites| && Keeps(p, first) && !Inert(p, w, first)
    ensures var a, b := RunTo(Full(p), w, first, start), RunTo(p, w, first, start');
            SameReport(p, a, b) && a.halt.Some? && b.halt.None?
  {
    var halt := Run(Full(p), w, start).halt;
    var k :| halt.value.suite < k < |p.suites| && Keeps(p, k) && !Inert(p, w, k);
    first := FirstActive(p, w, halt.value.suite, k);
    RunToGrows(Full(p), w, first, |p.suites|, start);
    RunToSameAfterHalt(p, w, first, start, start');
  }

  /**
   A filtered pass reports exactly the full pass's rows for the suites it keeps
   if the full pass did not halt, or halted in a kept suite, or every kept
   suite after the halting one is inert; and only if, as long as no check forges the
   orchestrator's own skip. (Timing aside: a dropped suite takes time too.)
   */
  lemma FilteredReport(p: Pipeline, w: World, start: nat, start': nat)
    ensures var full := Run(Full(p), w, start);
            && (HaltSpares(p, w, full.halt) ==> UntimedLog(Run(p, w, start').log) == Kept(p, full.log))
            && (Honest(w) && UntimedLog(Run(p, w, start').log) == Kept(p, full.log) ==> HaltSpares(p, w, full.halt))
  {
    if HaltSpares(p, w, Run(Full(p), w, start).halt) {
      SparedReport(p, w, start, start');
    } else if Honest(w) {
      var first := WhereTheyPart(p, w, start, start');
      PartAt(p, w, first, start, start');
    }
  }

  // ----- the union of several passes -----

  /** Timing aside, some pass reports `e`. */
  ghost predicate InSomePass(p: Pipeline, w: World, passes: seq<seq<Phase>>, starts: nat -> nat, e: Entry) {
    exists k :: 0 <= k < |passes| && InPass(p, w, passes[k], starts(k), e)
  }

  ghost predicate InPass(p: Pipeline, w: World, pass: seq<Phase>, start: nat, e: Entry) {
    e in UntimedLog(Run(Pass(p, Some(pass)), w, start).log)
  }

  /** The passes together report what the full run reports, no more and no less. */
  ghost predicate UnionIsFull(p: Pipeline, w: World, passes: seq<seq<Phase>>, start: nat, starts: nat -> nat) {
    forall e :: InSomePass(p, w, passes, starts, e) <==> e in UntimedLog(Run(Pass(p, None), w, start).log)
  }

  /** The full run's halt leaves every one of the passes' reports intact. */
  ghost predicate SparesEveryPass(p: Pipeline, w: World, passes: seq<seq<Phase>>, start: nat) {
    forall k :: 0 <= k < |passes| ==> HaltSpares(Pass(p, Some(passes[k])), w, Run(Pass(p, None), w, start).halt)
  }

  lemma {:induction false} KeptMembers(p: Pipeline, log: seq<Entry>, e: Entry)
    ensures e in Kept(p, log) <==> e in UntimedLog(log) && Keeps(p, e.suite)
  {
    if log != [] {
      var init, last := log[..|log| - 1], log[|log| - 1];
      KeptMembers(p, init, e);
      assert UntimedLog(log) == UntimedLog(init) + [Untimed(last)];
      assert log == init + [last];
    }
  }

  lemma {:induction false} SuitesInRange(p: Pipeline, w: World, i: nat, start: nat)
    requires i <= |p.suites|
    ensures forall e :: e in RunTo(p, w, i, start).log ==> e.suite < i
  {
    if i > 0 {
      SuitesInRange(p, w, i - 1, start);
      var st := RunTo(p, w, i - 1, start);
      SuiteStepExtends(p, w, i - 1, st);
      hide SuiteStep;
      var log := RunTo(p, w, i, start).log;
      assert log == st.log + log[|st.log|..];
    }
  }

  lemma UntimedMembers(log: seq<Entry>, e: Entry)
    ensures e in UntimedLog(log) <==> exists k :: 0 <= k < |log| && Untimed(log[k]) == e
  {
    assert |UntimedLog(log)| == |log|;
  }

  lemma SparedUnion(p: Pipeline, w: World, passes: seq<seq<Phase>>, start: nat, starts: nat -> nat, e: Entry)
    requires passes != [] && Cover(p, passes) && SparesEveryPass(p, w, passes, start)
    ensures InSomePass(p, w, passes, starts, e) <==> e in UntimedLog(Run(Pass(p, None), w, start).log)
  {
    var full := Run(Pass(p, None), w, start);
    forall k | 0 <= k < |passes|
      ensures InPass(p, w, passes[k], starts(k), e) <==> e in UntimedLog(full.log) && Keeps(Pass(p, Some(passes[k])), e.suite)
    {
      var pass := Pass(p, Some(passes[k]));
      assert Full(pass) == Pass(p, None);
      SparedReport(pass, w, start, starts(k));
      KeptMembers(pass, full.log, e);
    }
    if e in UntimedLog(full.log) {
      SuitesInRange(Pass(p, None), w, |p.suites|, start);
      UntimedMembers(full.log, e);
      assert e.suite < |p.suites|;
      if p.suites[e.suite].phase.None? {
        assert Keeps(Pass(p, Some(passes[0])), e.suite) && InPass(p, w, passes[0], starts(0), e);
      } else {
        var k :| 0 <= k < |passes| && SuiteRunsInPhases(p.suites[e.suite], Pass(p, Some(passes[k])).phases);
        assert InPass(p, w, passes[k], starts(k), e);
      }
    }
  }

  /** A halted run reports a suite whose predicate did not decline with not-run rows only. */
  lemma {:induction false} HaltedChecksNotRun(p: Pipeline, w: World, i: nat, j: nat, st: State)
    requires i < |p.suites| && j <= |p.suites[i].checks| && st.halt.Some?
    ensures var st' := ChecksTo(p, w, i, j, st);
            && st.log <= st'.log && st'.halt == st.halt
            && forall e :: e in st'.log[|st.log|..] ==> NotRun(e.row)
  {
    if j > 0 {
      HaltedChecksNotRun(p, w, i, j - 1, st);
    }
  }

  /** Once halted before suite `k`, the whole run reports nothing but not-run rows for it, if its predicate did not decline. */
  lemma NotRunThroughout(p: Pipeline, w: World, k: nat, start: nat)
    requires k < |p.suites| && Keeps(p, k) && EvaluateApplies(p, w, k) != Returns(false)
    requires RunTo(p, w, k, start).halt.Some?
    ensures forall e :: e in Run(p, w, start).log && e.suite == k ==> NotRun(e.row)
  {
    var st := RunTo(p, w, k, start);
    var next := RunTo(p, w, k + 1, start);
    HaltedChecksNotRun(p, w, k, |p.suites[k].checks|, st);
    assert st.log <= next.log && forall e :: e in next.log[|st.log|..] ==> NotRun(e.row);
    SuitesInRange(p, w, k, start);
    LaterSuites(p, w, k + 1, |p.suites|, start);
    hide RunTo, EvaluateApplies;
    var log := Run(p, w, start).log;
    assert log == st.log + next.log[|st.log|..] + log[|next.log|..];
  }

  lemma {:induction false} LaterSuites(p: Pipeline, w: World, i: nat, n: nat, start: nat)
    requires i <= n <= |p.suites|
    ensures var a, b := RunTo(p, w, i, start).log, RunTo(p, w, n, start).log;
            a <= b && forall e :: e in b[|a|..] ==> i <= e.suite
    decreases n
  {
    if i < n {
      LaterSuites(p, w, i, n - 1, start);
      var st := RunTo(p, w, n - 1, start);
      SuiteStepExtends(p, w, n - 1, st);
      hide SuiteStep;
      var a, b := RunTo(p, w, i, start).log, RunTo(p, w, n, start).log;
      assert b[|a|..] == st.log[|a|..] + b[|st.log|..];
    }
  }

  /** A pass the halt does not spare reports something the full run does not. */
  lemma UnsparedPassAdds(p: Pipeline, w: World, start: nat, start': nat) returns (e: Entry)
    requires Honest(w) && !HaltSpares(p, w, Run(Full(p), w, start).halt)
    ensures e in UntimedLog(Run(p, w, start').log) && e !in UntimedLog(Run(Full(p), w, start).log)
  {
    var first := WhereTheyPart(p, w, start, start');
    var b := RunTo(p, w, first, start');
    ActiveUnhalted(p, w, first, b);
    SuiteStepExtends(p, w, first, b);
    RunToGrows(p, w, first + 1, |p.suites|, start');
    var log, full := Run(p, w, start').log, Run(Full(p), w, start).log;
    var own := RunTo(p, w, first + 1, start').log[|b.log|];
    NotRunThroughout(Full(p), w, first, start);
    hide RunTo, SuiteStep;
    assert log[|b.log|] == own && own.suite == first && !NotRun(own.row);
    e := Untimed(own);
    UntimedMembers(log, e);
    UntimedMembers(full, e);
  }

  /**
   The documented claim, exactly: passes that cover the suites together report what the full
   run reports if its halt, should there be one, leaves each pass intact; and only then, as
   long as no check forges the orchestrator's own skip.
   */
  lemma UnionOfPasses(p: Pipeline, w: World, passes: seq<seq<Phase>>, start: nat, starts: nat -> nat)
    requires passes != [] && Cover(p, passes)
    ensures SparesEveryPass(p, w, passes, start) ==> UnionIsFull(p, w, passes, start, starts)
    ensures Honest(w) && UnionIsFull(p, w, passes, start, starts) ==> SparesEveryPass(p, w, passes, start)
  {
    hide InPass, Run, Cover;
    if SparesEveryPass(p, w, passes, start) {
      forall e ensures InSomePass(p, w, passes, starts, e) <==> e in UntimedLog(Run(Pass(p, None), w, start).log) {
        SparedUnion(p, w, passes, start, starts, e);
      }
    } else if Honest(w) {
      var k :| 0 <= k < |passes| && !HaltSpares(Pass(p, Some(passes[k])), w, Run(Pass(p, None), w, start).halt);
      ReportedByPassOnly(p, w, passes, start, starts, k);
    }
  }

  lemma ReportedByPassOnly(p: Pipeline, w: World, passes: seq<seq<Phase>>, start: nat, starts: nat -> nat, k: nat)
    requires Honest(w) && k < |passes|
    requires !HaltSpares(Pass(p, Some(passes[k])), w, Run(Pass(p, None), w, start).halt)
    ensures !UnionIsFull(p, w, passes, start, starts)
  {
    var pass := Pass(p, Some(passes[k]));
    assert Full(pass) == Pass(p, None);
    var e := UnsparedPassAdds(pass, w, start, starts(k));
    assert InPass(p, w, passes[k], starts(k), e);
    hide InPass, Run;
    assert InSomePass(p, w, passes, starts, e);
  }

  lemma {:induction false} FirstActive(p: Pipeline, w: World, from: nat, k: nat) returns (first: nat)
    requires from < k < |p.suites| && Keeps(p, k) && !Inert(p, w, k)
    ensures from < first <= k && Keeps(p, first) && !Inert(p, w, first)
    ensures forall m :: from < m < first && Keeps(p, m) ==> Inert(p, w, m)
  {
    first := from + 1;
    while !(Keeps(p, first) && !Inert(p, w, first))
      invariant from < first <= k
      invariant forall m :: from < m < first && Keeps(p, m) ==> Inert(p, w, m)
      decreases k - first
    {
      first := first + 1;
    }
  }

  /** A cryptographic suite that fails and halts, ahead of a semantic suite that passes. */
  const TWO_PASS := Pipeline(
    [Suite("core", [Check("core.a", None, Some(true), None)], Some(Cryptographic), false),
     Suite("ob", [Check("ob.b", None, None, None)], Some(Semantic), false)],
    {VerifiableCredential}, {}, None, false)

  const HALTS_IN_CORE := World(
    (i: nat) => Returns(true),
    (i: nat, j: nat) => Returns(if i == 0 then Failure([]) else Success("")),
    (n: nat) => Instant(0, 0),
    (i: nat, j: nat) => 0)

  /**
   The documented claim that the union of a cryptographic pass and a semantic
   pass is the full report is false: the semantic pass runs what the full pass lists as not run.
   */
  lemma UnionOfPassesIsNotTheFullReport()
    ensures var full := Run(Pass(TWO_PASS, None), HALTS_IN_CORE, 0).log;
            var first := Run(Pass(TWO_PASS, Some([Cryptographic, Trust])), HALTS_IN_CORE, 0).log;
            var second := Run(Pass(TWO_PASS, Some([Semantic])), HALTS_IN_CORE, 0).log;
            && |full| == 2 && NotRun(full[1].row)
            && |first| == 1 && first[0] == full[0]
            && |second| == 1 && second[0].row.outcome == Success("") && second[0] !in full
  {
  }
}
