/**
 What every run keeps, whatever the checks return or throw: the latch, the
 order of execution, and the shape of the report.
 */
module Halting {
  import opened Options
  import opened Results
  import opened Orchestration

  predicate Before(a: (nat, nat), b: (nat, nat)) {
    a.0 < b.0 || (a.0 == b.0 && a.1 < b.1)
  }

  /** A row the orchestrator may emit once `h` has halted the subject. */
  predicate SkipAfterHalt(p: Pipeline, h: Halt, e: Entry) {
    && e.suite < |p.suites|
    && var suite := p.suites[e.suite];
       || e.row.outcome == NotRunOutcome(h.checkId)
       || (&& e.row.outcome == PREDICATE_FALSE
           && suite.id in p.explicitSuiteIds
           && e.row.id == ComputeId(suite.phase, suite.id, AppliesId(suite)))
  }

  /** The halting failure is either a throwing predicate or the last check that executed. */
  predicate HaltSource(p: Pipeline, w: World, h: Halt, calls: seq<(nat, nat)>)
    requires h.suite < |p.suites|
  {
    || (&& h.checkId == AppliesId(p.suites[h.suite])
        && EvaluateApplies(p, w, h.suite).Throws?
        && forall k :: 0 <= k < |calls| ==> calls[k].0 < h.suite)
    || (&& calls != []
        && var last := calls[|calls| - 1];
           && last.0 == h.suite
           && last.1 < |p.suites[h.suite].checks|
           && h.checkId == p.suites[h.suite].checks[last.1].id
           && HaltsOnFailure(p.suites[h.suite].checks[last.1])
           && ExecutionOutcome(w, last.0, last.1).Failure?)
  }

  /** The invariant of the loop at suite `i`, check `j`. */
  ghost predicate Latched(p: Pipeline, w: World, st: State, i: nat, j: nat) {
    && (forall a, b :: 0 <= a < b < |st.calls| ==> Before(st.calls[a], st.calls[b]))
    && (forall k :: 0 <= k < |st.calls| ==> Before(st.calls[k], (i, j)))
    && match st.halt
       case None => forall k :: 0 <= k < |st.log| ==> !HaltingFailure(st.log[k].row)
       case Some(h) =>
         && h.line < |st.log|
         && h.suite < |p.suites| && h.suite <= i
         && st.log[h.line].suite == h.suite
         && HaltingFailure(st.log[h.line].row)
         && st.log[h.line].row.id == ComputeId(p.suites[h.suite].phase, p.suites[h.suite].id, h.checkId)
         && (forall k :: 0 <= k < h.line ==> !HaltingFailure(st.log[k].row))
         && (forall k :: h.line < k < |st.log| ==> SkipAfterHalt(p, h, st.log[k]))
         && HaltSource(p, w, h, st.calls)
  }

  /** After a halt a check only adds a not-run row. */
  lemma HaltedCheckLatched(p: Pipeline, w: World, i: nat, j: nat, st: State)
    requires i < |p.suites| && j < |p.suites[i].checks|
    requires Latched(p, w, st, i, j) && st.halt.Some?
    ensures Latched(p, w, CheckStep(p, w, i, j, st), i, j + 1)
  {
    hide ComputeId, Window, HaltSource, AppliesToSubject;
  }

  lemma RunningCheckLatched(p: Pipeline, w: World, i: nat, j: nat, st: State)
    requires i < |p.suites| && j < |p.suites[i].checks|
    requires Latched(p, w, st, i, j) && st.halt.None?
    ensures Latched(p, w, CheckStep(p, w, i, j, st), i, j + 1)
  {
    hide ComputeId, Window, ExecutionOutcome, AppliesToSubject, SkipAfterHalt;
  }

  lemma CheckStepLatched(p: Pipeline, w: World, i: nat, j: nat, st: State)
    requires i < |p.suites| && j < |p.suites[i].checks|
    requires Latched(p, w, st, i, j)
    ensures Latched(p, w, CheckStep(p, w, i, j, st), i, j + 1)
  {
    hide Latched, CheckStep;
    if st.halt.Some? {
      HaltedCheckLatched(p, w, i, j, st);
    } else {
      RunningCheckLatched(p, w, i, j, st);
    }
  }

  lemma {:induction false} ChecksToLatched(p: Pipeline, w: World, i: nat, j: nat, st: State)
    requires i < |p.suites| && j <= |p.suites[i].checks|
    requires Latched(p, w, st, i, 0)
    ensures Latched(p, w, ChecksTo(p, w, i, j, st), i, j)
  {
    hide CheckStep;
    hide Latched;
    if j > 0 {
      ChecksToLatched(p, w, i, j - 1, st);
      CheckStepLatched(p, w, i, j - 1, ChecksTo(p, w, i, j - 1, st));
    }
  }

  lemma NextSuiteLatched(p: Pipeline, w: World, i: nat, j: nat, st: State)
    requires Latched(p, w, st, i, j)
    ensures Latched(p, w, st, i + 1, 0)
  {
  }

  lemma PredicateThrewLatched(p: Pipeline, w: World, i: nat, st: State)
    requires i < |p.suites| && EvaluateApplies(p, w, i).Throws? && st.halt.None?
    requires Latched(p, w, st, i, 0)
    ensures Latched(p, w, PredicateThrew(p, w, i, EvaluateApplies(p, w, i).error, st), i + 1, 0)
  {
  }

  lemma PredicateFalseLatched(p: Pipeline, w: World, i: nat, st: State)
    requires i < |p.suites| && p.suites[i].id in p.explicitSuiteIds
    requires Latched(p, w, st, i, 0)
    ensures Latched(p, w, Synthetic(p, w, i, AppliesId(p.suites[i]), PREDICATE_FALSE, None, None, st), i + 1, 0)
  {
  }

  lemma SuiteStepLatched(p: Pipeline, w: World, i: nat, st: State)
    requires i < |p.suites|
    requires Latched(p, w, st, i, 0)
    ensures Latched(p, w, SuiteStep(p, w, i, st), i + 1, 0)
  {
    hide Latched, ChecksTo, Synthetic, PredicateThrew;
    var checks := |p.suites[i].checks|;
    ChecksToLatched(p, w, i, checks, st);
    NextSuiteLatched(p, w, i, checks, AllChecks(p, w, i, st));
    NextSuiteLatched(p, w, i, 0, st);
    if st.halt.None? && EvaluateApplies(p, w, i).Throws? {
      PredicateThrewLatched(p, w, i, st);
    }
    if p.suites[i].id in p.explicitSuiteIds {
      PredicateFalseLatched(p, w, i, st);
    }
  }

  lemma {:induction false} RunToLatched(p: Pipeline, w: World, i: nat, start: nat)
    requires i <= |p.suites|
    ensures Latched(p, w, RunTo(p, w, i, start), i, 0)
  {
    if i > 0 {
      hide Latched, SuiteStep;
      RunToLatched(p, w, i - 1, start);
      SuiteStepLatched(p, w, i - 1, RunTo(p, w, i - 1, start));
    }
  }

  /**
   In every run at most one row is a halting failure. Every row after it is a
   skip: NOT_RUN_AFTER_FATAL naming the check that failed, or the `.applies`
   skip of an explicitly queued suite. The check that failed is the last one that executed, and
   checks execute at most once, in list order.
   */
  lemma AtMostOneHalt(p: Pipeline, w: World, start: nat)
    ensures var run := Run(p, w, start);
            && (forall a, b :: 0 <= a < b < |run.calls| ==> Before(run.calls[a], run.calls[b]))
            && (run.halt.None? <==> forall k :: 0 <= k < |run.log| ==> !HaltingFailure(run.log[k].row))
            && forall h :: 0 <= h < |run.log| && HaltingFailure(run.log[h].row) ==>
                 && run.halt.Some? && run.halt.value.line == h && run.halt.value.suite < |p.suites|
                 && HaltSource(p, w, run.halt.value, run.calls)
                 && run.log[h].row.id == ComputeId(p.suites[run.halt.value.suite].phase,
                                                   p.suites[run.halt.value.suite].id,
                                                   run.halt.value.checkId)
                 && (forall k :: 0 <= k < |run.log| && k != h ==> !HaltingFailure(run.log[k].row))
                 && (forall k :: h < k < |run.log| ==> SkipAfterHalt(p, run.halt.value, run.log[k]))
  {
    RunToLatched(p, w, |p.suites|, start);
    hide RunTo, SkipAfterHalt, HaltSource, ComputeId, HaltingFailure;
  }

  // ----- the ids do not depend on the checks -----

  function Ids(log: seq<Entry>): (ids: seq<string>)
    ensures |ids| == |log| && forall k :: 0 <= k < |log| ==> ids[k] == log[k].row.id
  {
    seq(|log|, k requires 0 <= k < |log| => log[k].row.id)
  }

  /** The two worlds' predicates return the same values; their checks may do anything. */
  ghost predicate PredicatesAgree(p: Pipeline, w1: World, w2: World) {
    forall i :: 0 <= i < |p.suites| && SuiteRunsInPhases(p.suites[i], p.phases) ==>
      EvaluateApplies(p, w1, i).Returns? && EvaluateApplies(p, w1, i) == EvaluateApplies(p, w2, i)
  }

  lemma {:induction false} ChecksToIds(p: Pipeline, w1: World, w2: World, i: nat, j: nat, st1: State, st2: State)
    requires i < |p.suites| && j <= |p.suites[i].checks|
    requires Ids(st1.log) == Ids(st2.log)
    ensures Ids(ChecksTo(p, w1, i, j, st1).log) == Ids(ChecksTo(p, w2, i, j, st2).log)
  {
    if j > 0 {
      ChecksToIds(p, w1, w2, i, j - 1, st1, st2);
    }
  }

  lemma {:induction false} RunToIds(p: Pipeline, w1: World, w2: World, i: nat, start1: nat, start2: nat)
    requires i <= |p.suites| && PredicatesAgree(p, w1, w2)
    ensures Ids(RunTo(p, w1, i, start1).log) == Ids(RunTo(p, w2, i, start2).log)
  {
    if i > 0 {
      RunToIds(p, w1, w2, i - 1, start1, start2);
      ChecksToIds(p, w1, w2, i - 1, |p.suites[i - 1].checks|,
                  RunTo(p, w1, i - 1, start1), RunTo(p, w2, i - 1, start2));
    }
  }

  /** When no predicate throws, the sequence of row ids is the same whatever the checks return or throw. */
  lemma IdsIndependentOfChecks(p: Pipeline, w1: World, w2: World, start1: nat, start2: nat)
    requires PredicatesAgree(p, w1, w2)
    ensures Ids(Run(p, w1, start1).log) == Ids(Run(p, w2, start2).log)
  {
    RunToIds(p, w1, w2, |p.suites|, start1, start2);
  }

  /** A suite "a" whose check halts when it fails, ahead of a suite "b" with two checks and a predicate. */
  const GATED := Pipeline(
    [Suite("a", [Check("a.x", None, Some(true), None)], Some(Cryptographic), false),
     Suite("b", [Check("b.x", None, None, None), Check("b.y", None, None, None)], Some(Trust), true)],
    {VerifiableCredential}, {}, None, false)

  function ThrowingPredicate(first: Outcome): World {
    World((i: nat) => Throws("boom"), (i: nat, j: nat) => Returns(first), (n: nat) => Instant(0, 0), (i: nat, j: nat) => 0)
  }

  /**
   With a throwing predicate the ids may depend on the checks: the throw is one
   row before a halt, and after a halt it is not reported and every check is listed instead.
   */
  lemma ThrowingPredicateChangesIds()
    ensures |Run(GATED, ThrowingPredicate(Success("")), 0).log| == 2
    ensures |Run(GATED, ThrowingPredicate(Failure([])), 0).log| == 3
  {
  }
}
