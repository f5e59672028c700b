/**
 The orchestration loop: suites in order, a phase filter, throwing predicates,
 checks filtered by subject type, and a latched halt.

 A `World` is everything the loop cannot see into: what each predicate and each
 check answers for this subject, and what the clocks read. `Run` is the
 specification of a run over a world; `RunSuites` is the loop.
 */
module Orchestration {
  import opened Options
  import opened Results

  datatype Check = Check(
    id: string,
    appliesTo: Option<seq<SubjectType>>,
    fatal: Option<bool>,
    halts: Option<bool>)

  datatype Suite = Suite(id: string, checks: seq<Check>, phase: Option<Phase>, hasPredicate: bool)

  datatype Answer<+T> = Returns(value: T) | Throws(error: string)

  /** Wall-clock and monotonic milliseconds, read together. */
  datatype Instant = Instant(wall: int, mono: int)

  /**
   One subject's world: the answers of the suite and check at each position of the
   suite list, how many clock readings a check takes while it executes, and the n-th
   reading of the clock, which is the same clock for every subject.
   */
  datatype World = World(
    predicate_: nat -> Answer<bool>,
    execute: (nat, nat) -> Answer<Outcome>,
    clock: nat -> Instant,
    readings: (nat, nat) -> nat)

  datatype Pipeline = Pipeline(
    suites: seq<Suite>,
    subject: set<SubjectType>,
    explicitSuiteIds: set<string>,
    phases: Option<seq<Phase>>,
    timing: bool)

  // ----- the pure predicates -----

  predicate SuiteRunsInPhases(suite: Suite, phases: Option<seq<Phase>>) {
    phases.Some? && suite.phase.Some? ==> suite.phase.value in phases.value
  }

  predicate AppliesToSubject(check: Check, subject: set<SubjectType>) {
    check.appliesTo.None? || check.appliesTo.value == [] ||
    exists t :: t in check.appliesTo.value && t in subject
  }

  predicate HaltsOnFailure(check: Check) {
    check.fatal == Some(true) && check.halts != Some(false)
  }

  function EvaluateApplies(p: Pipeline, w: World, i: nat): Answer<bool>
    requires i < |p.suites|
  {
    if p.suites[i].hasPredicate then w.predicate_(i) else Returns(true)
  }

  function CheckErrorOutcome(error: string): Outcome {
    Failure([Problem(CheckError, error, None)])
  }

  function BuildResult(suite: Suite, checkId: string, outcome: Outcome,
                       fatal: Option<bool>, halts: Option<bool>, timing: Option<Timing>): Row
  {
    Row(ComputeId(suite.phase, suite.id, checkId), suite.id, outcome, fatal, halts, timing)
  }

  // ----- what a run is -----

  /** A row, with the suite position that emitted it. */
  datatype Entry = Entry(suite: nat, row: Row)

  /** The halting failure: the failed check, its suite and its line in the report. */
  datatype Halt = Halt(checkId: string, suite: nat, line: nat)

  /** The report so far, the latch, the checks executed and the clock readings taken. */
  datatype State = State(log: seq<Entry>, halt: Option<Halt>, calls: seq<(nat, nat)>, tick: nat)

  function Rows(log: seq<Entry>): (rows: seq<Row>)
    ensures |rows| == |log| && forall k :: 0 <= k < |log| ==> rows[k] == log[k].row
  {
    seq(|log|, k requires 0 <= k < |log| => log[k].row)
  }

  function Window(p: Pipeline, w: World, start: nat, finish: nat): Option<Timing> {
    if p.timing then
      Some(Timing(w.clock(start).wall, w.clock(finish).wall, w.clock(finish).mono - w.clock(start).mono))
    else None
  }

  /** Append a row the orchestrator emits itself. */
  function Synthetic(p: Pipeline, w: World, i: nat, checkId: string, outcome: Outcome,
                     fatal: Option<bool>, halts: Option<bool>, st: State): State
    requires i < |p.suites|
  {
    var row := BuildResult(p.suites[i], checkId, outcome, fatal, halts, Window(p, w, st.tick, st.tick + 1));
    st.(log := st.log + [Entry(i, row)], tick := if p.timing then st.tick + 2 else st.tick)
  }

  function NotRunOutcome(haltedBy: string): Outcome {
    Skipped("Not run: " + haltedBy + " failed", Some(NOT_RUN_AFTER_FATAL), Some(haltedBy))
  }

  const PREDICATE_FALSE := Skipped("suite predicate returned false", None, None)

  function ExecutionOutcome(w: World, i: nat, j: nat): Outcome {
    match w.execute(i, j)
    case Returns(outcome) => outcome
    case Throws(error) => CheckErrorOutcome(error)
  }

  /** Execute check `j` of suite `i` and report it. */
  function Execute(p: Pipeline, w: World, i: nat, j: nat, st: State): State
    requires i < |p.suites| && j < |p.suites[i].checks|
  {
    var suite, check := p.suites[i], p.suites[i].checks[j];
    var outcome := ExecutionOutcome(w, i, j);
    var before := if p.timing then st.tick + 1 else st.tick;
    var after := before + w.readings(i, j);
    var row := BuildResult(suite, check.id, outcome, check.fatal, check.halts, Window(p, w, st.tick, after));
    State(
      st.log + [Entry(i, row)],
      if HaltsOnFailure(check) && outcome.Failure? then Some(Halt(check.id, i, |st.log|)) else st.halt,
      st.calls + [(i, j)],
      if p.timing then after + 1 else after)
  }

  function CheckStep(p: Pipeline, w: World, i: nat, j: nat, st: State): State
    requires i < |p.suites| && j < |p.suites[i].checks|
  {
    var check := p.suites[i].checks[j];
    if !AppliesToSubject(check, p.subject) then st
    else if st.halt.Some? then
      Synthetic(p, w, i, check.id, NotRunOutcome(st.halt.value.checkId), check.fatal, check.halts, st)
    else Execute(p, w, i, j, st)
  }

  /** The checks of suite `i` up to position `j`. */
  function ChecksTo(p: Pipeline, w: World, i: nat, j: nat, st: State): State
    requires i < |p.suites| && j <= |p.suites[i].checks|
  {
    if j == 0 then st else CheckStep(p, w, i, j - 1, ChecksTo(p, w, i, j - 1, st))
  }

  function AllChecks(p: Pipeline, w: World, i: nat, st: State): State
    requires i < |p.suites|
  {
    ChecksTo(p, w, i, |p.suites[i].checks|, st)
  }

  predicate HasFatalCheck(p: Pipeline, i: nat)
    requires i < |p.suites|
  {
    exists c :: c in p.suites[i].checks && c.fatal == Some(true) && AppliesToSubject(c, p.subject)
  }

  function AppliesId(suite: Suite): string { suite.id + ".applies" }

  /** A predicate that threw before any halt: one failure row, fatal when the suite could have failed the subject. */
  function PredicateThrew(p: Pipeline, w: World, i: nat, error: string, st: State): State
    requires i < |p.suites|
  {
    var fatal := HasFatalCheck(p, i);
    var st' := Synthetic(p, w, i, AppliesId(p.suites[i]), CheckErrorOutcome(error), Some(fatal), None, st);
    if fatal then st'.(halt := Some(Halt(AppliesId(p.suites[i]), i, |st.log|))) else st'
  }

  function SuiteStep(p: Pipeline, w: World, i: nat, st: State): State
    requires i < |p.suites|
  {
    if !SuiteRunsInPhases(p.suites[i], p.phases) then st
    else
      match EvaluateApplies(p, w, i)
      case Throws(error) =>
        if st.halt.None? then PredicateThrew(p, w, i, error, st) else AllChecks(p, w, i, st)
      case Returns(false) =>
        if p.suites[i].id in p.explicitSuiteIds
        then Synthetic(p, w, i, AppliesId(p.suites[i]), PREDICATE_FALSE, None, None, st)
        else st
      case Returns(true) => AllChecks(p, w, i, st)
  }

  /** The run over the first `i` suites. */
  function RunTo(p: Pipeline, w: World, i: nat, start: nat): State
    requires i <= |p.suites|
  {
    if i == 0 then State([], None, [], start) else SuiteStep(p, w, i - 1, RunTo(p, w, i - 1, start))
  }

  function Run(p: Pipeline, w: World, start: nat): State {
    RunTo(p, w, |p.suites|, start)
  }

  // ----- the loop -----

  /** What all subjects share: one clock, and the record of what was executed. */
  class Runtime {
    const clock: nat -> Instant
    var calls: seq<(nat, nat)>
    var tick: nat

    constructor (clock: nat -> Instant)
      ensures this.clock == clock && calls == [] && tick == 0
    {
      this.clock := clock;
      calls, tick := [], 0;
    }

    method Sample() returns (now: Instant)
      modifies this`tick
      ensures now == clock(old(tick)) && tick == old(tick) + 1
    {
      now := clock(tick);
      tick := tick + 1;
    }

    method Execute(w: World, i: nat, j: nat) returns (answer: Answer<Outcome>)
      modifies this
      ensures answer == w.execute(i, j)
      ensures calls == old(calls) + [(i, j)] && tick == old(tick) + w.readings(i, j)
    {
      calls := calls + [(i, j)];
      tick := tick + w.readings(i, j);
      answer := w.execute(i, j);
    }
  }

  method SyntheticResult(p: Pipeline, w: World, rt: Runtime, suite: Suite, checkId: string, outcome: Outcome,
                         fatal: Option<bool>, halts: Option<bool>)
    returns (row: Row)
    requires w.clock == rt.clock
    modifies rt`tick
    ensures row == BuildResult(suite, checkId, outcome, fatal, halts,
                               Window(p, w, old(rt.tick), old(rt.tick) + 1))
    ensures rt.tick == if p.timing then old(rt.tick) + 2 else old(rt.tick)
  {
    row := BuildResult(suite, checkId, outcome, fatal, halts, None);
    if p.timing {
      var started := rt.Sample();
      var ended := rt.Sample();
      row := row.(timing := Some(Timing(started.wall, ended.wall, ended.mono - started.mono)));
    }
  }

  /** The state the loop holds in its variables, as a specification state. */
  ghost predicate Holds(st: State, results: seq<Row>, haltedBy: Option<string>, rt: Runtime, calls0: seq<(nat, nat)>)
    reads rt
  {
    && results == Rows(st.log)
    && haltedBy == (if st.halt.Some? then Some(st.halt.value.checkId) else None)
    && rt.calls == calls0 + st.calls
    && rt.tick == st.tick
  }

  /** One applicable check: listed as not run after a halt, otherwise executed, timed and reported. */
  method RunCheck(p: Pipeline, w: World, rt: Runtime, i: nat, j: nat, results0: seq<Row>, haltedBy0: Option<string>,
                  ghost st: State, ghost calls0: seq<(nat, nat)>)
    returns (results: seq<Row>, haltedBy: Option<string>)
    requires i < |p.suites| && j < |p.suites[i].checks|
    requires w.clock == rt.clock
    requires Holds(st, results0, haltedBy0, rt, calls0)
    modifies rt
    ensures Holds(CheckStep(p, w, i, j, st), results, haltedBy, rt, calls0)
  {
    results, haltedBy := results0, haltedBy0;
    var suite, check := p.suites[i], p.suites[i].checks[j];
    if !AppliesToSubject(check, p.subject) {
      return;
    }
    if haltedBy.Some? {
      var row := SyntheticResult(p, w, rt, suite, check.id, NotRunOutcome(haltedBy.value), check.fatal, check.halts);
      results := results + [row];
      return;
    }
    var started := Instant(0, 0);
    if p.timing {
      started := rt.Sample();
    }
    var answer := rt.Execute(w, i, j);
    var outcome;
    match answer {
      case Returns(o) => outcome := o;
      case Throws(error) => outcome := CheckErrorOutcome(error);
    }
    var row := BuildResult(suite, check.id, outcome, check.fatal, check.halts, None);
    if p.timing {
      var ended := rt.Sample();
      row := row.(timing := Some(Timing(started.wall, ended.wall, ended.mono - started.mono)));
    }
    results := results + [row];
    if HaltsOnFailure(check) && outcome.Failure? {
      haltedBy := Some(check.id);
    }
    assert calls0 + (st.calls + [(i, j)]) == (calls0 + st.calls) + [(i, j)];
  }

  method RunSuites(p: Pipeline, w: World, rt: Runtime) returns (results: seq<Row>)
    requires w.clock == rt.clock
    modifies rt
    ensures var run := Run(p, w, old(rt.tick));
            && results == Rows(run.log)
            && rt.calls == old(rt.calls) + run.calls
            && rt.tick == run.tick
  {
    results := [];
    var haltedBy: Option<string> := None;
    ghost var start, calls0 := rt.tick, rt.calls;
    for i := 0 to |p.suites|
      invariant Holds(RunTo(p, w, i, start), results, haltedBy, rt, calls0)
    {
      var suite := p.suites[i];
      ghost var st := RunTo(p, w, i, start);
      if !SuiteRunsInPhases(suite, p.phases) {
        continue;
      }
      var applies := EvaluateApplies(p, w, i);
      if applies.Throws? && haltedBy.None? {
        var fatal := HasFatalCheck(p, i);
        var row := SyntheticResult(p, w, rt, suite, AppliesId(suite), CheckErrorOutcome(applies.error), Some(fatal), None);
        results := results + [row];
        if fatal {
          haltedBy := Some(AppliesId(suite));
        }
        continue;
      }
      if applies == Returns(false) {
        if suite.id in p.explicitSuiteIds {
          var row := SyntheticResult(p, w, rt, suite, AppliesId(suite), PREDICATE_FALSE, None, None);
          results := results + [row];
        }
        continue;
      }
      for j := 0 to |suite.checks|
        invariant Holds(ChecksTo(p, w, i, j, st), results, haltedBy, rt, calls0)
      {
        results, haltedBy := RunCheck(p, w, rt, i, j, results, haltedBy, ChecksTo(p, w, i, j, st), calls0);
      }
    }
  }
}
