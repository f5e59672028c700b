/**
 When passes over covering phases can be relied on to report, together, what the full run
 reports: read off the suites, before any run.
 */
module PhasePasses {
  import opened Options
  import opened Results
  import opened Orchestration
  import opened Phases
  import IdNamespace
  import RowIds

  predicate HasHaltingCheck(p: Pipeline, i: nat)
    requires i < |p.suites|
  {
    exists c :: c in p.suites[i].checks && AppliesToSubject(c, p.subject) && HaltsOnFailure(c)
  }

  /** Suite `i` halts some run: by a check for this subject, or by a predicate whose throw is fatal. */
  predicate CanHalt(p: Pipeline, i: nat)
    requires i < |p.suites|
  {
    HasHaltingCheck(p, i) || (p.suites[i].hasPredicate && HasFatalCheck(p, i))
  }

  /** A filtered pass drops suite `i`, which can halt the full run, and keeps suite `m` after it, which can have a row. */
  predicate HaltedThenReports(p: Pipeline, pass: Pipeline, i: nat, m: nat)
    requires pass.suites == p.suites
  {
    i < m < |p.suites| && CanHalt(p, i) && !Keeps(pass, i) && IdNamespace.CanReport(pass, m)
  }

  /** No pass drops a suite that can halt while it keeps a later one that can have a row. */
  ghost predicate NoneReportsLate(p: Pipeline, passes: seq<seq<Phase>>) {
    forall k, i, m :: 0 <= k < |passes| ==> !HaltedThenReports(p, Pass(p, Some(passes[k])), i, m)
  }

  /** Whatever honest checks and the predicates do, the passes together report what the full run reports. */
  ghost predicate UnionInEveryRun(p: Pipeline, passes: seq<seq<Phase>>) {
    forall w, start, starts :: Honest(w) ==> UnionIsFull(p, w, passes, start, starts)
  }

  // ----- enough -----

  lemma HaltsOnlyIfItCan(p: Pipeline, w: World, i: nat)
    requires i < |p.suites| && RowIds.HaltsAt(p, w, i)
    ensures CanHalt(p, i)
  {
    hide AppliesToSubject, ExecutionOutcome, HaltsOnFailure;
  }

  /** A halt is due to the suite it names. */
  lemma HaltIsTheSuites(p: Pipeline, w: World, start: nat)
    requires Run(p, w, start).halt.Some?
    ensures var i := Run(p, w, start).halt.value.suite;
            i < |p.suites| && RowIds.HaltsAt(p, w, i)
  {
    RunToGrows(p, w, 0, |p.suites|, start);
    var i := Run(p, w, start).halt.value.suite;
    RunToGrows(p, w, i, |p.suites|, start);
    RunToGrows(p, w, i + 1, |p.suites|, start);
    RunToGrows(p, w, 0, i, start);
    RowIds.HaltedIff(p, w, i, start);
    RowIds.HaltedIff(p, w, i + 1, start);
    hide RunTo, RowIds.HaltsAt;
  }

  lemma InertUnlessItCan(p: Pipeline, w: World, m: nat)
    requires m < |p.suites| && Keeps(p, m) && !IdNamespace.CanReport(p, m)
    ensures Inert(p, w, m)
  {
    hide AppliesToSubject;
  }

  lemma SparedBeforehand(p: Pipeline, w: World, passes: seq<seq<Phase>>, start: nat)
    requires NoneReportsLate(p, passes)
    ensures SparesEveryPass(p, w, passes, start)
  {
    var full := Pass(p, None);
    var halt := Run(full, w, start).halt;
    if halt.Some? {
      var i := halt.value.suite;
      HaltIsTheSuites(full, w, start);
      HaltsOnlyIfItCan(full, w, i);
      assert CanHalt(p, i);
      hide Run, CanHalt, Inert, IdNamespace.CanReport, ExpandPhases, RowIds.HaltsAt;
      forall k, m | 0 <= k < |passes| && i < m < |p.suites| && !Keeps(Pass(p, Some(passes[k])), i) && Keeps(Pass(p, Some(passes[k])), m)
        ensures Inert(Pass(p, Some(passes[k])), w, m)
      {
        assert !HaltedThenReports(p, Pass(p, Some(passes[k])), i, m);
        InertUnlessItCan(Pass(p, Some(passes[k])), w, m);
      }
    }
  }

  // ----- and no less -----

  /** Suite `i` halts, by its checks if it can; suite `m` reports, by its checks if it can; nothing else fails. */
  function HaltsThere(p: Pipeline, i: nat, m: nat): World
    requires i < m < |p.suites|
  {
    World((x: nat) => if (x == i && !HasHaltingCheck(p, i)) || (x == m && !IdNamespace.HasApplicable(p, m)) then Throws("") else Returns(true),
          (x: nat, j: nat) => Returns(if x == i then Failure([]) else Success("")),
          (n: nat) => Instant(0, 0), (x: nat, j: nat) => 0)
  }

  lemma HaltsJustThere(p: Pipeline, i: nat, m: nat, a: nat)
    requires i < m < |p.suites| && a <= i && CanHalt(p, i)
    ensures RowIds.HaltsAt(Pass(p, None), HaltsThere(p, i, m), a) <==> a == i
  {
    var full, w := Pass(p, None), HaltsThere(p, i, m);
    if a == i && HasHaltingCheck(p, i) {
      var c :| c in p.suites[i].checks && AppliesToSubject(c, p.subject) && HaltsOnFailure(c);
      var k :| 0 <= k < |p.suites[i].checks| && p.suites[i].checks[k] == c;
      assert RowIds.FailsAndHalts(full, w, i, k);
    } else if a == i {
      assert HasFatalCheck(full, i) == HasFatalCheck(p, i);
    }
  }

  /** A run halts at the first suite that does. */
  lemma HaltsAtTheFirst(p: Pipeline, w: World, i: nat, start: nat)
    requires i < |p.suites| && RowIds.HaltsAt(p, w, i)
    requires forall a :: 0 <= a < i ==> !RowIds.HaltsAt(p, w, a)
    ensures var halt := Run(p, w, start).halt;
            halt.Some? && halt.value.suite == i
  {
    hide RowIds.HaltsAt;
    RowIds.HaltedIff(p, w, i, start);
    RowIds.HaltedIff(p, w, i + 1, start);
    RunToGrows(p, w, i, i + 1, start);
    RunToGrows(p, w, i + 1, |p.suites|, start);
    hide RunTo;
  }

  lemma HaltIsThere(p: Pipeline, i: nat, m: nat)
    requires i < m < |p.suites| && CanHalt(p, i)
    ensures var halt := Run(Pass(p, None), HaltsThere(p, i, m), 0).halt;
            halt.Some? && halt.value.suite == i
  {
    forall a | 0 <= a <= i ensures RowIds.HaltsAt(Pass(p, None), HaltsThere(p, i, m), a) <==> a == i {
      HaltsJustThere(p, i, m, a);
    }
    hide Run, RowIds.HaltsAt, HaltsThere, CanHalt;
    HaltsAtTheFirst(Pass(p, None), HaltsThere(p, i, m), i, 0);
  }

  lemma ReportsThere(p: Pipeline, pass: Pipeline, i: nat, m: nat)
    requires pass == p.(phases := pass.phases) && HaltedThenReports(p, pass, i, m)
    ensures Keeps(pass, m) && !Inert(pass, HaltsThere(p, i, m), m)
  {
    var w := HaltsThere(p, i, m);
    if IdNamespace.HasApplicable(p, m) {
      var c :| c in p.suites[m].checks && AppliesToSubject(c, p.subject);
      var j :| 0 <= j < |p.suites[m].checks| && p.suites[m].checks[j] == c;
      assert AppliesToSubject(pass.suites[m].checks[j], pass.subject);
    }
  }

  /** The union fails in some run once a pass reports late. */
  lemma LateReportFails(p: Pipeline, passes: seq<seq<Phase>>, k: nat, i: nat, m: nat)
    requires passes != [] && Cover(p, passes) && k < |passes|
    requires HaltedThenReports(p, Pass(p, Some(passes[k])), i, m)
    ensures !UnionInEveryRun(p, passes)
  {
    var pass, w := Pass(p, Some(passes[k])), HaltsThere(p, i, m);
    HaltIsThere(p, i, m);
    ReportsThere(p, pass, i, m);
    UnionOfPasses(p, w, passes, 0, (n: nat) => 0);
    assert Honest(w);
    hide Run, Inert, HaltsThere, Cover, UnionIsFull, ExpandPhases;
    assert !HaltSpares(pass, w, Run(Pass(p, None), w, 0).halt);
  }

  /**
   What a caller can check: passes that cover the suites report together what the full run
   reports, in every run with honest checks, iff no pass drops a suite that can halt while keeping a later one
   that can have a row.
   */
  lemma UnionBeforehand(p: Pipeline, passes: seq<seq<Phase>>)
    requires passes != [] && Cover(p, passes)
    ensures UnionInEveryRun(p, passes) <==> NoneReportsLate(p, passes)
  {
    hide Cover, UnionIsFull, SparesEveryPass;
    if NoneReportsLate(p, passes) {
      forall w, start, starts | Honest(w) ensures UnionIsFull(p, w, passes, start, starts) {
        SparedBeforehand(p, w, passes, start);
        UnionOfPasses(p, w, passes, start, starts);
      }
    } else {
      var k, i, m :| 0 <= k < |passes| && HaltedThenReports(p, Pass(p, Some(passes[k])), i, m);
      LateReportFails(p, passes, k, i, m);
    }
  }
}
