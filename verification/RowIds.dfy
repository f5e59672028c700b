/**
 When the ids of a run's rows depend on what its checks return: exactly when some
 throwing predicate may or may not find the run halted, and is reported differently either way.
 */
module RowIds {
  import opened Options
  import opened Results
  import opened Orchestration

  /** Where a row stands: its suite's position and its id. */
  type Place = (nat, string)

  function Places(log: seq<Entry>): (r: seq<Place>)
    ensures |r| == |log| && forall k :: 0 <= k < |log| ==> r[k] == (log[k].suite, log[k].row.id)
  {
    seq(|log|, k requires 0 <= k < |log| => (log[k].suite, log[k].row.id))
  }

  predicate Keeps(p: Pipeline, i: nat)
    requires i < |p.suites|
  {
    SuiteRunsInPhases(p.suites[i], p.phases)
  }

  /** The kept suites' predicates throw alike and return alike; checks and clocks may do anything. */
  ghost predicate SamePredicates(p: Pipeline, w1: World, w2: World) {
    forall i :: 0 <= i < |p.suites| && Keeps(p, i) ==>
      && EvaluateApplies(p, w1, i).Throws? == EvaluateApplies(p, w2, i).Throws?
      && (EvaluateApplies(p, w1, i).Returns? ==> EvaluateApplies(p, w1, i) == EvaluateApplies(p, w2, i))
  }

  ghost predicate SamePlaces(p: Pipeline, w: World, w1: World, start1: nat, w2: World, start2: nat) {
    SamePredicates(p, w, w1) && SamePredicates(p, w, w2) ==>
      Places(Run(p, w1, start1).log) == Places(Run(p, w2, start2).log)
  }

  /** With the predicates of `w`, the rows stand in the same places whatever the checks return or throw. */
  ghost predicate IdsFixed(p: Pipeline, w: World) {
    forall w1, start1, w2, start2 :: SamePlaces(p, w, w1, start1, w2, start2)
  }

  // ----- the condition -----

  /** Suite `i` runs its checks, and one of them for this subject halts when it fails. */
  predicate MayHalt(p: Pipeline, w: World, i: nat)
    requires i < |p.suites|
  {
    && Keeps(p, i) && EvaluateApplies(p, w, i) == Returns(true)
    && exists c :: c in p.suites[i].checks && AppliesToSubject(c, p.subject) && HaltsOnFailure(c)
  }

  /** The predicate of suite `i` throws, and the throw halts. */
  predicate ThrowHalts(p: Pipeline, w: World, i: nat)
    requires i < |p.suites|
  {
    Keeps(p, i) && EvaluateApplies(p, w, i).Throws? && HasFatalCheck(p, i)
  }

  function RowId(suite: Suite, checkId: string): string { ComputeId(suite.phase, suite.id, checkId) }

  /** The ids of the checks of suite `i` that are for this subject, up to position `j`. */
  function ListedTo(p: Pipeline, i: nat, j: nat): seq<string>
    requires i < |p.suites| && j <= |p.suites[i].checks|
  {
    if j == 0 then []
    else
      ListedTo(p, i, j - 1) +
      if AppliesToSubject(p.suites[i].checks[j - 1], p.subject) then [RowId(p.suites[i], p.suites[i].checks[j - 1].id)] else []
  }

  function Listed(p: Pipeline, i: nat): seq<string>
    requires i < |p.suites|
  {
    ListedTo(p, i, |p.suites[i].checks|)
  }

  function Thrown(p: Pipeline, i: nat): seq<string>
    requires i < |p.suites|
  {
    [RowId(p.suites[i], AppliesId(p.suites[i]))]
  }

  /**
   A throwing suite is reported the same way in every run: nothing before it can halt but
   throws, which always do; or an earlier throw halts for certain; or its checks are listed just as its throw is.
   */
  predicate Settled(p: Pipeline, w: World, i: nat)
    requires i < |p.suites|
  {
    || (forall a :: 0 <= a < i ==> !MayHalt(p, w, a))
    || (exists b :: 0 <= b < i && ThrowHalts(p, w, b))
    || Listed(p, i) == Thrown(p, i)
  }

  ghost predicate AllSettled(p: Pipeline, w: World) {
    forall i :: 0 <= i < |p.suites| && Keeps(p, i) && EvaluateApplies(p, w, i).Throws? ==> Settled(p, w, i)
  }

  // ----- where each suite's rows stand -----

  function Tag(i: nat, ids: seq<string>): (r: seq<Place>)
    ensures |r| == |ids| && forall k :: 0 <= k < |ids| ==> r[k] == (i, ids[k])
  {
    seq(|ids|, k requires 0 <= k < |ids| => (i, ids[k]))
  }

  /** The ids suite `i` adds, given whether the run is halted when it comes to it. */
  function Added(p: Pipeline, w: World, i: nat, halted: bool): seq<string>
    requires i < |p.suites|
  {
    if !Keeps(p, i) then []
    else
      match EvaluateApplies(p, w, i)
      case Returns(true) => Listed(p, i)
      case Returns(false) => if p.suites[i].id in p.explicitSuiteIds then Thrown(p, i) else []
      case Throws(_) => if halted then Listed(p, i) else Thrown(p, i)
  }

  lemma CheckPlaces(p: Pipeline, w: World, i: nat, j: nat, st: State)
    requires i < |p.suites| && j < |p.suites[i].checks|
    ensures var check := p.suites[i].checks[j];
            Places(CheckStep(p, w, i, j, st).log) ==
            Places(st.log) + Tag(i, if AppliesToSubject(check, p.subject) then [RowId(p.suites[i], check.id)] else [])
  {
    hide ExecutionOutcome, NotRunOutcome, Window, ComputeId;
    var check := p.suites[i].checks[j];
    var log := CheckStep(p, w, i, j, st).log;
    if AppliesToSubject(check, p.subject) {
      assert |log| == |st.log| + 1 && log[..|st.log|] == st.log;
    }
  }

  lemma {:induction false} ChecksPlaces(p: Pipeline, w: World, i: nat, j: nat, st: State)
    requires i < |p.suites| && j <= |p.suites[i].checks|
    ensures Places(ChecksTo(p, w, i, j, st).log) == Places(st.log) + Tag(i, ListedTo(p, i, j))
  {
    hide CheckStep;
    if j > 0 {
      ChecksPlaces(p, w, i, j - 1, st);
      CheckPlaces(p, w, i, j - 1, ChecksTo(p, w, i, j - 1, st));
    }
  }

  lemma SuitePlaces(p: Pipeline, w: World, i: nat, st: State)
    requires i < |p.suites|
    ensures Places(SuiteStep(p, w, i, st).log) == Places(st.log) + Tag(i, Added(p, w, i, st.halt.Some?))
  {
    ChecksPlaces(p, w, i, |p.suites[i].checks|, st);
    hide ChecksTo, ListedTo, ComputeId, Window, AppliesId, HasFatalCheck;
  }

  // ----- when a run is halted -----

  lemma CheckHalts(p: Pipeline, w: World, i: nat, j: nat, st: State)
    requires i < |p.suites| && j < |p.suites[i].checks|
    ensures CheckStep(p, w, i, j, st).halt.Some? <==> st.halt.Some? || FailsAndHalts(p, w, i, j)
  {
    hide ComputeId, Window, ExecutionOutcome;
  }

  lemma {:induction false} ChecksHalt(p: Pipeline, w: World, i: nat, j: nat, st: State)
    requires i < |p.suites| && j <= |p.suites[i].checks|
    ensures ChecksTo(p, w, i, j, st).halt.Some? <==> st.halt.Some? || HaltingFailureAmong(p, w, i, j)
  {
    hide CheckStep, FailsAndHalts;
    if j > 0 {
      ChecksHalt(p, w, i, j - 1, st);
      CheckHalts(p, w, i, j - 1, ChecksTo(p, w, i, j - 1, st));
    }
  }

  /** One of the first `j` checks of suite `i` is for this subject, halts when it fails, and fails. */
  predicate HaltingFailureAmong(p: Pipeline, w: World, i: nat, j: nat)
    requires i < |p.suites| && j <= |p.suites[i].checks|
  {
    exists k :: 0 <= k < j && FailsAndHalts(p, w, i, k)
  }

  predicate FailsAndHalts(p: Pipeline, w: World, i: nat, k: nat)
    requires i < |p.suites| && k < |p.suites[i].checks|
  {
    && AppliesToSubject(p.suites[i].checks[k], p.subject)
    && HaltsOnFailure(p.suites[i].checks[k])
    && ExecutionOutcome(w, i, k).Failure?
  }

  /** Suite `i` halts an unhalted run: its throw does, or it runs its checks and one fails and halts. */
  predicate HaltsAt(p: Pipeline, w: World, i: nat)
    requires i < |p.suites|
  {
    || ThrowHalts(p, w, i)
    || (Keeps(p, i) && EvaluateApplies(p, w, i) == Returns(true) && HaltingFailureAmong(p, w, i, |p.suites[i].checks|))
  }

  /** A run is halted before suite `i` iff some earlier suite halts. */
  lemma {:induction false} HaltedIff(p: Pipeline, w: World, i: nat, start: nat)
    requires i <= |p.suites|
    ensures RunTo(p, w, i, start).halt.Some? <==> exists a :: 0 <= a < i && HaltsAt(p, w, a)
  {
    if i > 0 {
      HaltedIff(p, w, i - 1, start);
      var st := RunTo(p, w, i - 1, start);
      ChecksHalt(p, w, i - 1, |p.suites[i - 1].checks|, st);
      SuiteHalts(p, w, i - 1, st);
      hide SuiteStep, HaltsAt;
    }
  }

  lemma SuiteHalts(p: Pipeline, w: World, i: nat, st: State)
    requires i < |p.suites|
    ensures SuiteStep(p, w, i, st).halt.Some? <==> st.halt.Some? || HaltsAt(p, w, i)
  {
    ChecksHalt(p, w, i, |p.suites[i].checks|, st);
    hide ChecksTo, HasFatalCheck, AppliesId, HaltingFailureAmong;
  }

  // ----- enough -----

  /** In a world with these predicates, a suite halts only if it may. */
  lemma HaltsOnlyIfItMay(p: Pipeline, w: World, w1: World, a: nat)
    requires a < |p.suites| && SamePredicates(p, w, w1)
    ensures HaltsAt(p, w1, a) ==> ThrowHalts(p, w, a) || MayHalt(p, w, a)
    ensures ThrowHalts(p, w, a) ==> HaltsAt(p, w1, a)
  {
  }

  /** A settled suite adds the same ids in both worlds, whichever of them is halted. */
  lemma SettledAdds(p: Pipeline, w: World, w1: World, start1: nat, w2: World, start2: nat, i: nat)
    requires i < |p.suites| && AllSettled(p, w) && SamePredicates(p, w, w1) && SamePredicates(p, w, w2)
    ensures Added(p, w1, i, RunTo(p, w1, i, start1).halt.Some?) == Added(p, w2, i, RunTo(p, w2, i, start2).halt.Some?)
  {
    hide Listed, Thrown, RunTo, HaltsAt, MayHalt, ThrowHalts;
    if Keeps(p, i) && EvaluateApplies(p, w, i).Throws? {
      HaltedIff(p, w1, i, start1);
      HaltedIff(p, w2, i, start2);
      forall a | 0 <= a < i
        ensures HaltsAt(p, w1, a) || HaltsAt(p, w2, a) ==> ThrowHalts(p, w, a) || MayHalt(p, w, a)
        ensures ThrowHalts(p, w, a) ==> HaltsAt(p, w1, a) && HaltsAt(p, w2, a)
      {
        HaltsOnlyIfItMay(p, w, w1, a);
        HaltsOnlyIfItMay(p, w, w2, a);
      }
      assert Settled(p, w, i);
    }
  }

  lemma {:induction false} RunToPlaces(p: Pipeline, w: World, w1: World, start1: nat, w2: World, start2: nat, i: nat)
    requires i <= |p.suites| && AllSettled(p, w) && SamePredicates(p, w, w1) && SamePredicates(p, w, w2)
    ensures Places(RunTo(p, w1, i, start1).log) == Places(RunTo(p, w2, i, start2).log)
  {
    hide SuiteStep, Added, AllSettled, SamePredicates;
    if i > 0 {
      RunToPlaces(p, w, w1, start1, w2, start2, i - 1);
      SettledAdds(p, w, w1, start1, w2, start2, i - 1);
      SuitePlaces(p, w1, i - 1, RunTo(p, w1, i - 1, start1));
      SuitePlaces(p, w2, i - 1, RunTo(p, w2, i - 1, start2));
    }
  }

  // ----- and no less -----

  /** The same predicates, with checks that all pass, but for the ones of suite `loud`. */
  function PassingChecks(w: World, loud: Option<nat>): World {
    w.(execute := (i: nat, j: nat) => Returns(if loud == Some(i) then Failure([]) else Success("")))
  }

  lemma PassingHalts(p: Pipeline, w: World, loud: Option<nat>, a: nat)
    requires a < |p.suites|
    ensures SamePredicates(p, w, PassingChecks(w, loud))
    ensures HaltsAt(p, PassingChecks(w, loud), a) <==> ThrowHalts(p, w, a) || (loud == Some(a) && MayHalt(p, w, a))
  {
    var w' := PassingChecks(w, loud);
    assert EvaluateApplies(p, w', a) == EvaluateApplies(p, w, a);
    assert forall k :: 0 <= k < |p.suites[a].checks| ==> ExecutionOutcome(w', a, k).Failure? == (loud == Some(a));
    if loud == Some(a) && MayHalt(p, w, a) {
      var c :| c in p.suites[a].checks && AppliesToSubject(c, p.subject) && HaltsOnFailure(c);
      var k :| 0 <= k < |p.suites[a].checks| && p.suites[a].checks[k] == c;
      assert FailsAndHalts(p, w', a, k);
    }
  }

  lemma {:induction false} Segments(p: Pipeline, w: World, i: nat, n: nat, start: nat)
    requires i <= n <= |p.suites|
    ensures var a, b := Places(RunTo(p, w, i, start).log), Places(RunTo(p, w, n, start).log);
            && a <= b
            && (forall k :: 0 <= k < |a| ==> a[k].0 < i)
            && (forall k :: |a| <= k < |b| ==> i <= b[k].0 < n)
    decreases n
  {
    hide SuiteStep, Added;
    if i < n {
      Segments(p, w, i, n - 1, start);
      SuitePlaces(p, w, n - 1, RunTo(p, w, n - 1, start));
    } else if i > 0 {
      Segments(p, w, 0, i - 1, start);
      SuitePlaces(p, w, i - 1, RunTo(p, w, i - 1, start));
    }
  }

  /** Two runs whose rows stand in the same places agree on what each suite added. */
  lemma SameAdded(p: Pipeline, w1: World, start1: nat, w2: World, start2: nat, i: nat)
    requires i < |p.suites| && Places(Run(p, w1, start1).log) == Places(Run(p, w2, start2).log)
    ensures Added(p, w1, i, RunTo(p, w1, i, start1).halt.Some?) == Added(p, w2, i, RunTo(p, w2, i, start2).halt.Some?)
  {
    hide SuiteStep, Added, RunTo;
    var all := Places(Run(p, w1, start1).log);
    var ids1 := Added(p, w1, i, RunTo(p, w1, i, start1).halt.Some?);
    var ids2 := Added(p, w2, i, RunTo(p, w2, i, start2).halt.Some?);
    var at1 := SuiteSegment(p, w1, start1, i);
    var at2 := SuiteSegment(p, w2, start2, i);
    SameSegment(all, i, ids1, at1, ids2, at2);
  }

  /** The rows of suite `i` form the segment of the run's places that starts at `at`. */
  ghost predicate Segment(all: seq<Place>, i: nat, ids: seq<string>, at: nat) {
    && at + |ids| <= |all|
    && (forall k :: at <= k < at + |ids| ==> all[k] == (i, ids[k - at]))
    && (forall k :: 0 <= k < at ==> all[k].0 < i)
    && (forall k :: at + |ids| <= k < |all| ==> i < all[k].0)
  }

  lemma SameSegment(all: seq<Place>, i: nat, ids1: seq<string>, at1: nat, ids2: seq<string>, at2: nat)
    requires Segment(all, i, ids1, at1) && Segment(all, i, ids2, at2)
    ensures ids1 == ids2
  {
    var end1, end2 := at1 + |ids1|, at2 + |ids2|;
    assert at1 < end1 ==> all[at1].0 == i && all[end1 - 1].0 == i;
    assert at2 < end2 ==> all[at2].0 == i && all[end2 - 1].0 == i;
    if at1 < end1 {
      assert at1 == at2 && end1 == end2;
      forall k | 0 <= k < |ids1| ensures ids1[k] == ids2[k] {
        assert all[at1 + k] == (i, ids1[k]);
      }
    }
  }

  lemma SuiteSegment(p: Pipeline, w: World, start: nat, i: nat) returns (at: nat)
    requires i < |p.suites|
    ensures Segment(Places(Run(p, w, start).log), i, Added(p, w, i, RunTo(p, w, i, start).halt.Some?), at)
  {
    hide SuiteStep, Added;
    var st := RunTo(p, w, i, start);
    Segments(p, w, i, i, start);
    SuitePlaces(p, w, i, st);
    Segments(p, w, i + 1, |p.suites|, start);
    at := |st.log|;
    var next, all := Places(RunTo(p, w, i + 1, start).log), Places(Run(p, w, start).log);
    assert next == Places(st.log) + Tag(i, Added(p, w, i, st.halt.Some?));
    hide RunTo;
    assert forall k :: 0 <= k < |next| ==> all[k] == next[k];
  }

  /** An unsettled suite is reported in two ways: as thrown when all checks pass, as listed when an earlier one fails. */
  lemma UnsettledVaries(p: Pipeline, w: World, i: nat)
    requires i < |p.suites| && Keeps(p, i) && EvaluateApplies(p, w, i).Throws? && !Settled(p, w, i)
    ensures !IdsFixed(p, w)
  {
    var a :| 0 <= a < i && MayHalt(p, w, a);
    var quiet, loud := PassingChecks(w, None), PassingChecks(w, Some(a));
    forall b | 0 <= b < i
      ensures !HaltsAt(p, quiet, b) && (b == a ==> HaltsAt(p, loud, b))
    {
      PassingHalts(p, w, None, b);
      PassingHalts(p, w, Some(a), b);
    }
    PassingHalts(p, w, None, a);
    PassingHalts(p, w, Some(a), a);
    HaltedIff(p, quiet, i, 0);
    HaltedIff(p, loud, i, 0);
    assert EvaluateApplies(p, quiet, i).Throws? && EvaluateApplies(p, loud, i).Throws?;
    hide RunTo, HaltsAt, MayHalt, ThrowHalts, Listed, Thrown, EvaluateApplies, SamePredicates;
    if Places(Run(p, quiet, 0).log) == Places(Run(p, loud, 0).log) {
      SameAdded(p, quiet, 0, loud, 0, i);
    }
    assert !SamePlaces(p, w, quiet, 0, loud, 0);
  }

  /**
   The ids of a run's rows do not depend on its checks iff every throwing suite it keeps
   is settled. In particular they do not when no predicate throws.
   */
  lemma IdsFixedIff(p: Pipeline, w: World)
    ensures IdsFixed(p, w) <==> AllSettled(p, w)
  {
    if AllSettled(p, w) {
      forall w1, start1, w2, start2 ensures SamePlaces(p, w, w1, start1, w2, start2) {
        if SamePredicates(p, w, w1) && SamePredicates(p, w, w2) {
          RunToPlaces(p, w, w1, start1, w2, start2, |p.suites|);
        }
      }
    } else {
      var i :| 0 <= i < |p.suites| && Keeps(p, i) && EvaluateApplies(p, w, i).Throws? && !Settled(p, w, i);
      UnsettledVaries(p, w, i);
    }
  }
}
