/**
 The verify calls: one pipeline run per subject, folded into a result, with a
 top-level timing around everything.
 */
module VerifierCalls {
  import opened Options
  import opened Results
  import opened Orchestration
  import opened Phases
  import opened FoldResults

  // ----- timing -----

  /** The monotonic clock never runs backwards. */
  ghost predicate MonotoneClock(clock: nat -> Instant) {
    forall a: nat, b: nat :: a <= b ==> clock(a).mono <= clock(b).mono
  }

  ghost predicate Monotone(w: World) { MonotoneClock(w.clock) }

  lemma TotalAppend(rows: seq<Row>, row: Row)
    ensures Total(rows + [row], DURATION) == Total(rows, DURATION) + DURATION(row)
  {
    assert (rows + [row])[..|rows|] == rows;
  }

  /** From clock reading `start` on, the rows have not used more time than has passed. */
  ghost predicate Fits(w: World, start: nat, st: State) {
    && start <= st.tick
    && Total(Rows(st.log), DURATION) <= w.clock(st.tick).mono - w.clock(start).mono
  }

  lemma AppendFits(w: World, start: nat, st: State, st': State)
    requires Monotone(w) && Fits(w, start, st)
    requires |st'.log| == |st.log| + 1 && st'.log[..|st.log|] == st.log
    requires var t := st'.log[|st.log|].row.timing;
             t.None? || exists a, b :: st.tick <= a <= b <= st'.tick && t.value.durationMs == w.clock(b).mono - w.clock(a).mono
    requires st.tick <= st'.tick
    ensures Fits(w, start, st')
  {
    assert Rows(st'.log) == Rows(st.log) + [st'.log[|st.log|].row];
    TotalAppend(Rows(st.log), st'.log[|st.log|].row);
    assert w.clock(st.tick).mono <= w.clock(st'.tick).mono;
  }

  lemma SyntheticFits(p: Pipeline, w: World, i: nat, checkId: string, outcome: Outcome,
                      fatal: Option<bool>, halts: Option<bool>, start: nat, st: State)
    requires i < |p.suites| && Monotone(w) && Fits(w, start, st)
    ensures Fits(w, start, Synthetic(p, w, i, checkId, outcome, fatal, halts, st))
  {
    var st' := Synthetic(p, w, i, checkId, outcome, fatal, halts, st);
    assert st.tick <= st.tick <= st.tick + 1 <= st.tick + 2;
    AppendFits(w, start, st, st');
  }

  lemma ExecuteFits(p: Pipeline, w: World, i: nat, j: nat, start: nat, st: State)
    requires i < |p.suites| && j < |p.suites[i].checks| && Monotone(w) && Fits(w, start, st)
    ensures Fits(w, start, Execute(p, w, i, j, st))
  {
    var st' := Execute(p, w, i, j, st);
    if p.timing {
      var after := st.tick + 1 + w.readings(i, j);
      assert st.tick <= st.tick <= after <= st'.tick;
      assert st'.log[|st.log|].row.timing.value.durationMs == w.clock(after).mono - w.clock(st.tick).mono;
    }
    AppendFits(w, start, st, st');
  }

  lemma {:induction false} ChecksToFits(p: Pipeline, w: World, i: nat, j: nat, start: nat, st: State)
    requires i < |p.suites| && j <= |p.suites[i].checks| && Monotone(w) && Fits(w, start, st)
    ensures Fits(w, start, ChecksTo(p, w, i, j, st))
  {
    hide Fits, Synthetic, Execute;
    if j > 0 {
      ChecksToFits(p, w, i, j - 1, start, st);
      var before := ChecksTo(p, w, i, j - 1, st);
      var check := p.suites[i].checks[j - 1];
      if before.halt.Some? {
        SyntheticFits(p, w, i, check.id, NotRunOutcome(before.halt.value.checkId), check.fatal, check.halts, start, before);
      } else {
        ExecuteFits(p, w, i, j - 1, start, before);
      }
    }
  }

  lemma SuiteStepFits(p: Pipeline, w: World, i: nat, start: nat, st: State)
    requires i < |p.suites| && Monotone(w) && Fits(w, start, st)
    ensures Fits(w, start, SuiteStep(p, w, i, st))
  {
    ChecksToFits(p, w, i, |p.suites[i].checks|, start, st);
    SyntheticFits(p, w, i, AppliesId(p.suites[i]), PREDICATE_FALSE, None, None, start, st);
    var applies := EvaluateApplies(p, w, i);
    if applies.Throws? {
      SyntheticFits(p, w, i, AppliesId(p.suites[i]), CheckErrorOutcome(applies.error), Some(HasFatalCheck(p, i)), None, start, st);
    }
    hide ChecksTo, Synthetic;
  }

  lemma {:induction false} RunToFits(p: Pipeline, w: World, i: nat, start: nat)
    requires i <= |p.suites| && Monotone(w)
    ensures Fits(w, start, RunTo(p, w, i, start))
  {
    if i > 0 {
      RunToFits(p, w, i - 1, start);
      SuiteStepFits(p, w, i - 1, start, RunTo(p, w, i - 1, start));
    }
  }

  lemma {:induction false} RunToTicks(p: Pipeline, w: World, i: nat, start: nat)
    requires i <= |p.suites|
    ensures start <= RunTo(p, w, i, start).tick
  {
    if i > 0 {
      RunToTicks(p, w, i - 1, start);
      ChecksToTicks(p, w, i - 1, |p.suites[i - 1].checks|, RunTo(p, w, i - 1, start));
    }
  }

  lemma {:induction false} ChecksToTicks(p: Pipeline, w: World, i: nat, j: nat, st: State)
    requires i < |p.suites| && j <= |p.suites[i].checks|
    ensures st.tick <= ChecksTo(p, w, i, j, st).tick
  {
    if j > 0 {
      ChecksToTicks(p, w, i, j - 1, st);
    }
  }

  /** With a monotone clock, a call that begins before the run and ends after it lasts at least as long as its rows. */
  lemma RowsFitInCall(p: Pipeline, w: World, begin: nat, start: nat, end: nat)
    requires Monotone(w) && begin <= start && Run(p, w, start).tick <= end
    ensures Total(Rows(Run(p, w, start).log), DURATION) <= w.clock(end).mono - w.clock(begin).mono
  {
    RunToFits(p, w, |p.suites|, start);
    hide RunTo;
    assert w.clock(begin).mono <= w.clock(start).mono;
    assert w.clock(Run(p, w, start).tick).mono <= w.clock(end).mono;
  }

  // ----- the verify calls -----

  const PARSING_SUITE := Suite("parsing", [Check("parsing.envelope", None, Some(true), None)], Some(Cryptographic), false)

  /** Options of a call; `parses` is the envelope gate's answer for the document. */
  datatype Call = Call(
    parses: bool,
    parseError: string,
    additionalSuites: seq<Suite>,
    phases: Option<seq<Phase>>,
    timing: Option<bool>)

  datatype Config = Config(defaultSuites: seq<Suite>, presentationSuites: seq<Suite>, phases: Option<seq<Phase>>, timing: Option<bool>)

  datatype CallResult = CallResult(
    verified: bool,
    results: seq<Row>,
    summary: seq<SuiteSummary>,
    partial: bool,
    timing: Option<Timing>)

  function OrElse<T>(a: Option<T>, b: Option<T>): Option<T> { if a.Some? then a else b }

  function RequestedPhases(config: Config, call: Call): Option<seq<Phase>> { OrElse(call.phases, config.phases) }

  function TimingOn(config: Config, call: Call): bool { OrElse(call.timing, config.timing) == Some(true) }

  /** The pipeline a call runs: built-in suites, then the caller's, which count as explicitly queued. */
  function PipelineOf(config: Config, call: Call, builtIn: seq<Suite>, subject: SubjectType): Pipeline {
    Pipeline(builtIn + call.additionalSuites, {subject}, set s | s in call.additionalSuites :: s.id,
             ExpandPhases(RequestedPhases(config, call)), TimingOn(config, call))
  }

  /** What a phase request comes to: the phases asked for, and recognition behind semantic ones that lack it. */
  ghost predicate Brings(requested: seq<Phase>, expanded: Option<seq<Phase>>) {
    expanded == Some(if Semantic in requested && Recognition !in requested then requested + [Recognition] else requested)
  }

  /**
   What a call runs: the built-in suites and then its own, which alone are explicitly queued; for its own kind of subject; and
   with the phases and timing it asks for itself, or else those the verifier was made with.
   */
  lemma PipelineExactly(config: Config, call: Call, builtIn: seq<Suite>, subject: SubjectType)
    ensures var p := PipelineOf(config, call, builtIn, subject);
            && p.suites == builtIn + call.additionalSuites && p.subject == {subject}
            && (forall id :: id in p.explicitSuiteIds <==> exists s :: s in call.additionalSuites && s.id == id)
            && (call.phases.Some? ==> Brings(call.phases.value, p.phases))
            && (call.phases.None? && config.phases.Some? ==> Brings(config.phases.value, p.phases))
            && (call.phases.None? && config.phases.None? ==> p.phases.None?)
            && (p.timing <==> call.timing == Some(true) || (call.timing.None? && config.timing == Some(true)))
  {
  }

  /** What every result of a call guarantees, whichever way the call ended. */
  ghost predicate SoundReport(verified: bool, results: seq<Row>, summary: seq<SuiteSummary>, suites: seq<Suite>) {
    && Folds(summary, results, suites)
    && (verified <==> Verified(results))
    && (verified <==> forall k :: 0 <= k < |summary| ==> summary[k].verified)
    && CountSum(summary) == |results|
    && DurationSum(summary) == Total(results, DURATION)
  }

  ghost predicate Sound(r: CallResult, suites: seq<Suite>) {
    SoundReport(r.verified, r.results, r.summary, suites)
  }

  lemma FoldSound(rows: seq<Row>, summaries: seq<SuiteSummary>, suites: seq<Suite>)
    requires Folds(summaries, rows, suites)
    ensures SoundReport(Verified(rows), rows, summaries, suites)
  {
    FoldConserves(summaries, rows, suites);
    hide Folds, Verified, Total, CountSum, DurationSum;
  }

  /** The time between two readings of the clock. */
  function Elapsed(clock: nat -> Instant, from: nat, to: nat): int { clock(to).mono - clock(from).mono }

  method SyntheticFailureResult(suite: Suite, checkId: string, problem: Problem, timing: bool, rt: Runtime)
    returns (row: Row)
    modifies rt`tick
    ensures row.id == ComputeId(suite.phase, suite.id, checkId) && row.suite == suite.id
    ensures row.outcome == Failure([problem]) && row.fatal == Some(true) && row.halts.None?
    ensures row.timing == if timing then
                            Some(Timing(rt.clock(old(rt.tick)).wall, rt.clock(old(rt.tick) + 1).wall,
                                        Elapsed(rt.clock, old(rt.tick), old(rt.tick) + 1)))
                          else None
    ensures rt.tick == if timing then old(rt.tick) + 2 else old(rt.tick)
  {
    row := Row(ComputeId(suite.phase, suite.id, checkId), suite.id, Failure([problem]), Some(true), None, None);
    if timing {
      var started := rt.Sample();
      var ended := rt.Sample();
      row := row.(timing := Some(Timing(started.wall, ended.wall, ended.mono - started.mono)));
    }
  }

  /** The verdict the suites decide on their own: the document parses and no kept suite would fail it. */
  ghost predicate SubjectVerified(config: Config, call: Call, builtIn: seq<Suite>, subject: SubjectType, w: World) {
    call.parses && SuitesPass(PipelineOf(config, call, builtIn, subject), w)
  }

  ghost predicate SuitesPass(p: Pipeline, w: World) {
    forall i :: 0 <= i < |p.suites| && SuiteRunsInPhases(p.suites[i], p.phases) ==> !SuiteFails(p, w, i)
  }

  /** The reading at the very top of a call, with timing on. */
  method Start(timing: bool, rt: Runtime) returns (started: Option<Instant>)
    modifies rt`tick
    ensures started == if timing then Some(rt.clock(old(rt.tick))) else None
    ensures rt.tick == if timing then old(rt.tick) + 1 else old(rt.tick)
  {
    started := None;
    if timing {
      var now := rt.Sample();
      started := Some(now);
    }
  }

  /** The timing of a call that started then and is about to return, if it is timed. */
  method Stop(started: Option<Instant>, rt: Runtime) returns (timing: Option<Timing>)
    modifies rt`tick
    ensures timing == if started.None? then None
                      else Some(Timing(started.value.wall, rt.clock(old(rt.tick)).wall,
                                       rt.clock(old(rt.tick)).mono - started.value.mono))
    ensures rt.tick == if started.Some? then old(rt.tick) + 1 else old(rt.tick)
  {
    timing := None;
    if started.Some? {
      var ended := rt.Sample();
      timing := Some(Timing(started.value.wall, ended.wall, ended.mono - started.value.mono));
    }
  }

  /** One subject's rows, folded. */
  datatype Report = Report(verified: bool, results: seq<Row>, summary: seq<SuiteSummary>)

  /** The report is sound, and its rows took no longer than the time that passed. */
  ghost predicate SoundWithin(r: Report, suites: seq<Suite>, clock: nat -> Instant, from: nat, to: nat) {
    && SoundReport(r.verified, r.results, r.summary, suites)
    && from <= to
    && (MonotoneClock(clock) ==> DurationSum(r.summary) <= Elapsed(clock, from, to))
  }

  method Fold(rows: seq<Row>, suites: seq<Suite>) returns (r: Report)
    ensures SoundReport(r.verified, rows, r.summary, suites) && r.results == rows
  {
    hide *;
    var results, summaries := FoldCheckResults(rows, suites);
    FoldSound(rows, summaries, suites);
    r := Report(Verified(rows), results, summaries);
  }

  /** Read the clock for the context's own time, run the suites on one subject, and fold the rows. */
  method RunAndFold(p: Pipeline, w: World, rt: Runtime) returns (r: Report)
    requires w.clock == rt.clock
    modifies rt
    ensures SoundWithin(r, p.suites, rt.clock, old(rt.tick), rt.tick)
    ensures r.results == Rows(Run(p, w, old(rt.tick) + 1).log)
    ensures rt.calls == old(rt.calls) + Run(p, w, old(rt.tick) + 1).calls
    ensures r.verified <==> SuitesPass(p, w)
  {
    hide Folds, SuiteFails, CountSum, DurationSum, Run, Total, Verified;
    ghost var start := rt.tick;
    var now := rt.Sample();
    var rows := RunSuites(p, w, rt);
    VerifiedIffNoKeptSuiteFails(p, w, start + 1);
    RunTakesTime(p, w, start);
    r := Fold(rows, p.suites);
  }

  /** A run lies between the context's reading of the clock, just before it, and whatever follows. */
  lemma RunTakesTime(p: Pipeline, w: World, start: nat)
    ensures start < Run(p, w, start + 1).tick
    ensures MonotoneClock(w.clock) ==>
              Total(Rows(Run(p, w, start + 1).log), DURATION) <= Elapsed(w.clock, start, Run(p, w, start + 1).tick)
  {
    RunToTicks(p, w, |p.suites|, start + 1);
    if MonotoneClock(w.clock) {
      RowsFitInCall(p, w, start, start + 1, Run(p, w, start + 1).tick);
    }
  }

  lemma EarlyId(suite: string, local: string, id: string)
    requires id == suite + "." + local && suite != "" && local != "" && suite != "cryptographic"
    ensures ComputeId(Some(Cryptographic), suite, id) == "cryptographic." + id
  {
    hide ComputeId;
    IdExactly(Some(Cryptographic), suite, id, "cryptographic", local);
  }

  /** The ids of the two rows that a call may end with before any suite runs. */
  lemma EarlyIds()
    ensures ComputeId(PARSING_SUITE.phase, PARSING_SUITE.id, "parsing.envelope") == "cryptographic." + "parsing.envelope"
    ensures ComputeId(OPTIONS_SUITE.phase, OPTIONS_SUITE.id, "proof.signature") == "cryptographic." + "proof.signature"
  {
    hide ComputeId;
    EarlyId("parsing", "envelope", "parsing.envelope");
    EarlyId("proof", "signature", "proof.signature");
  }

  /** A call that ends before any suite runs: one fatal row, and no check executes. */
  method FailEarly(suite: Suite, checkId: string, problem: Problem, timing: bool, rt: Runtime) returns (r: Report)
    modifies rt`tick
    ensures SoundWithin(r, [suite], rt.clock, old(rt.tick), rt.tick)
    ensures !r.verified && |r.results| == 1
    ensures r.results[0].id == ComputeId(suite.phase, suite.id, checkId)
    ensures r.results[0].suite == suite.id && r.results[0].fatal == Some(true) && r.results[0].halts.None?
    ensures r.results[0].outcome == Failure([problem]) && r.results[0].timing.Some? == timing
  {
    ghost var t := rt.tick;
    var row := SyntheticFailureResult(suite, checkId, problem, timing, rt);
    hide Folds, CountSum, DurationSum;
    r := Fold([row], [suite]);
    assert FatalFailure([row][0]);
    assert Total([row], DURATION) == DURATION(row) by { assert [row][..0] == []; }
    assert timing ==> rt.tick == t + 2;
    assert MonotoneClock(rt.clock) && timing ==> rt.clock(t + 1).mono <= rt.clock(t + 2).mono;
  }

  /** The call's own timing, from its first reading to its last, when it is timed. */
  ghost predicate Timed(timing: Option<Timing>, on: bool, clock: nat -> Instant, from: nat, to: nat) {
    && (timing.Some? <==> on)
    && from <= to
    && (on ==> from < to && timing.value.durationMs == Elapsed(clock, from, to - 1))
  }

  /**
   One call on one credential: the envelope gate, then the run, then the fold. The
   verdict is the one the suites decide on their own, and with timing on the
   call lasts at least as long as its summaries say its suites did, whichever way it ended.
   */
  method Verify(config: Config, call: Call, builtIn: seq<Suite>, subject: SubjectType, w: World, rt: Runtime)
    returns (r: CallResult)
    requires w.clock == rt.clock
    modifies rt
    ensures var p := PipelineOf(config, call, builtIn, subject);
            if call.parses then
              && Sound(r, p.suites)
              && r.results == Rows(Run(p, w, old(rt.tick) + if p.timing then 2 else 1).log)
              && (r.partial <==> RequestedPhases(config, call).Some?)
            else
              && Sound(r, [PARSING_SUITE])
              && !r.verified && !r.partial && |r.results| == 1
              && r.results[0].id == "cryptographic." + "parsing.envelope" && r.results[0].fatal == Some(true)
              && rt.calls == old(rt.calls)
    ensures r.verified <==> SubjectVerified(config, call, builtIn, subject, w)
    ensures Timed(r.timing, TimingOn(config, call), rt.clock, old(rt.tick), rt.tick)
    ensures r.timing.Some? && MonotoneClock(rt.clock) ==> DurationSum(r.summary) <= r.timing.value.durationMs
  {
    EarlyIds();
    hide Folds, SuitesPass, CountSum, DurationSum, Run, Total, Verified, ComputeId;
    var timing := TimingOn(config, call);
    var started := Start(timing, rt);
    var p := PipelineOf(config, call, builtIn, subject);
    var report: Report;
    if call.parses {
      report := RunAndFold(p, w, rt);
    } else {
      report := FailEarly(PARSING_SUITE, "parsing.envelope", Problem(OtherProblem("PARSING_ERROR"), call.parseError, None), timing, rt);
    }
    var ended := Stop(started, rt);
    r := CallResult(report.verified, report.results, report.summary,
                    call.parses && RequestedPhases(config, call).Some?, ended);
  }

  /** What a presentation call returns: its own report, its credentials' results, and one timing around everything. */
  datatype PresentationResult = PresentationResult(
    verified: bool,
    own: Report,
    credentials: seq<CallResult>,
    partial: bool,
    timing: Option<Timing>)

  /** What the presentation call passes down for one embedded credential: the timing decision is resolved first. */
  function Propagated(config: Config, call: Call, embedded: Call): Call {
    embedded.(additionalSuites := call.additionalSuites, phases := call.phases, timing := Some(TimingOn(config, call)))
  }

  /** A challenge or domain option the call rejects before any suite runs. */
  predicate InvalidChallengeOptions(challenge: Option<string>, domain: Option<string>) {
    challenge == Some("") || (domain.Some? && challenge.None?)
  }

  /** The options pass iff there is a challenge that says something, or neither a challenge nor a domain. */
  lemma OptionsExactly(challenge: Option<string>, domain: Option<string>)
    ensures !InvalidChallengeOptions(challenge, domain) <==>
            (challenge.Some? && challenge.value != "") || (challenge.None? && domain.None?)
  {
  }

  /** An embedded credential is parsed as itself, and judged with the suites, phases and timing of the presentation's call. */
  lemma PropagatedExactly(config: Config, call: Call, embedded: Call, builtIn: seq<Suite>, subject: SubjectType)
    ensures var sent := Propagated(config, call, embedded);
            && sent.parses == embedded.parses && sent.parseError == embedded.parseError
            && PipelineOf(config, sent, builtIn, subject) == PipelineOf(config, call, builtIn, subject)
  {
  }

  const OPTIONS_SUITE := Suite("proof", [], Some(Cryptographic), false)

  function CallDuration(c: CallResult): int { if c.timing.Some? then c.timing.value.durationMs else 0 }

  function CallDurations(credentials: seq<CallResult>): int {
    if credentials == [] then 0
    else CallDurations(credentials[..|credentials| - 1]) + CallDuration(credentials[|credentials| - 1])
  }

  /** The suites a presentation's own report is about: one of its own, or the one its early failure is attributed to. */
  function ReportedSuites(config: Config, call: Call, challenge: Option<string>, domain: Option<string>): seq<Suite> {
    if !call.parses then [PARSING_SUITE]
    else if InvalidChallengeOptions(challenge, domain) then [OPTIONS_SUITE]
    else PipelineOf(config, call, config.presentationSuites, VerifiablePresentation).suites
  }

  /** The embedded credentials, each by a call of its own, one after the other on the same clock. */
  method VerifyEmbedded(config: Config, call: Call, embedded: seq<Call>, worlds: seq<World>, rt: Runtime)
    returns (credentials: seq<CallResult>)
    requires |embedded| == |worlds| && forall k :: 0 <= k < |worlds| ==> worlds[k].clock == rt.clock
    modifies rt
    ensures |credentials| == |embedded| && old(rt.tick) <= rt.tick
    ensures forall k :: 0 <= k < |credentials| ==>
              && (credentials[k].verified <==>
                  SubjectVerified(config, Propagated(config, call, embedded[k]), config.defaultSuites,
                                  VerifiableCredential, worlds[k]))
              && (credentials[k].timing.Some? <==> TimingOn(config, call))
              && (MonotoneClock(rt.clock) ==> 0 <= CallDuration(credentials[k]) <= CallDurations(credentials))
    ensures MonotoneClock(rt.clock) ==> CallDurations(credentials) <= Elapsed(rt.clock, old(rt.tick), rt.tick)
  {
    hide SubjectVerified, Sound, Run, PipelineOf, DurationSum;
    credentials := [];
    for n := 0 to |embedded|
      invariant |credentials| == n && old(rt.tick) <= rt.tick
      invariant forall k :: 0 <= k < n ==>
                  && (credentials[k].verified <==>
                      SubjectVerified(config, Propagated(config, call, embedded[k]), config.defaultSuites,
                                      VerifiableCredential, worlds[k]))
                  && (credentials[k].timing.Some? <==> TimingOn(config, call))
                  && (MonotoneClock(rt.clock) ==> 0 <= CallDuration(credentials[k]) <= CallDurations(credentials))
      invariant MonotoneClock(rt.clock) ==> CallDurations(credentials) <= Elapsed(rt.clock, old(rt.tick), rt.tick)
    {
      ghost var from := rt.tick;
      var c := Verify(config, Propagated(config, call, embedded[n]), config.defaultSuites, VerifiableCredential, worlds[n], rt);
      CallTakesTime(c, TimingOn(config, call), rt.clock, from, rt.tick);
      assert (credentials + [c])[..n] == credentials;
      credentials := credentials + [c];
    }
  }

  lemma CallTakesTime(c: CallResult, on: bool, clock: nat -> Instant, from: nat, to: nat)
    requires Timed(c.timing, on, clock, from, to)
    ensures MonotoneClock(clock) ==> 0 <= CallDuration(c) <= Elapsed(clock, from, to)
  {
    if MonotoneClock(clock) {
      assert clock(from).mono <= clock(to).mono;
      assert on ==> clock(from).mono <= clock(to - 1).mono <= clock(to).mono;
    }
  }

  /**
   A presentation is verified iff its options are valid, its own run is, and
   every embedded credential, each judged by its own call, is. After an invalid
   option or a failed envelope gate no embedded credential is judged at all. Its own
   report is sound whichever way the call ended, and its timing wraps everything: it lasts at
   least as long as its own suites and all the calls on its credentials together.
   */
  method VerifyPresentation(config: Config, call: Call, challenge: Option<string>, domain: Option<string>,
                            w: World, embedded: seq<Call>, worlds: seq<World>, rt: Runtime)
    returns (r: PresentationResult)
    requires w.clock == rt.clock
    requires |embedded| == |worlds| && forall k :: 0 <= k < |worlds| ==> worlds[k].clock == rt.clock
    modifies rt
    ensures SoundReport(r.own.verified, r.own.results, r.own.summary, ReportedSuites(config, call, challenge, domain))
    ensures r.verified <==>
            && !InvalidChallengeOptions(challenge, domain)
            && SubjectVerified(config, call, config.presentationSuites, VerifiablePresentation, w)
            && forall k :: 0 <= k < |embedded| ==>
                 SubjectVerified(config, Propagated(config, call, embedded[k]), config.defaultSuites,
                                 VerifiableCredential, worlds[k])
    ensures |r.credentials| == if call.parses && !InvalidChallengeOptions(challenge, domain) then |embedded| else 0
    ensures forall k :: 0 <= k < |r.credentials| ==>
              && (r.credentials[k].verified <==>
                  SubjectVerified(config, Propagated(config, call, embedded[k]), config.defaultSuites,
                                  VerifiableCredential, worlds[k]))
              && (r.credentials[k].timing.Some? <==> TimingOn(config, call))
    ensures !call.parses || InvalidChallengeOptions(challenge, domain) ==>
              && |r.own.results| == 1 && r.own.results[0].outcome.Failure? && r.own.results[0].fatal == Some(true)
              && r.own.results[0].id == "cryptographic." + if call.parses then "proof.signature" else "parsing.envelope"
    ensures r.partial <==> call.parses && !InvalidChallengeOptions(challenge, domain) && RequestedPhases(config, call).Some?
    ensures Timed(r.timing, TimingOn(config, call), rt.clock, old(rt.tick), rt.tick)
    ensures r.timing.Some? && MonotoneClock(rt.clock) ==>
              && DurationSum(r.own.summary) + CallDurations(r.credentials) <= r.timing.value.durationMs
              && forall k :: 0 <= k < |r.credentials| ==>
                   && r.credentials[k].timing.Some?
                   && 0 <= r.credentials[k].timing.value.durationMs <= CallDurations(r.credentials)
  {
    EarlyIds();
    hide SuitesPass, PipelineOf, SoundReport, Run, DurationSum, ComputeId;
    var timing := TimingOn(config, call);
    var started := Start(timing, rt);
    var own: Report, credentials: seq<CallResult> := *, [];
    ghost var from := rt.tick;
    if !call.parses {
      own := FailEarly(PARSING_SUITE, "parsing.envelope", Problem(OtherProblem("PARSING_ERROR"), call.parseError, None), timing, rt);
    } else if InvalidChallengeOptions(challenge, domain) {
      own := FailEarly(OPTIONS_SUITE, "proof.signature", Problem(ProofVerificationError, "Challenge Required", None), timing, rt);
    } else {
      own := RunAndFold(PipelineOf(config, call, config.presentationSuites, VerifiablePresentation), w, rt);
      credentials := VerifyEmbedded(config, call, embedded, worlds, rt);
    }
    var all := own.verified && forall k :: 0 <= k < |credentials| ==> credentials[k].verified;
    var ended := Stop(started, rt);
    r := PresentationResult(all, own, credentials,
                            call.parses && !InvalidChallengeOptions(challenge, domain) && RequestedPhases(config, call).Some?, ended);
  }
}
