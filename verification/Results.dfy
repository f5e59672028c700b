/**
 The vocabulary every component reports in: outcomes, problems, rows and their
 namespaced ids.
 */
module Results {

  import opened Options
  import opened Strings

  datatype Phase = Cryptographic | Trust | Recognition | Semantic

  datatype SubjectType = VerifiableCredential | VerifiablePresentation

  datatype ProblemType =
    | CheckError
    | ProofUnsupported
    | ProofVerificationError
    | MalformedValueError
    | IssuerNotFound
    | IssuerNotRegistered
    | RegistryUnchecked
    | RegistryError
    | StatusListIssuerMismatch
    | OtherProblem(uri: string)

  datatype Problem = Problem(kind: ProblemType, detail: string, instance: Option<string>)

  /** What one check concludes; a skip may say why in a machine-readable code. */
  datatype Outcome =
    | Success(message: string)
    | Failure(problems: seq<Problem>)
    | Skipped(reason: string, code: Option<string>, haltedBy: Option<string>)

  datatype Timing = Timing(startedAt: int, endedAt: int, durationMs: int)

  /** One line of the flat report. */
  datatype Row = Row(
    id: string,
    suite: string,
    outcome: Outcome,
    fatal: Option<bool>,
    halts: Option<bool>,
    timing: Option<Timing>)

  const NOT_RUN_AFTER_FATAL := "NOT_RUN_AFTER_FATAL"

  /** A row that makes the subject's `verified` false. */
  predicate FatalFailure(row: Row) {
    row.fatal == Some(true) && row.outcome.Failure?
  }

  /** A fatal failure that also stops everything after it. */
  predicate HaltingFailure(row: Row) {
    FatalFailure(row) && row.halts != Some(false)
  }

  /** A row standing for a check that an earlier halt kept from running. */
  predicate NotRun(row: Row) {
    row.outcome.Skipped? && row.outcome.code == Some(NOT_RUN_AFTER_FATAL)
  }

  /** `verified`, as the verifier computes it from the flat report. */
  predicate Verified(rows: seq<Row>) {
    forall k :: 0 <= k < |rows| ==> !FatalFailure(rows[k])
  }

  // ----- namespaced ids -----

  function PhaseSegment(phase: Option<Phase>): string {
    match phase
    case None => "unknown"
    case Some(Cryptographic) => "cryptographic"
    case Some(Trust) => "trust"
    case Some(Recognition) => "recognition"
    case Some(Semantic) => "semantic"
  }

  /** The check's own id without the `<suite>.` it usually starts with. */
  function LocalPart(suite: string, localCheckId: string): string {
    if suite + "." <= localCheckId then localCheckId[|suite| + 1..] else localCheckId
  }

  function NonEmpty(segments: seq<string>): seq<string> {
    if segments == [] then []
    else (if segments[0] == "" then [] else [segments[0]]) + NonEmpty(segments[1..])
  }

  function ComputeId(phase: Option<Phase>, suite: string, localCheckId: string): string {
    var segment := PhaseSegment(phase);
    var local := LocalPart(suite, localCheckId);
    Join(NonEmpty(if segment == suite then [segment, local] else [segment, suite, local]), '.')
  }

  /** The id of a suite's summary: the namespace its rows live in. */
  function SummaryId(phase: Option<Phase>, suite: string): string {
    ComputeId(phase, suite, "")
  }

  /**
   A row's id is its suite's summary id, a dot, and a local part, whatever was
   stripped or collapsed on the way. With nothing left of the local part the two ids are the same.
   */
  lemma RowIdExtendsSummaryId(phase: Option<Phase>, suite: string, localCheckId: string)
    ensures ComputeId(phase, suite, localCheckId) ==
            if LocalPart(suite, localCheckId) == "" then SummaryId(phase, suite)
            else SummaryId(phase, suite) + "." + LocalPart(suite, localCheckId)
  {
    var segment, local := PhaseSegment(phase), LocalPart(suite, localCheckId);
    assert LocalPart(suite, "") == "";
    if segment == suite {
      Pair(segment, local);
      Pair(segment, "");
    } else {
      Triple(segment, suite, local);
      Triple(segment, suite, "");
    }
  }

  /** The phase's name, or the one for a suite without a phase. */
  ghost predicate NamesPhase(name: string, phase: Option<Phase>) {
    match phase
    case Some(Cryptographic) => name == "cryptographic"
    case Some(Trust) => name == "trust"
    case Some(Recognition) => name == "recognition"
    case Some(Semantic) => name == "semantic"
    case None => name == "unknown"
  }

  /** What is left of a check's id without its suite's id and a dot, if it begins with them. */
  ghost predicate IsLocalPart(local: string, suite: string, id: string) {
    id == suite + "." + local || (local == id && !(suite + "." <= id))
  }

  lemma SegmentIs(name: string, phase: Option<Phase>)
    requires NamesPhase(name, phase)
    ensures PhaseSegment(phase) == name && name != ""
  {
  }

  lemma LocalPartIs(local: string, suite: string, id: string)
    requires IsLocalPart(local, suite, id)
    ensures LocalPart(suite, id) == local
  {
  }

  /** An id is the phase's name, then the suite unless it is called like the phase, then the local part, with dots between. */
  lemma IdExactly(phase: Option<Phase>, suite: string, id: string, name: string, local: string)
    requires NamesPhase(name, phase) && IsLocalPart(local, suite, id)
    ensures ComputeId(phase, suite, id) ==
            name + (if suite == name || suite == "" then "" else "." + suite) + (if local == "" then "" else "." + local)
  {
    LocalPartIs(local, suite, id);
    SegmentIs(name, phase);
    hide NonEmpty, Join, LocalPart, PhaseSegment, NamesPhase, IsLocalPart;
    if suite == name {
      Pair(name, local);
    } else {
      Triple(name, suite, local);
    }
  }

  lemma Pair(a: string, b: string)
    requires a != ""
    ensures Join(NonEmpty([a, b]), '.') == if b == "" then a else a + "." + b
  {
    assert NonEmpty([b]) == if b == "" then [] else [b];
    assert [a, b][1..] == [b];
    if b != "" { assert [a] + [b] == [a, b]; }
  }

  lemma Triple(a: string, b: string, c: string)
    requires a != ""
    ensures Join(NonEmpty([a, b, c]), '.') ==
            a + (if b == "" then "" else "." + b) + (if c == "" then "" else "." + c)
  {
    assert [a, b, c][1..] == [b, c];
    if b == "" {
      assert [b, c][1..] == [c];
      assert NonEmpty([a, b, c]) == NonEmpty([a, c]) by { assert [a, c][1..] == [c]; }
      Pair(a, c);
    } else {
      Pair(b, c);
      assert Join(NonEmpty([a, b, c]), '.') == a + "." + Join(NonEmpty([b, c]), '.');
    }
  }
}
