/**
 The proof suite's first two checks: the signature, and the warning about proofs
 that could not be checked. They share one dispatch per run through a memo.
 */
module ProofSuite {
  import opened Options
  import opened Strings
  import opened JsonValues
  import opened CryptoDispatch
  import R = Results

  /** A verifier's context; two contexts are the same only if they are the same object. */
  class Context {
    const services: seq<Service>
    const unsignedPresentation: bool

    constructor (services: seq<Service>, unsignedPresentation: bool)
      ensures this.services == services && this.unsignedPresentation == unsignedPresentation
    {
      this.services := services;
      this.unsignedPresentation := unsignedPresentation;
    }
  }

  /** A document as the caller passed it; two documents are the same only if they are the same object. */
  class Document {
    const value: Value

    constructor (value: Value)
      ensures this.value == value
    {
      this.value := value;
    }
  }

  datatype Input = Input(presentation: Option<Document>, credential: Option<Document>)

  function ValueOf(d: Option<Document>): Option<Value> {
    if d.Some? then Some(d.value.value) else None
  }

  function View(input: Input): Subject { Subject(ValueOf(input.presentation), ValueOf(input.credential)) }

  /** The document whose proofs are verified. */
  function DocumentOf(input: Input): Option<Document> {
    if Truthy(ValueOf(input.presentation)) then input.presentation else input.credential
  }

  // ----- whether there is anything to verify -----

  /** A document has a proof when its `proof` is an object, or an array with an object in it. */
  predicate HasProof(document: Option<Value>) {
    && document.Some?
    && match Member(document.value, "proof")
       case Some(VArray(items)) => exists i :: 0 <= i < |items| && IsObject(items[i])
       case Some(VObject(_)) => true
       case _ => false
  }

  const NO_CONTENT := R.Problem(R.ProofVerificationError, "No verifiable credential or presentation found in subject.", None)
  const NO_PROOF := R.Problem(R.ProofVerificationError, "Subject has no proof to verify.", None)
  const NOT_SIGNED := R.Problem(R.ProofVerificationError,
    "The presentation has no proof. Pass unsignedPresentation: true to accept an unsigned presentation.", None)
  const NO_APPLICABLE_SERVICE := R.Problem(R.ProofVerificationError,
    "No registered crypto service can verify this subject (check canVerify / cryptoServices).", None)

  /** What the signature check concludes without consulting any service, if it can. */
  function WithoutDispatch(subject: Subject, unsignedPresentation: bool): Option<R.Outcome> {
    if !Truthy(subject.presentation) && !Truthy(subject.credential) then Some(R.Failure([NO_CONTENT]))
    else if HasProof(ProofDocument(subject)) then None
    else if !Truthy(subject.presentation) then Some(R.Failure([NO_PROOF]))
    else if unsignedPresentation then
      Some(R.Skipped("Presentation is unsigned; accepted because unsignedPresentation is set.", Some("unsigned-presentation"), None))
    else Some(R.Failure([NOT_SIGNED]))
  }

  const SIGNATURE_VERIFIED := "Signature verified successfully."

  function SignatureVerdict(combined: DispatchResult): R.Outcome {
    match combined
    case Verified(text) => R.Success(if text.Some? then text.value else SIGNATURE_VERIFIED)
    case Rejected(problems, proofVerified) => if proofVerified then R.Success(SIGNATURE_VERIFIED) else R.Failure(problems)
    case NoService => R.Failure([NO_APPLICABLE_SERVICE])
    case Threw(message) => R.Failure([R.Problem(R.ProofVerificationError, message, None)])
  }

  function UnsupportedVerdict(proofs: seq<ProofOutcome>): R.Outcome {
    var problems := AllProblems(Of(proofs, Unchecked));
    if problems != [] then R.Failure(problems) else R.Success("Every proof was checked.")
  }

  // ----- the memo -----

  /** A verdict already made for this document in the current run of this context. */
  function Remembered(verified: map<Context, map<Document, SetDispatch>>, context: Context, input: Input): Option<SetDispatch> {
    var document := DocumentOf(input);
    if context in verified && document.Some? && IsObject(document.value.value) && document.value in verified[context]
    then Some(verified[context][document.value])
    else None
  }

  class ProofVerifications {
    /** Verdicts of the current run, by context and then by document. */
    var verified: map<Context, map<Document, SetDispatch>>
    /** How many dispatches have been made so far. */
    var calls: nat

    constructor ()
      ensures verified == map[] && calls == 0
    {
      verified, calls := map[], 0;
    }

    /** Start a fresh run: whatever an earlier run on this context left is dropped. */
    method BeginProofRun(context: Context)
      modifies `verified
      ensures verified == old(verified)[context := map[]]
    {
      verified := verified[context := map[]];
    }

    method Dispatch(input: Input, context: Context) returns (r: SetDispatch)
      modifies `calls
      ensures r == DispatchSet(context.services, old(calls), View(input))
      ensures calls == old(calls) + Calls(View(input))
    {
      var subject := View(input);
      if IsProofSet(subject) {
        var proofs := Outcomes(context.services, calls, subject, |ProofArray(subject)|);
        var combined := CombineProofOutcomes(proofs);
        r := SetDispatch(combined, proofs);
      } else {
        r := SetDispatch(CryptoDispatch.Dispatch(context.services, calls, subject), []);
      }
      calls := calls + Calls(subject);
    }

    /** Within a run a document is verified once; outside a run every call verifies. */
    method VerifyProofSet(input: Input, context: Context) returns (r: SetDispatch)
      modifies this
      ensures var seen := Remembered(old(verified), context, input);
              if seen.Some? then r == seen.value && calls == old(calls) && verified == old(verified)
              else
                && r == DispatchSet(context.services, old(calls), View(input))
                && calls == old(calls) + Calls(View(input))
                && verified ==
                   if context in old(verified) && DocumentOf(input).Some? && IsObject(DocumentOf(input).value.value)
                   then old(verified)[context := old(verified)[context][DocumentOf(input).value := r]]
                   else old(verified)
    {
      hide DispatchSet, Calls;
      var document := DocumentOf(input);
      if context !in verified || document.None? || !IsObject(document.value.value) {
        r := Dispatch(input, context);
        return;
      }
      if document.value in verified[context] {
        return verified[context][document.value];
      }
      r := Dispatch(input, context);
      verified := verified[context := verified[context][document.value := r]];
    }

    /**
     `proof.signature`. When it consults the services it starts a run of its own, so its
     verdict never rests on what an earlier run left behind.
     */
    method SignatureCheck(input: Input, context: Context) returns (o: R.Outcome)
      modifies this
      ensures var early := WithoutDispatch(View(input), context.unsignedPresentation);
              if early.Some? then o == early.value && calls == old(calls) && verified == old(verified)
              else
                var d := DispatchSet(context.services, old(calls), View(input));
                && o == SignatureVerdict(d.combined)
                && calls == old(calls) + Calls(View(input))
                && Remembered(verified, context, input) == Some(d)
    {
      hide DispatchSet, Calls;
      var subject := View(input);
      if !Truthy(subject.presentation) && !Truthy(subject.credential) {
        return R.Failure([NO_CONTENT]);
      }
      if Truthy(subject.presentation) {
        if !HasProof(subject.presentation) {
          return if context.unsignedPresentation
            then R.Skipped("Presentation is unsigned; accepted because unsignedPresentation is set.", Some("unsigned-presentation"), None)
            else R.Failure([NOT_SIGNED]);
        }
      } else if !HasProof(subject.credential) {
        return R.Failure([NO_PROOF]);
      }
      BeginProofRun(context);
      var dispatched := VerifyProofSet(input, context);
      o := SignatureVerdict(dispatched.combined);
    }

    /** `proof.unsupported-proofs`: reads the verdict the signature check left, or makes its own. */
    method UnsupportedProofsCheck(input: Input, context: Context) returns (o: R.Outcome)
      modifies this
      ensures if !HasProof(ProofDocument(View(input))) then o.Skipped? && calls == old(calls) && verified == old(verified)
              else
                var seen := Remembered(old(verified), context, input);
                && o == UnsupportedVerdict(
                          if seen.Some? then seen.value.proofs
                          else DispatchSet(context.services, old(calls), View(input)).proofs)
                && calls == old(calls) + if seen.Some? then 0 else Calls(View(input))
    {
      hide DispatchSet, Calls;
      if !HasProof(ProofDocument(View(input))) {
        return R.Skipped("The document has no proof.", None, None);
      }
      var dispatched := VerifyProofSet(input, context);
      var problems := AllProblems(Of(dispatched.proofs, Unchecked));
      o := if problems != [] then R.Failure(problems) else R.Success("Every proof was checked.");
    }

    /**
     The two checks as the suite runs them: a failed signature halts. Whatever is in the
     memo beforehand, the document's proofs are dispatched at most once for both, and both judge that
     one dispatch.
     */
    method RunProofChecks(input: Input, context: Context) returns (signature: R.Outcome, unsupported: Option<R.Outcome>)
      modifies this
      ensures var early := WithoutDispatch(View(input), context.unsignedPresentation);
              var d := DispatchSet(context.services, old(calls), View(input));
              && signature == (if early.Some? then early.value else SignatureVerdict(d.combined))
              && calls == old(calls) + (if early.Some? then 0 else Calls(View(input)))
              && (unsupported.Some? <==> !signature.Failure?)
              && (unsupported.Some? ==>
                    if early.Some? then unsupported.value.Skipped? else unsupported.value == UnsupportedVerdict(d.proofs))
    {
      hide DispatchSet, Calls, HasProof, UnsupportedVerdict;
      signature := SignatureCheck(input, context);
      if signature.Failure? {
        return signature, None;
      }
      var warning := UnsupportedProofsCheck(input, context);
      unsupported := Some(warning);
    }
  }

  // ----- what the verdicts mean for a proof set -----

  /** A proof set is never turned away unseen. */
  lemma {:induction false} ProofSetHasProof(subject: Subject, k: nat)
    requires k <= |ProofArray(subject)| && Objects(ProofArray(subject), k) > 0
    ensures HasProof(ProofDocument(subject))
  {
    if !IsObject(ProofArray(subject)[k - 1]) {
      ProofSetHasProof(subject, k - 1);
    }
  }

  /**
   `proof.signature` succeeds on a proof set iff at least one proof was checked and
   every checked proof verified, or was rejected for something other than the proof.
   */
  lemma SignatureSucceedsIff(services: seq<Service>, n: nat, subject: Subject, unsignedPresentation: bool)
    requires IsProofSet(subject)
    ensures WithoutDispatch(subject, unsignedPresentation).None?
    ensures SignatureVerdict(DispatchSet(services, n, subject).combined).Success? <==>
            && (exists i: nat :: CheckedAt(services, n, subject, i))
            && (forall i: nat :: CheckedAt(services, n, subject, i) ==> Good(ResultAt(services, n, subject, i)))
  {
    ProofSetHasProof(subject, |ProofArray(subject)|);
    SetIsGoodIff(services, n, subject);
    hide DispatchSet, CheckedAt, ResultAt;
  }

  // ----- warnings name the right proof -----

  lemma WordBeforeSpace(a: string, b: string, x: string, y: string)
    requires ' ' !in a && ' ' !in b && a + [' '] + x == b + [' '] + y
    ensures a == b
  {
    var s, t := a + [' '] + x, b + [' '] + y;
    assert s[|a|] == ' ' && t[|b|] == ' ';
    assert forall k :: 0 <= k < |a| ==> s[k] == a[k];
    assert forall k :: 0 <= k < |b| ==> t[k] == b[k];
    assert s[..|a|] == a && t[..|b|] == b;
  }

  lemma DetailShape(position: nat, rest: string)
    ensures PositionPrefix(position) + rest == "Proof " + (Numeral(position) + [' '] + ("of " + rest))
  {
    assert " of " == [' '] + "of ";
  }

  lemma OnePosition(i: nat, j: nat, x: string, y: string)
    requires PositionPrefix(i) + x == PositionPrefix(j) + y
    ensures i == j
  {
    DetailShape(i, x);
    DetailShape(j, y);
    hide PositionPrefix;
    var a, b := Numeral(i), Numeral(j);
    assert forall c :: c in a || c in b ==> IsDigit(c);
    var s := a + [' '] + ("of " + x);
    var t := b + [' '] + ("of " + y);
    assert ("Proof " + s)[6..] == s && ("Proof " + t)[6..] == t;
    WordBeforeSpace(a, b, "of " + x, "of " + y);
    assert NumeralValue(a) == NumeralValue(b);
  }

  predicate Mentions(p: R.Problem, position: nat) { PositionPrefix(position) <= p.detail }

  lemma SplitDetail(o: ProofOutcome, p: R.Problem) returns (tail: string)
    requires p in ProblemsOf(o)
    ensures p.detail == PositionPrefix(o.position) + tail
  {
    hide PositionPrefix, TotalAndLabel;
    var own := if o.result.Rejected? then o.result.problems else [NO_SERVICE_FOR_PROOF];
    var k :| 0 <= k < |own| && p == Prefixed(Prefix(o), own)[k];
    tail := TotalAndLabel(o) + own[k].detail;
  }

  /** A problem of an outcome mentions that outcome's position and no other. */
  lemma MentionsItsPosition(o: ProofOutcome, p: R.Problem, position: nat)
    requires p in ProblemsOf(o)
    ensures Mentions(p, position) <==> position == o.position
  {
    var tail := SplitDetail(o, p);
    hide ProblemsOf, PositionPrefix;
    if Mentions(p, position) {
      var rest := p.detail[|PositionPrefix(position)|..];
      assert p.detail == PositionPrefix(position) + rest;
      OnePosition(position, o.position, rest, tail);
    }
  }

  lemma UnsupportedHasProblem(o: ProofOutcome)
    requires IsUnsupported(o.result)
    ensures ProblemsOf(o) != []
  {
  }

  /** The warning is silent iff every proof of the set was checked. */
  lemma SilentIffEveryProofChecked(os: seq<ProofOutcome>)
    ensures UnsupportedVerdict(os).Success? <==> forall o :: o in os ==> Checked(o)
  {
    OfMembers(os, Unchecked);
    var problems := AllProblems(Of(os, Unchecked));
    forall o | o in os && !Checked(o) ensures problems != [] {
      UnsupportedHasProblem(o);
      AllProblemsMembers(Of(os, Unchecked), ProblemsOf(o)[0]);
    }
    if problems != [] {
      AllProblemsMembers(Of(os, Unchecked), problems[0]);
    }
  }

  /** The position of an unsupported proof among these outcomes. */
  predicate UnsupportedPosition(os: seq<ProofOutcome>, position: nat) {
    exists o :: o in os && IsUnsupported(o.result) && o.position == position
  }

  predicate Mentioned(problems: seq<R.Problem>, position: nat) {
    exists p :: p in problems && Mentions(p, position)
  }

  lemma MentionsUnsupported(os: seq<ProofOutcome>, position: nat)
    ensures Mentioned(AllProblems(Of(os, Unchecked)), position) <==> UnsupportedPosition(os, position)
  {
    OfMembers(os, Unchecked);
    assert forall r :: IsUnsupported(r) <==> KindOf(r) == Unchecked;
    hide IsUnsupported, KindOf, Of, AllProblems, ProblemsOf, Mentions;
    if UnsupportedPosition(os, position) {
      var o :| o in os && IsUnsupported(o.result) && o.position == position;
      UnsupportedHasProblem(o);
      var p := ProblemsOf(o)[0];
      MentionsItsPosition(o, p, position);
      AllProblemsMembers(Of(os, Unchecked), p);
    }
    if Mentioned(AllProblems(Of(os, Unchecked)), position) {
      var p :| p in AllProblems(Of(os, Unchecked)) && Mentions(p, position);
      AllProblemsMembers(Of(os, Unchecked), p);
      var o :| o in Of(os, Unchecked) && p in ProblemsOf(o);
      MentionsItsPosition(o, p, position);
    }
  }

  lemma UnsupportedPositions(services: seq<Service>, n: nat, subject: Subject, i: nat)
    requires HasDocument(subject) && i < |ProofArray(subject)|
    ensures UnsupportedPosition(Outcomes(services, n, subject, |ProofArray(subject)|), i + 1) <==>
            IsObject(ProofArray(subject)[i]) && IsUnsupported(ResultAt(services, n, subject, i))
  {
    var os := Outcomes(services, n, subject, |ProofArray(subject)|);
    var here := OutcomeAt(services, n, subject, i);
    OutcomesMembers(services, n, subject, |ProofArray(subject)|, here);
    assert forall j: nat :: j < |ProofArray(subject)| ==> OutcomeAt(services, n, subject, j).position == j + 1;
    hide IsUnsupported, Outcomes, OutcomeAt, ProofArray, HasDocument;
    if UnsupportedPosition(os, i + 1) {
      var o :| o in os && IsUnsupported(o.result) && o.position == i + 1;
      OutcomesMembers(services, n, subject, |ProofArray(subject)|, o);
    }
  }

  /**
   The warning mentions a position of the document's proof array iff there is a proof
   there and it could not be checked.
   */
  lemma WarnsAtItsOwnPosition(services: seq<Service>, n: nat, subject: Subject, i: nat)
    requires IsProofSet(subject) && i < |ProofArray(subject)|
    ensures var o := UnsupportedVerdict(DispatchSet(services, n, subject).proofs);
            o.Failure? && Mentioned(o.problems, i + 1) <==>
            IsObject(ProofArray(subject)[i]) && IsUnsupported(ResultAt(services, n, subject, i))
  {
    var k := |ProofArray(subject)|;
    assert DispatchSet(services, n, subject).proofs == Outcomes(services, n, subject, k);
    MentionsUnsupported(Outcomes(services, n, subject, k), i + 1);
    UnsupportedPositions(services, n, subject, i);
    hide DispatchSet, ProofArray, IsUnsupported, Outcomes, AllProblems, Of, UnsupportedPosition, Mentions, OutcomeAt, Objects;
  }

  // ----- how many warnings -----

  /** How many of the problems mention a position. */
  function Mentioning(problems: seq<R.Problem>, position: nat): nat {
    if problems == [] then 0
    else Mentioning(problems[..|problems| - 1], position) + if Mentions(problems[|problems| - 1], position) then 1 else 0
  }

  lemma {:induction false} MentioningConcat(a: seq<R.Problem>, b: seq<R.Problem>, position: nat)
    ensures Mentioning(a + b, position) == Mentioning(a, position) + Mentioning(b, position)
    decreases |b|
  {
    if b == [] {
      assert a + b == a;
    } else {
      assert (a + b)[..|a + b| - 1] == a + b[..|b| - 1];
      MentioningConcat(a, b[..|b| - 1], position);
    }
  }

  lemma {:induction false} AllMention(problems: seq<R.Problem>, position: nat, all: bool)
    requires forall p :: p in problems ==> Mentions(p, position) == all
    ensures Mentioning(problems, position) == if all then |problems| else 0
  {
    if problems != [] {
      AllMention(problems[..|problems| - 1], position, all);
    }
  }

  /** The problems of an outcome all mention its own position, and none mentions another. */
  lemma OwnMentions(o: ProofOutcome, position: nat)
    ensures Mentioning(ProblemsOf(o), position) == if position == o.position then |ProblemsOf(o)| else 0
  {
    forall p | p in ProblemsOf(o) ensures Mentions(p, position) == (position == o.position) {
      MentionsItsPosition(o, p, position);
    }
    AllMention(ProblemsOf(o), position, position == o.position);
  }

  /** How many problems a result is reported with: one for want of a service, else as many as the service gave. */
  function Reported(r: DispatchResult): nat {
    match r
    case NoService => 1
    case Rejected(problems, _) => |problems|
    case _ => 0
  }

  /** The number of warnings about the proof at index `i`, once the first `k` entries have been looked at. */
  lemma {:induction false} WarningsUpTo(services: seq<Service>, n: nat, subject: Subject, k: nat, i: nat)
    requires HasDocument(subject) && k <= |ProofArray(subject)| && i < |ProofArray(subject)|
    ensures Mentioning(AllProblems(Of(Outcomes(services, n, subject, k), Unchecked)), i + 1) ==
            if i < k && IsObject(ProofArray(subject)[i]) && IsUnsupported(ResultAt(services, n, subject, i))
            then Reported(ResultAt(services, n, subject, i)) else 0
  {
    hide ProofArray, HasDocument, IsUnsupported, OutcomeAt, AllProblems, Of, Mentioning, Reported;
    if k > 0 {
      WarningsUpTo(services, n, subject, k - 1, i);
      if IsObject(ProofArray(subject)[k - 1]) {
        WarningsAppend(Outcomes(services, n, subject, k - 1), OutcomeAt(services, n, subject, k - 1), i + 1);
        OutcomeIs(services, n, subject, k - 1);
      } else {
        assert Outcomes(services, n, subject, k) == Outcomes(services, n, subject, k - 1);
      }
    } else {
      NoWarnings(i + 1);
    }
  }

  lemma NoWarnings(position: nat)
    ensures Mentioning(AllProblems(Of([], Unchecked)), position) == 0
  {
  }

  lemma OutcomeIs(services: seq<Service>, n: nat, subject: Subject, i: nat)
    requires HasDocument(subject) && i < |ProofArray(subject)|
    ensures var o := OutcomeAt(services, n, subject, i);
            o.position == i + 1 && o.result == ResultAt(services, n, subject, i) && |ProblemsOf(o)| == Reported(o.result)
  {
    hide Prefix, ProofArray, HasDocument, Dispatch, Alone, Label;
  }

  lemma WarningsAppend(os: seq<ProofOutcome>, o: ProofOutcome, position: nat)
    ensures Mentioning(AllProblems(Of(os + [o], Unchecked)), position) ==
            Mentioning(AllProblems(Of(os, Unchecked)), position) +
            if IsUnsupported(o.result) && position == o.position then |ProblemsOf(o)| else 0
  {
    assert IsUnsupported(o.result) <==> KindOf(o.result) == Unchecked;
    OwnMentions(o, position);
    hide Mentions, ProblemsOf, IsUnsupported, KindOf;
    assert (os + [o])[..|os|] == os;
    var rest := Of(os, Unchecked);
    assert (rest + [o])[..|rest|] == rest;
    MentioningConcat(AllProblems(rest), ProblemsOf(o), position);
  }

  /**
   A proof that could not be checked is reported with as many problems as the service that took it gave, and
   with one when no service took it; any other proof with none. So each such proof gets the one problem that is
   documented iff no service gives several.
   */
  lemma WarningsPerProof(services: seq<Service>, n: nat, subject: Subject, i: nat)
    requires IsProofSet(subject) && i < |ProofArray(subject)|
    ensures var o := UnsupportedVerdict(DispatchSet(services, n, subject).proofs);
            (if o.Failure? then Mentioning(o.problems, i + 1) else 0) ==
            if IsObject(ProofArray(subject)[i]) && IsUnsupported(ResultAt(services, n, subject, i))
            then Reported(ResultAt(services, n, subject, i)) else 0
  {
    var k := |ProofArray(subject)|;
    assert DispatchSet(services, n, subject).proofs == Outcomes(services, n, subject, k);
    WarningsUpTo(services, n, subject, k, i);
    hide DispatchSet, ProofArray, IsUnsupported, Outcomes, AllProblems, Of, OutcomeAt, Objects;
  }

  const UNSUPPORTED_TWICE := [R.Problem(R.ProofUnsupported, "suite", None), R.Problem(R.ProofUnsupported, "purpose", None)]

  /** A service that gives two reasons for not checking any proof. */
  const TWO_REASONS := Service((n: nat, subject: Subject) => Can(true),
                               (n: nat, subject: Subject) => Reject(UNSUPPORTED_TWICE, false))

  const TWO_PROOFS := Subject(None, Some(VObject(map["proof" := VArray([VObject(map[]), VObject(map[])])])))

  /** A proof that is reported with two problems. */
  lemma TwoWarningsForOneProof()
    ensures IsProofSet(TWO_PROOFS)
    ensures var o := UnsupportedVerdict(DispatchSet([TWO_REASONS], 0, TWO_PROOFS).proofs);
            o.Failure? && Mentioning(o.problems, 1) == 2
  {
    TwoProofs();
    TwoReasons();
    ReportedSeveralTimes([TWO_REASONS], TWO_PROOFS, 2);
    hide *;
  }

  lemma ReportedSeveralTimes(services: seq<Service>, subject: Subject, times: nat)
    requires IsProofSet(subject) && HasDocument(subject) && |ProofArray(subject)| > 0 && IsObject(ProofArray(subject)[0])
    requires IsUnsupported(ResultAt(services, 0, subject, 0)) && Reported(ResultAt(services, 0, subject, 0)) == times > 0
    ensures var o := UnsupportedVerdict(DispatchSet(services, 0, subject).proofs);
            o.Failure? && Mentioning(o.problems, 1) == times
  {
    hide *;
    WarningsPerProof(services, 0, subject, 0);
  }

  lemma TwoProofs()
    ensures IsProofSet(TWO_PROOFS) && HasDocument(TWO_PROOFS)
    ensures |ProofArray(TWO_PROOFS)| == 2 && IsObject(ProofArray(TWO_PROOFS)[0])
  {
    var proofs := [VObject(map[]), VObject(map[])];
    assert Member(TWO_PROOFS.credential.value, "proof") == Some(VArray(proofs));
    assert ProofArray(TWO_PROOFS) == proofs;
    assert Objects(proofs, 1) == 1;
    assert Objects(proofs, 2) == 2;
  }

  lemma TwoReasons()
    requires HasDocument(TWO_PROOFS) && 0 < |ProofArray(TWO_PROOFS)|
    ensures var r := ResultAt([TWO_REASONS], 0, TWO_PROOFS, 0);
            IsUnsupported(r) && Reported(r) == 2
  {
    hide ProofArray, HasDocument, Label;
    var subject := Alone(TWO_PROOFS, ProofArray(TWO_PROOFS)[0]);
    assert Truthy(subject.credential);
    assert Consult([TWO_REASONS], 0, subject) == Rejected(UNSUPPORTED_TWICE, false);
  }
}
