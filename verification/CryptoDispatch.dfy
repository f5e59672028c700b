/**
 Dispatching a document's proofs to the crypto services, one proof at a time, and
 combining the verdicts into one for the document.
 */
module CryptoDispatch {
  import opened Options
  import opened Results
  import opened JsonValues
  import opened Strings

  // ----- services -----

  /** What a service is shown: the presentation and the credential, as far as there are any. */
  datatype Subject = Subject(presentation: Option<Value>, credential: Option<Value>)

  /** Whether a service can verify a subject; asking may throw, with or without a message. */
  datatype Answer = Can(yes: bool) | CanThrew(message: Option<string>)

  datatype Reply =
    | Accept(text: Option<string>)
    | Reject(problems: seq<Problem>, proofVerified: bool)
    | VerifyThrew(message: Option<string>)

  /** A service may answer each call as it likes: the number tells the calls of a process apart. */
  datatype Service = Service(canVerify: (nat, Subject) -> Answer, verify: (nat, Subject) -> Reply)

  datatype DispatchResult =
    | Verified(text: Option<string>)
    | Rejected(problems: seq<Problem>, proofVerified: bool)
    | NoService
    | Threw(message: string)

  const UNEXPECTED := "An unexpected error occurred during signature verification."

  function MessageOf(thrown: Option<string>): string {
    if thrown.Some? then thrown.value else UNEXPECTED
  }

  predicate Truthy(v: Option<Value>) {
    match v
    case None => false
    case Some(VNull) => false
    case Some(VBool(b)) => b
    case Some(VNumber(n)) => n != 0.0
    case Some(VString(s)) => s != ""
    case _ => true
  }

  /** The first service that takes the subject decides; asking stops there, or at the first service that throws. */
  function Consult(services: seq<Service>, n: nat, subject: Subject): DispatchResult {
    if services == [] then NoService
    else
      match services[0].canVerify(n, subject)
      case CanThrew(message) => Threw(MessageOf(message))
      case Can(false) => Consult(services[1..], n, subject)
      case Can(true) =>
        match services[0].verify(n, subject)
        case Accept(text) => Verified(text)
        case Reject(problems, proofVerified) => Rejected(problems, proofVerified)
        case VerifyThrew(message) => Threw(MessageOf(message))
  }

  /** One dispatch: the `n`-th of the process. */
  function Dispatch(services: seq<Service>, n: nat, subject: Subject): DispatchResult {
    if Truthy(subject.presentation) || Truthy(subject.credential) then Consult(services, n, subject) else NoService
  }

  /** What a JavaScript condition takes for false, among JSON values. */
  lemma FalsyExactly(v: Option<Value>)
    ensures !Truthy(v) <==> v in [None, Some(VNull), Some(VBool(false)), Some(VNumber(0.0)), Some(VString(""))]
  {
  }

  /** The reply of a service that takes the subject, as the result of the dispatch. */
  ghost predicate IsReplyOf(r: DispatchResult, reply: Reply) {
    match reply
    case Accept(text) => r.Verified? && r.text == text
    case Reject(problems, proofVerified) => r.Rejected? && r.problems == problems && (r.proofVerified <==> proofVerified)
    case VerifyThrew(message) => r.Threw? && IsMessageOf(r.message, message)
  }

  ghost predicate IsMessageOf(text: string, thrown: Option<string>) {
    text == match thrown case Some(message) => message case None => "An unexpected error occurred during signature verification."
  }

  ghost predicate AllDecline(services: seq<Service>, k: nat, n: nat, subject: Subject)
    requires k <= |services|
  {
    forall i :: 0 <= i < k ==> services[i].canVerify(n, subject) == Can(false)
  }

  /** Service `k` is the first that does not decline. */
  ghost predicate FirstAsked(services: seq<Service>, k: int, n: nat, subject: Subject) {
    0 <= k < |services| && AllDecline(services, k, n, subject) && services[k].canVerify(n, subject) != Can(false)
  }

  /** `r` is what service `k` makes of the subject: its reply as it stands, or its throw. */
  ghost predicate Decides(services: seq<Service>, k: int, n: nat, subject: Subject, r: DispatchResult)
    requires 0 <= k < |services|
  {
    match services[k].canVerify(n, subject)
    case Can(_) => IsReplyOf(r, services[k].verify(n, subject))
    case CanThrew(message) => r.Threw? && IsMessageOf(r.message, message)
  }

  /** Asking goes on past the first service iff it declines. */
  lemma PastTheFirst(services: seq<Service>, k: int, n: nat, subject: Subject)
    requires services != []
    ensures FirstAsked(services, k, n, subject) <==>
            if services[0].canVerify(n, subject) == Can(false) then FirstAsked(services[1..], k - 1, n, subject) else k == 0
    ensures AllDecline(services, |services|, n, subject) <==>
            services[0].canVerify(n, subject) == Can(false) && AllDecline(services[1..], |services| - 1, n, subject)
  {
    var rest := services[1..];
    assert forall i :: 0 <= i < |rest| ==> services[i + 1] == rest[i];
    assert forall i :: 0 < i < |services| ==> services[i] == rest[i - 1];
  }

  lemma {:induction false} ConsultExactly(services: seq<Service>, n: nat, subject: Subject)
    ensures Consult(services, n, subject).NoService? <==> AllDecline(services, |services|, n, subject)
    ensures forall k :: FirstAsked(services, k, n, subject) ==> Decides(services, k, n, subject, Consult(services, n, subject))
  {
    if services != [] {
      PastTheFirst(services, 0, n, subject);
      forall k | FirstAsked(services, k, n, subject) ensures Decides(services, k, n, subject, Consult(services, n, subject)) {
        PastTheFirst(services, k, n, subject);
        if services[0].canVerify(n, subject) == Can(false) {
          ConsultExactly(services[1..], n, subject);
          hide IsReplyOf, IsMessageOf;
          assert Decides(services[1..], k - 1, n, subject, Consult(services[1..], n, subject));
        }
      }
      if services[0].canVerify(n, subject) == Can(false) {
        ConsultExactly(services[1..], n, subject);
      }
    }
  }

  /**
   The first service that does not decline decides: its reply is the result as it stands, and if
   its question or its verification throws, so does the dispatch. Without a document, or when every
   service declines, there is no service.
   */
  lemma FirstServiceDecides(services: seq<Service>, n: nat, subject: Subject)
    ensures Dispatch(services, n, subject).NoService? <==>
            (!Truthy(subject.presentation) && !Truthy(subject.credential)) || AllDecline(services, |services|, n, subject)
    ensures Truthy(subject.presentation) || Truthy(subject.credential) ==>
              forall k :: FirstAsked(services, k, n, subject) ==> Decides(services, k, n, subject, Dispatch(services, n, subject))
  {
    ConsultExactly(services, n, subject);
    hide Consult, Decides, FirstAsked;
  }

  // ----- one proof's outcome -----

  datatype ProofOutcome = ProofOutcome(position: nat, total: nat, name: string, result: DispatchResult)

  predicate IsUnsupported(r: DispatchResult) {
    || r.NoService?
    || (r.Rejected? && r.problems != [] && forall p :: p in r.problems ==> p.kind == ProofUnsupported)
  }

  /** The proof was good: it verified, or was rejected for something other than the proof. */
  predicate Good(r: DispatchResult) {
    r.Verified? || (r.Rejected? && r.proofVerified)
  }

  predicate Checked(o: ProofOutcome) { !IsUnsupported(o.result) }

  const NO_SERVICE_FOR_PROOF :=
    Problem(ProofUnsupported, "No registered crypto service can verify this proof.", None)

  function PositionPrefix(position: nat): string { "Proof " + Numeral(position) + " of " }

  function TotalAndLabel(o: ProofOutcome): string { Numeral(o.total) + " (" + o.name + "): " }

  /** "Proof 2 of 2 (DataIntegrityProof, eddsa-rdfc-2022): " */
  function Prefix(o: ProofOutcome): string { PositionPrefix(o.position) + TotalAndLabel(o) }

  function Prefixed(prefix: string, problems: seq<Problem>): (r: seq<Problem>)
    ensures |r| == |problems|
    ensures forall k :: 0 <= k < |r| ==> r[k] == problems[k].(detail := prefix + problems[k].detail)
  {
    seq(|problems|, k requires 0 <= k < |problems| => problems[k].(detail := prefix + problems[k].detail))
  }

  function ProblemsOf(o: ProofOutcome): seq<Problem> {
    match o.result
    case Rejected(problems, _) => Prefixed(Prefix(o), problems)
    case NoService => Prefixed(Prefix(o), [NO_SERVICE_FOR_PROOF])
    case _ => []
  }

  function AllProblems(os: seq<ProofOutcome>): seq<Problem> {
    if os == [] then [] else AllProblems(os[..|os| - 1]) + ProblemsOf(os[|os| - 1])
  }

  /** The problems of a list are exactly its outcomes' own. */
  lemma {:induction false} AllProblemsMembers(os: seq<ProofOutcome>, p: Problem)
    ensures p in AllProblems(os) <==> exists o :: o in os && p in ProblemsOf(o)
  {
    if os != [] {
      var init, last := os[..|os| - 1], os[|os| - 1];
      AllProblemsMembers(init, p);
      assert os == init + [last];
    }
  }

  // ----- combining -----

  datatype Kind = Unchecked | VerifiedButRejected | Failing | Broken | Clean

  /** How an outcome weighs in: an unsupported proof is set aside whatever else it says. */
  function KindOf(r: DispatchResult): Kind {
    if IsUnsupported(r) then Unchecked
    else
      match r
      case Rejected(_, proofVerified) => if proofVerified then VerifiedButRejected else Failing
      case Threw(_) => Broken
      case Verified(_) => Clean
  }

  function Of(os: seq<ProofOutcome>, kind: Kind): seq<ProofOutcome> {
    if os == [] then []
    else
      var rest := Of(os[..|os| - 1], kind);
      if KindOf(os[|os| - 1].result) == kind then rest + [os[|os| - 1]] else rest
  }

  lemma {:induction false} OfMembers(os: seq<ProofOutcome>, kind: Kind)
    ensures forall o :: o in Of(os, kind) <==> o in os && KindOf(o.result) == kind
    ensures Of(os, kind) == [] <==> forall o :: o in os ==> KindOf(o.result) != kind
  {
    if os != [] {
      OfMembers(os[..|os| - 1], kind);
      assert os == os[..|os| - 1] + [os[|os| - 1]];
    }
  }

  predicate AllNoService(os: seq<ProofOutcome>) { forall o :: o in os ==> o.result.NoService? }

  /** The verdict for the whole document, worst news first. */
  function Combine(os: seq<ProofOutcome>): DispatchResult {
    if Of(os, Failing) != [] then Rejected(AllProblems(Of(os, Failing)), false)
    else if Of(os, Broken) != [] then Of(os, Broken)[0].result
    else if Of(os, VerifiedButRejected) != [] then Of(os, VerifiedButRejected)[0].result
    else if Of(os, Clean) != [] then Of(os, Clean)[0].result
    else if AllNoService(Of(os, Unchecked)) then NoService
    else Rejected(AllProblems(Of(os, Unchecked)), false)
  }

  /** The first outcome of a kind, if there is one. */
  method First(os: seq<ProofOutcome>, kind: Kind) returns (r: Option<ProofOutcome>)
    ensures r == if Of(os, kind) == [] then None else Some(Of(os, kind)[0])
  {
    for i := 0 to |os|
      invariant Of(os[..i], kind) == []
    {
      assert os[..i + 1][..i] == os[..i];
      if KindOf(os[i].result) == kind {
        FirstOfPrefix(os, kind, i + 1);
        return Some(os[i]);
      }
    }
    assert os[..|os|] == os;
    return None;
  }

  lemma {:induction false} FirstOfPrefix(os: seq<ProofOutcome>, kind: Kind, i: nat)
    requires i <= |os| && Of(os[..i], kind) != []
    ensures Of(os, kind) != [] && Of(os, kind)[0] == Of(os[..i], kind)[0]
    decreases |os| - i
  {
    if i < |os| {
      assert os[..i + 1][..i] == os[..i];
      FirstOfPrefix(os, kind, i + 1);
    } else {
      assert os[..i] == os;
    }
  }

  method CombineProofOutcomes(os: seq<ProofOutcome>) returns (r: DispatchResult)
    ensures r == Combine(os)
  {
    hide KindOf, AllProblems;
    var unchecked, verifiedButRejected, failing := [], [], [];
    for i := 0 to |os|
      invariant unchecked == Of(os[..i], Unchecked)
      invariant verifiedButRejected == Of(os[..i], VerifiedButRejected)
      invariant failing == Of(os[..i], Failing)
    {
      assert os[..i + 1][..i] == os[..i];
      match KindOf(os[i].result) {
        case Unchecked => unchecked := unchecked + [os[i]];
        case VerifiedButRejected => verifiedButRejected := verifiedButRejected + [os[i]];
        case Failing => failing := failing + [os[i]];
        case _ =>
      }
    }
    assert os[..|os|] == os;
    if failing != [] {
      return Rejected(AllProblems(failing), false);
    }
    var threw := First(os, Broken);
    if threw.Some? {
      return threw.value.result;
    }
    if verifiedButRejected != [] {
      return verifiedButRejected[0].result;
    }
    var verified := First(os, Clean);
    if verified.Some? {
      return verified.value.result;
    }
    return if AllNoService(unchecked) then NoService else Rejected(AllProblems(unchecked), false);
  }

  /**
   The combined verdict is good iff at least one proof was checked and every checked
   proof was good.
   */
  lemma GoodIffEveryCheckedProofIs(os: seq<ProofOutcome>)
    ensures Good(Combine(os)) <==>
            && (exists o :: o in os && Checked(o))
            && (forall o :: o in os && Checked(o) ==> Good(o.result))
  {
    forall kind {
      OfMembers(os, kind);
    }
    hide AllProblems, Of, AllNoService;
    if Of(os, Failing) != [] {
      assert Of(os, Failing)[0] in os;
    } else if Of(os, Broken) != [] {
      assert Of(os, Broken)[0] in os;
    } else if Of(os, VerifiedButRejected) != [] {
      assert Of(os, VerifiedButRejected)[0] in os;
    } else if Of(os, Clean) != [] {
      assert Of(os, Clean)[0] in os;
    }
  }

  /** The checked outcomes, in order. */
  function CheckedOnly(os: seq<ProofOutcome>): seq<ProofOutcome> {
    if os == [] then []
    else
      var rest := CheckedOnly(os[..|os| - 1]);
      if Checked(os[|os| - 1]) then rest + [os[|os| - 1]] else rest
  }

  lemma {:induction false} OfCheckedOnly(os: seq<ProofOutcome>, kind: Kind)
    requires kind != Unchecked
    ensures Of(CheckedOnly(os), kind) == Of(os, kind)
  {
    if os != [] {
      var init, last := os[..|os| - 1], os[|os| - 1];
      OfCheckedOnly(init, kind);
      if Checked(last) {
        assert CheckedOnly(os)[..|CheckedOnly(os)| - 1] == CheckedOnly(init);
      }
      assert Checked(last) || KindOf(last.result) == Unchecked;
    }
  }

  lemma {:induction false} CheckedOnlyHasOne(os: seq<ProofOutcome>)
    ensures CheckedOnly(os) != [] <==>
            Of(os, Failing) != [] || Of(os, Broken) != [] || Of(os, VerifiedButRejected) != [] || Of(os, Clean) != []
  {
    if os != [] {
      CheckedOnlyHasOne(os[..|os| - 1]);
    }
  }

  /**
   Beside a checked proof, unsupported ones change nothing in the combined verdict:
   adding, moving or deleting any number of them leaves it the same, problems and all.
   */
  lemma UnsupportedProofsDoNotCount(os: seq<ProofOutcome>, others: seq<ProofOutcome>)
    requires CheckedOnly(os) == CheckedOnly(others) != []
    ensures Combine(os) == Combine(others)
  {
    CheckedOnlyHasOne(os);
    CheckedOnlyHasOne(others);
    forall kind | kind != Unchecked ensures Of(os, kind) == Of(others, kind) {
      OfCheckedOnly(os, kind);
      OfCheckedOnly(others, kind);
    }
  }

  /** A failing verdict for a set carries exactly the failing proofs' own problems, each under its proof's name. */
  lemma FailingProofsAreNamed(os: seq<ProofOutcome>, p: Problem)
    requires exists o :: o in os && KindOf(o.result) == Failing
    ensures Combine(os).Rejected? && !Combine(os).proofVerified
    ensures p in Combine(os).problems <==> exists o :: o in os && KindOf(o.result) == Failing && p in ProblemsOf(o)
  {
    OfMembers(os, Failing);
    AllProblemsMembers(Of(os, Failing), p);
  }

  /** The first outcome of a kind. */
  ghost predicate FirstAt(os: seq<ProofOutcome>, kind: Kind, k: int) {
    && 0 <= k < |os|
    && KindOf(os[k].result) == kind
    && forall j :: 0 <= j < k ==> KindOf(os[j].result) != kind
  }

  lemma {:induction false} OfStartsAt(os: seq<ProofOutcome>, kind: Kind) returns (k: int)
    requires Of(os, kind) != []
    ensures FirstAt(os, kind, k) && Of(os, kind)[0] == os[k]
  {
    hide KindOf;
    var init := os[..|os| - 1];
    if Of(init, kind) != [] {
      k := OfStartsAt(init, kind);
    } else {
      OfMembers(init, kind);
      k := |os| - 1;
      assert forall j :: 0 <= j < k ==> os[j] in init;
    }
  }

  /** Kinds from the worst news to none at all. */
  function Rank(kind: Kind): nat {
    match kind
    case Failing => 0
    case Broken => 1
    case VerifiedButRejected => 2
    case Clean => 3
    case Unchecked => 4
  }

  ghost predicate NothingWorse(os: seq<ProofOutcome>, kind: Kind) {
    forall o :: o in os ==> Rank(KindOf(o.result)) >= Rank(kind)
  }

  /** Short of a failing proof, the first outcome of the worst kind there is decides for the document, as it stands. */
  lemma WorstNewsDecides(os: seq<ProofOutcome>, kind: Kind, k: int)
    requires kind == Broken || kind == VerifiedButRejected || kind == Clean
    requires NothingWorse(os, kind) && FirstAt(os, kind, k)
    ensures Combine(os) == os[k].result
  {
    hide KindOf, Of, AllProblems, AllNoService;
    forall worse { OfMembers(os, worse); }
    assert os[k] in Of(os, kind);
    var first := OfStartsAt(os, kind);
  }

  /** When nothing was checked the document fails: for want of a service iff no service took any proof. */
  lemma NothingChecked(os: seq<ProofOutcome>, p: Problem)
    requires NothingWorse(os, Unchecked)
    ensures Combine(os).NoService? <==> AllNoService(os)
    ensures !AllNoService(os) ==>
              && Combine(os).Rejected? && !Combine(os).proofVerified
              && (p in Combine(os).problems <==> exists o :: o in os && p in ProblemsOf(o))
  {
    hide KindOf, Of, AllProblems, ProblemsOf;
    forall kind { OfMembers(os, kind); }
    AllProblemsMembers(Of(os, Unchecked), p);
  }

  // ----- a document's proof set -----

  /** A presentation's proofs are verified when there is a presentation, a credential's otherwise. */
  function ProofDocument(subject: Subject): Option<Value> {
    if Truthy(subject.presentation) then subject.presentation else subject.credential
  }

  function WithDocument(subject: Subject, document: Value): Subject {
    if Truthy(subject.presentation) then subject.(presentation := Some(document))
    else subject.(credential := Some(document))
  }

  /** An object in the sense of `typeof`: arrays are objects too, null is not. */
  predicate IsObject(v: Value) { v.VObject? || v.VArray? }

  /** The document's proofs when they come as an array. */
  function ProofArray(subject: Subject): seq<Value> {
    var document := ProofDocument(subject);
    if document.Some? && Truthy(document) && Member(document.value, "proof").Some? && Member(document.value, "proof").value.VArray?
    then Member(document.value, "proof").value.items
    else []
  }

  function Objects(proofs: seq<Value>, k: nat): nat
    requires k <= |proofs|
  {
    if k == 0 then 0 else Objects(proofs, k - 1) + if IsObject(proofs[k - 1]) then 1 else 0
  }

  /** Proofs are dispatched one at a time when there are at least two. */
  predicate IsProofSet(subject: Subject) {
    Objects(ProofArray(subject), |ProofArray(subject)|) >= 2
  }

  function TextMember(v: Value, name: string): Option<string> {
    match Member(v, name)
    case Some(VString(s)) => Some(s)
    case _ => None
  }

  function Label(proof: Value): string {
    var type_ := TextMember(proof, "type");
    var typeName := if type_.Some? then type_.value else "unknown proof type";
    var cryptosuite := TextMember(proof, "cryptosuite");
    if cryptosuite.Some? then typeName + ", " + cryptosuite.value else typeName
  }

  /** The subject with a copy of its document that carries one proof only. */
  function Alone(subject: Subject, proof: Value): Subject
    requires ProofDocument(subject).Some? && ProofDocument(subject).value.VObject?
  {
    WithDocument(subject, VObject(ProofDocument(subject).value.fields["proof" := proof]))
  }

  predicate HasDocument(subject: Subject) {
    ProofDocument(subject).Some? && ProofDocument(subject).value.VObject?
  }

  /** The outcome of the proof at index `i`, in a dispatch that starts with the process's `n`-th call. */
  function OutcomeAt(services: seq<Service>, n: nat, subject: Subject, i: nat): ProofOutcome
    requires HasDocument(subject) && i < |ProofArray(subject)|
  {
    var proofs := ProofArray(subject);
    ProofOutcome(i + 1, |proofs|, Label(proofs[i]),
                 Dispatch(services, n + Objects(proofs, i), Alone(subject, proofs[i])))
  }

  /** The outcomes of the proof objects among the first `k` entries. */
  function Outcomes(services: seq<Service>, n: nat, subject: Subject, k: nat): seq<ProofOutcome>
    requires k <= |ProofArray(subject)|
    requires k > 0 ==> HasDocument(subject)
  {
    if k == 0 then []
    else
      Outcomes(services, n, subject, k - 1) +
      if IsObject(ProofArray(subject)[k - 1]) then [OutcomeAt(services, n, subject, k - 1)] else []
  }

  lemma {:induction false} OutcomesMembers(services: seq<Service>, n: nat, subject: Subject, k: nat, o: ProofOutcome)
    requires k <= |ProofArray(subject)| && HasDocument(subject)
    ensures o in Outcomes(services, n, subject, k) <==>
            exists i :: 0 <= i < k && IsObject(ProofArray(subject)[i]) && o == OutcomeAt(services, n, subject, i)
  {
    hide ProofArray, HasDocument, OutcomeAt;
    if k > 0 {
      OutcomesMembers(services, n, subject, k - 1, o);
    }
  }

  datatype SetDispatch = SetDispatch(combined: DispatchResult, proofs: seq<ProofOutcome>)

  /** The dispatch of a document's proofs, and how many calls it takes. */
  function DispatchSet(services: seq<Service>, n: nat, subject: Subject): SetDispatch {
    if IsProofSet(subject) then
      var proofs := Outcomes(services, n, subject, |ProofArray(subject)|);
      SetDispatch(Combine(proofs), proofs)
    else SetDispatch(Dispatch(services, n, subject), [])
  }

  function Calls(subject: Subject): nat {
    if IsProofSet(subject) then Objects(ProofArray(subject), |ProofArray(subject)|) else 1
  }

  /** For a proof set, the dispatch makes one call per proof object and records one outcome for each. */
  lemma {:induction false} OneOutcomePerProof(services: seq<Service>, n: nat, subject: Subject, k: nat)
    requires k <= |ProofArray(subject)| && HasDocument(subject)
    ensures |Outcomes(services, n, subject, k)| == Objects(ProofArray(subject), k)
  {
    if k > 0 {
      OneOutcomePerProof(services, n, subject, k - 1);
    }
  }

  /** The result for the proof at index `i`. */
  function ResultAt(services: seq<Service>, n: nat, subject: Subject, i: nat): DispatchResult
    requires HasDocument(subject) && i < |ProofArray(subject)|
  {
    OutcomeAt(services, n, subject, i).result
  }

  predicate CheckedAt(services: seq<Service>, n: nat, subject: Subject, i: nat) {
    && HasDocument(subject)
    && i < |ProofArray(subject)|
    && IsObject(ProofArray(subject)[i])
    && !IsUnsupported(ResultAt(services, n, subject, i))
  }

  /** The verdict for a proof set, read off the document's own proof array. */
  lemma SetIsGoodIff(services: seq<Service>, n: nat, subject: Subject)
    requires IsProofSet(subject)
    ensures Good(DispatchSet(services, n, subject).combined) <==>
            && (exists i: nat :: CheckedAt(services, n, subject, i))
            && (forall i: nat :: CheckedAt(services, n, subject, i) ==> Good(ResultAt(services, n, subject, i)))
  {
    var k := |ProofArray(subject)|;
    var os := Outcomes(services, n, subject, k);
    GoodIffEveryCheckedProofIs(os);
    forall o { OutcomesMembers(services, n, subject, k, o); }
    hide Combine, OutcomeAt, Outcomes, IsUnsupported, Good, Objects, ProofArray;
    forall i: nat | CheckedAt(services, n, subject, i)
      ensures OutcomeAt(services, n, subject, i) in os && Checked(OutcomeAt(services, n, subject, i))
    {
    }
    forall o | o in os && Checked(o)
      ensures exists i: nat :: CheckedAt(services, n, subject, i) && o == OutcomeAt(services, n, subject, i)
    {
      var i :| 0 <= i < k && IsObject(ProofArray(subject)[i]) && o == OutcomeAt(services, n, subject, i);
      assert CheckedAt(services, n, subject, i);
    }
  }

  /** Services that answer the same question always the same way. */
  ghost predicate Steady(services: seq<Service>) {
    forall s, n, m, subject :: s in services ==>
      s.canVerify(n, subject) == s.canVerify(m, subject) && s.verify(n, subject) == s.verify(m, subject)
  }

  lemma {:induction false} SteadyDispatch(services: seq<Service>, n: nat, m: nat, subject: Subject)
    requires Steady(services)
    ensures Consult(services, n, subject) == Consult(services, m, subject)
  {
    if services != [] {
      assert services[0] in services;
      SteadyDispatch(services[1..], n, m, subject);
    }
  }

  /** The same document with its proofs in another order. */
  predicate Reordered(subject: Subject, other: Subject) {
    && HasDocument(subject) && HasDocument(other)
    && Truthy(subject.presentation) == Truthy(other.presentation)
    && other == Alone(subject, VArray(ProofArray(other)))
    && multiset(ProofArray(subject)) == multiset(ProofArray(other))
  }

  lemma ReorderedMoves(services: seq<Service>, n: nat, subject: Subject, m: nat, other: Subject, i: nat)
    returns (j: nat)
    requires Steady(services) && Reordered(subject, other)
    requires CheckedAt(services, n, subject, i)
    ensures CheckedAt(services, m, other, j)
    ensures ResultAt(services, m, other, j) == ResultAt(services, n, subject, i)
  {
    var proof := ProofArray(subject)[i];
    assert proof in multiset(ProofArray(subject));
    j :| 0 <= j < |ProofArray(other)| && ProofArray(other)[j] == proof;
    assert Alone(subject, proof) == Alone(other, proof) by {
      assert ProofDocument(other).value.fields["proof" := proof] == ProofDocument(subject).value.fields["proof" := proof];
    }
    hide ProofArray, IsUnsupported;
    SteadyDispatch(services, n + Objects(ProofArray(subject), i), m + Objects(ProofArray(other), j), Alone(subject, proof));
  }

  lemma GoodAfterReordering(services: seq<Service>, n: nat, subject: Subject, m: nat, other: Subject)
    requires Steady(services) && IsProofSet(subject) && IsProofSet(other)
    requires Reordered(subject, other) && Reordered(other, subject)
    requires Good(DispatchSet(services, n, subject).combined)
    ensures Good(DispatchSet(services, m, other).combined)
  {
    hide Steady, Reordered, IsProofSet, DispatchSet, Good, IsUnsupported, ProofArray, OutcomeAt;
    SetIsGoodIff(services, n, subject);
    SetIsGoodIff(services, m, other);
    var i: nat :| CheckedAt(services, n, subject, i);
    var j := ReorderedMoves(services, n, subject, m, other, i);
    forall j: nat | CheckedAt(services, m, other, j) ensures Good(ResultAt(services, m, other, j)) {
      var i := ReorderedMoves(services, m, other, n, subject, j);
    }
  }

  lemma ReorderedBack(subject: Subject, other: Subject)
    requires IsProofSet(subject) && IsProofSet(other) && Reordered(subject, other)
    ensures Reordered(other, subject)
  {
    var fields := ProofDocument(subject).value.fields;
    assert fields["proof" := VArray(ProofArray(subject))] == fields;
    assert ProofDocument(other).value.fields["proof" := VArray(ProofArray(subject))] == fields;
  }

  /** Reordering a proof set never changes whether it verifies. */
  lemma VerdictIgnoresOrder(services: seq<Service>, n: nat, subject: Subject, m: nat, other: Subject)
    requires Steady(services) && IsProofSet(subject) && IsProofSet(other)
    requires Reordered(subject, other)
    ensures Good(DispatchSet(services, n, subject).combined) <==> Good(DispatchSet(services, m, other).combined)
  {
    ReorderedBack(subject, other);
    hide *;
    if Good(DispatchSet(services, n, subject).combined) {
      GoodAfterReordering(services, n, subject, m, other);
    }
    if Good(DispatchSet(services, m, other).combined) {
      GoodAfterReordering(services, m, other, n, subject);
    }
  }
}
