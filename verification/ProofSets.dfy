/**
 What becomes of a document's proofs, in terms of the document and the services' replies alone:
 which documents the services are shown, and how their replies make up the two checks' verdicts.
 */
module ProofSets {
  import opened Options
  import opened Strings
  import opened JsonValues
  import opened CryptoDispatch
  import opened ProofSuite
  import R = Results

  // ----- what the services are shown -----

  ghost predicate Given(v: Option<Value>) {
    v !in [None, Some(VNull), Some(VBool(false)), Some(VNumber(0.0)), Some(VString(""))]
  }

  /** The presentation if there is one, otherwise the credential. */
  ghost function TheDocument(subject: Subject): Option<Value> {
    if Given(subject.presentation) then subject.presentation else subject.credential
  }

  ghost predicate HasProofs(subject: Subject, items: seq<Value>) {
    TheDocument(subject).Some? && Has(TheDocument(subject).value, "proof", VArray(items))
  }

  ghost predicate Increasing(js: seq<nat>) { forall a, b :: 0 <= a < b < |js| ==> js[a] < js[b] }

  /** The positions of the objects and arrays among the first `k` entries, in order. */
  ghost predicate ObjectsAt(items: seq<Value>, k: nat, js: seq<nat>)
    requires k <= |items|
  {
    Increasing(js) && forall j: nat :: j in js <==> j < k && (items[j].VObject? || items[j].VArray?)
  }

  /** The subject, but with a copy of its document that carries one proof. */
  ghost predicate ShowsAlone(subject: Subject, proof: Value, shown: Subject) {
    && TheDocument(subject).Some? && TheDocument(subject).value.VObject?
    && var copy := Some(VObject(TheDocument(subject).value.fields["proof" := proof]));
       shown == if Given(subject.presentation) then Subject(copy, subject.credential) else Subject(subject.presentation, copy)
  }

  /** The proof's type, and its cryptosuite if it has one. */
  ghost predicate NamesProof(proof: Value, name: string) {
    exists typeName: string :: HasType(proof, typeName) && WithSuite(proof, typeName, name)
  }

  ghost predicate HasType(proof: Value, typeName: string) {
    Has(proof, "type", VString(typeName)) || (typeName == "unknown proof type" && NoText(proof, "type"))
  }

  ghost predicate WithSuite(proof: Value, typeName: string, name: string) {
    || (NoText(proof, "cryptosuite") && name == typeName)
    || exists suite :: Has(proof, "cryptosuite", VString(suite)) && name == typeName + ", " + suite
  }

  ghost predicate NoText(v: Value, name: string) { forall s :: !Has(v, name, VString(s)) }

  /** The outcome of the proof at index `j`, dispatched as the process's `n`-th call. */
  ghost predicate OutcomeOf(o: ProofOutcome, services: seq<Service>, n: nat, subject: Subject, items: seq<Value>, j: nat) {
    && j < |items|
    && o.position == j + 1 && o.total == |items| && NamesProof(items[j], o.name)
    && exists shown :: ShowsAlone(subject, items[j], shown) && o.result == Dispatch(services, n, shown)
  }

  lemma GivenIs(v: Option<Value>)
    ensures Given(v) <==> Truthy(v)
  {
    FalsyExactly(v);
  }

  lemma NameIs(proof: Value)
    ensures NamesProof(proof, Label(proof))
  {
    var type_, suite := TextMember(proof, "type"), TextMember(proof, "cryptosuite");
    var typeName := if type_.Some? then type_.value else "unknown proof type";
    TextIs(proof, "type");
    TextIs(proof, "cryptosuite");
    hide TextMember, Has;
    assert Label(proof) == if suite.Some? then typeName + ", " + suite.value else typeName;
    assert HasType(proof, typeName) && WithSuite(proof, typeName, Label(proof));
  }

  lemma TextIs(v: Value, name: string)
    ensures forall s :: Has(v, name, VString(s)) <==> TextMember(v, name) == Some(s)
  {
  }

  lemma AloneIs(subject: Subject, proof: Value)
    requires HasDocument(subject)
    ensures ShowsAlone(subject, proof, Alone(subject, proof))
  {
    GivenIs(subject.presentation);
    hide Truthy, Given;
  }

  lemma ProofsAre(subject: Subject)
    ensures forall items :: HasProofs(subject, items) ==> ProofArray(subject) == items && HasDocument(subject)
    ensures ProofArray(subject) != [] ==> HasProofs(subject, ProofArray(subject))
  {
    GivenIs(subject.presentation);
    hide Given;
  }

  /** `js` are the numbers of the objects among the first `k` items, and each is preceded by as many objects as its place says. */
  ghost predicate Numbered(items: seq<Value>, k: nat, js: seq<nat>)
    requires k <= |items|
  {
    && ObjectsAt(items, k, js) && |js| == Objects(items, k)
    && forall m :: 0 <= m < |js| ==> js[m] < k && Objects(items, js[m]) == m
  }

  lemma {:induction false} CountObjects(items: seq<Value>, k: nat) returns (js: seq<nat>)
    requires k <= |items|
    ensures Numbered(items, k, js)
  {
    if k == 0 {
      js := [];
    } else {
      js := CountObjects(items, k - 1);
      assert forall m :: 0 <= m < |js| ==> js[m] in js;
      if IsObject(items[k - 1]) {
        js := js + [k - 1];
      }
    }
  }

  /** The outcomes are those of the proof objects at `js`, in order. */
  ghost predicate OutcomesAt(os: seq<ProofOutcome>, services: seq<Service>, n: nat, subject: Subject, js: seq<nat>) {
    |os| == |js| && forall m :: 0 <= m < |js| ==> OutcomeOf(os[m], services, n + m, subject, ProofArray(subject), js[m])
  }

  lemma OutcomesOneMore(os: seq<ProofOutcome>, o: ProofOutcome, services: seq<Service>, n: nat, subject: Subject, js: seq<nat>)
    requires js != [] && OutcomesAt(os, services, n, subject, js[..|js| - 1])
    requires OutcomeOf(o, services, n + |js| - 1, subject, ProofArray(subject), js[|js| - 1])
    ensures OutcomesAt(os + [o], services, n, subject, js)
  {
    hide OutcomeOf, ProofArray;
  }

  lemma OutcomesStep(services: seq<Service>, n: nat, subject: Subject, k: nat)
    requires HasDocument(subject) && 0 < k <= |ProofArray(subject)|
    ensures Outcomes(services, n, subject, k) ==
            if IsObject(ProofArray(subject)[k - 1]) then Outcomes(services, n, subject, k - 1) + [OutcomeAt(services, n, subject, k - 1)]
            else Outcomes(services, n, subject, k - 1)
  {
    hide ProofArray, HasDocument, IsObject, OutcomeAt;
  }

  lemma NumberedBefore(items: seq<Value>, k: nat, js: seq<nat>)
    requires 0 < k <= |items| && Numbered(items, k, js)
    ensures if IsObject(items[k - 1]) then
              && js != [] && js[|js| - 1] == k - 1 && Objects(items, k - 1) == |js| - 1
              && Numbered(items, k - 1, js[..|js| - 1])
            else Numbered(items, k - 1, js)
  {
    hide ObjectsAt, IsObject;
    LastObject(items, k, js);
    hide Objects;
  }

  lemma OutcomesOfNone(services: seq<Service>, n: nat, subject: Subject, js: seq<nat>)
    requires HasDocument(subject) && Numbered(ProofArray(subject), 0, js)
    ensures OutcomesAt(Outcomes(services, n, subject, 0), services, n, subject, js)
  {
    hide ProofArray, HasDocument, OutcomeOf, ObjectsAt;
  }

  lemma {:induction false} OutcomesOf(services: seq<Service>, n: nat, subject: Subject, k: nat, js: seq<nat>)
    requires HasDocument(subject) && k <= |ProofArray(subject)| && Numbered(ProofArray(subject), k, js)
    ensures OutcomesAt(Outcomes(services, n, subject, k), services, n, subject, js)
    decreases k
  {
    hide *;
    if k == 0 {
      OutcomesOfNone(services, n, subject, js);
    } else {
      NumberedBefore(ProofArray(subject), k, js);
      OutcomesStep(services, n, subject, k);
      var one := IsObject(ProofArray(subject)[k - 1]);
      OutcomesOf(services, n, subject, k - 1, if one then js[..|js| - 1] else js);
      if one {
        OutcomeAtIs(services, n, subject, k - 1);
        OutcomesOneMore(Outcomes(services, n, subject, k - 1), OutcomeAt(services, n, subject, k - 1), services, n, subject, js);
      }
    }
  }

  lemma LastObject(items: seq<Value>, k: nat, js: seq<nat>)
    requires 0 < k <= |items| && ObjectsAt(items, k, js)
    ensures if IsObject(items[k - 1]) then js != [] && js[|js| - 1] == k - 1 && ObjectsAt(items, k - 1, js[..|js| - 1])
            else ObjectsAt(items, k - 1, js)
    ensures forall m :: 0 <= m < |js| && js[m] != k - 1 ==> js[m] < k - 1
  {
    assert forall m :: 0 <= m < |js| ==> js[m] in js;
    if IsObject(items[k - 1]) {
      assert k - 1 in js;
      var m :| 0 <= m < |js| && js[m] == k - 1;
      assert js[|js| - 1] < k && js[m] <= js[|js| - 1];
      var init := js[..|js| - 1];
      forall j: nat ensures j in init <==> j < k - 1 && IsObject(items[j]) {
        if j < k - 1 && IsObject(items[j]) {
          assert j in js;
          var i :| 0 <= i < |js| && js[i] == j;
          assert init[i] == j;
        }
      }
    }
  }

  lemma OutcomeAtIs(services: seq<Service>, n: nat, subject: Subject, i: nat)
    requires HasDocument(subject) && i < |ProofArray(subject)|
    ensures OutcomeOf(OutcomeAt(services, n, subject, i), services, n + Objects(ProofArray(subject), i), subject, ProofArray(subject), i)
  {
    NameIs(ProofArray(subject)[i]);
    AloneIs(subject, ProofArray(subject)[i]);
    hide ProofArray, HasDocument, Label, NamesProof, Alone, ShowsAlone, Dispatch, Objects;
  }

  /**
   A document with two or more proof objects is dispatched once for each, in order, on a copy that
   carries that proof alone; any other document is dispatched once, as it is.
   */
  lemma DispatchedExactly(services: seq<Service>, n: nat, subject: Subject) returns (js: seq<nat>)
    ensures ObjectsAt(ProofArray(subject), |ProofArray(subject)|, js)
    ensures forall items :: HasProofs(subject, items) ==> items == ProofArray(subject)
    ensures (forall items :: !HasProofs(subject, items)) ==> js == []
    ensures var d := DispatchSet(services, n, subject);
            if |js| < 2 then d == SetDispatch(Dispatch(services, n, subject), []) && Calls(subject) == 1
            else
              && d.combined == Combine(d.proofs) && Calls(subject) == |js| == |d.proofs|
              && forall m :: 0 <= m < |js| ==> OutcomeOf(d.proofs[m], services, n + m, subject, ProofArray(subject), js[m])
  {
    ProofsAre(subject);
    var items := ProofArray(subject);
    js := CountObjects(items, |items|);
    assert items == [] ==> |js| == 0;
    hide ProofArray, HasProofs, OutcomeOf, ObjectsAt, Objects, Outcomes, Combine, Dispatch;
    if |js| >= 2 {
      assert items != [];
      OutcomesOf(services, n, subject, |items|, js);
    }
  }

  // ----- what the replies make of the document -----

  /** No service could check the proof: none took it, or one did and gave nothing but reasons for not supporting it. */
  ghost predicate NotChecked(r: DispatchResult) {
    r.NoService? || (r.Rejected? && r.problems != [] && forall k :: 0 <= k < |r.problems| ==> r.problems[k].kind == R.ProofUnsupported)
  }

  ghost predicate Fails(r: DispatchResult) { r.Rejected? && !r.proofVerified && !NotChecked(r) }

  /** A proof's own problems, each saying which proof of the set it is about. */
  ghost predicate ToldOf(o: ProofOutcome, told: seq<R.Problem>) {
    var own := if o.result.Rejected? then o.result.problems
               else [R.Problem(R.ProofUnsupported, "No registered crypto service can verify this proof.", None)];
    && |told| == |own|
    && forall k :: 0 <= k < |told| ==>
         && told[k].kind == own[k].kind && told[k].instance == own[k].instance
         && told[k].detail == "Proof " + Numeral(o.position) + " of " + Numeral(o.total) + " (" + o.name + "): " + own[k].detail
  }

  /** The problems of the failing proofs, or of the unchecked ones, one proof after the other. */
  ghost predicate TellsAll(os: seq<ProofOutcome>, failing: bool, told: seq<R.Problem>)
    decreases |os|
  {
    if os == [] then told == []
    else
      var init, last := os[..|os| - 1], os[|os| - 1];
      if if failing then Fails(last.result) else NotChecked(last.result) then
        exists at :: 0 <= at <= |told| && TellsAll(init, failing, told[..at]) && ToldOf(last, told[at..])
      else TellsAll(init, failing, told)
  }

  ghost predicate AnyOf(os: seq<ProofOutcome>, which: DispatchResult -> bool) {
    exists k :: 0 <= k < |os| && which(os[k].result)
  }

  /** `r` is the first of the results of this sort. */
  ghost predicate FirstOf(os: seq<ProofOutcome>, which: DispatchResult -> bool, r: DispatchResult) {
    exists k :: 0 <= k < |os| && os[k].result == r && which(r) && forall j :: 0 <= j < k ==> !which(os[j].result)
  }

  /** The verdict for the whole document: the worst news there is. */
  ghost predicate WorstNews(os: seq<ProofOutcome>, combined: DispatchResult) {
    var threw := (r: DispatchResult) => r.Threw?;
    var rejected := (r: DispatchResult) => r.Rejected? && r.proofVerified && !NotChecked(r);
    var verified := (r: DispatchResult) => r.Verified?;
    if AnyOf(os, (r: DispatchResult) => Fails(r)) then combined.Rejected? && !combined.proofVerified && TellsAll(os, true, combined.problems)
    else if AnyOf(os, threw) then FirstOf(os, threw, combined)
    else if AnyOf(os, rejected) then FirstOf(os, rejected, combined)
    else if AnyOf(os, verified) then FirstOf(os, verified, combined)
    else if !AnyOf(os, (r: DispatchResult) => !r.NoService?) then combined.NoService?
    else combined.Rejected? && !combined.proofVerified && TellsAll(os, false, combined.problems)
  }

  lemma KindIs(r: DispatchResult)
    ensures NotChecked(r) <==> KindOf(r) == Unchecked
    ensures Fails(r) <==> KindOf(r) == Failing
    ensures r.Threw? <==> KindOf(r) == Broken
    ensures r.Rejected? && r.proofVerified && !NotChecked(r) <==> KindOf(r) == VerifiedButRejected
    ensures r.Verified? <==> KindOf(r) == Clean
  {
  }

  lemma ToldIs(o: ProofOutcome)
    requires o.result.Rejected? || o.result.NoService?
    ensures ToldOf(o, ProblemsOf(o))
  {
    assert Prefix(o) == "Proof " + Numeral(o.position) + " of " + Numeral(o.total) + " (" + o.name + "): ";
    hide Numeral, Prefix;
  }

  lemma {:induction false} TellsIs(os: seq<ProofOutcome>, failing: bool)
    ensures TellsAll(os, failing, AllProblems(Of(os, if failing then Failing else Unchecked)))
  {
    hide ToldOf, ProblemsOf, KindOf, Fails, NotChecked;
    if os != [] {
      var init, last, kind := os[..|os| - 1], os[|os| - 1], if failing then Failing else Unchecked;
      TellsIs(init, failing);
      KindIs(last.result);
      if KindOf(last.result) == kind {
        var rest := Of(init, kind);
        assert (rest + [last])[..|rest|] == rest;
        CanTell(last.result);
        ToldIs(last);
        var told := AllProblems(rest) + ProblemsOf(last);
        assert told[..|AllProblems(rest)|] == AllProblems(rest) && told[|AllProblems(rest)|..] == ProblemsOf(last);
      }
    }
  }

  lemma CanTell(r: DispatchResult)
    requires Fails(r) || NotChecked(r)
    ensures r.Rejected? || r.NoService?
  {
  }

  lemma AnyIs(os: seq<ProofOutcome>, which: DispatchResult -> bool, kind: Kind)
    requires forall r :: which(r) <==> KindOf(r) == kind
    ensures AnyOf(os, which) <==> Of(os, kind) != []
    ensures Of(os, kind) != [] ==> FirstOf(os, which, Of(os, kind)[0].result)
  {
    OfMembers(os, kind);
    hide KindOf;
    if Of(os, kind) != [] {
      var k := OfStartsAt(os, kind);
      assert which(os[k].result);
    }
    if AnyOf(os, which) {
      var k :| 0 <= k < |os| && which(os[k].result);
      assert os[k] in os;
    }
  }

  /** The combined verdict is the worst news, told as it is documented. */
  lemma CombinedExactly(os: seq<ProofOutcome>)
    ensures WorstNews(os, Combine(os))
  {
    forall r
      ensures Fails(r) <==> KindOf(r) == Failing
      ensures r.Threw? <==> KindOf(r) == Broken
      ensures r.Rejected? && r.proofVerified && !NotChecked(r) <==> KindOf(r) == VerifiedButRejected
      ensures r.Verified? <==> KindOf(r) == Clean
      ensures NotChecked(r) <==> KindOf(r) == Unchecked
    {
      KindIs(r);
    }
    AnyIs(os, (r: DispatchResult) => Fails(r), Failing);
    AnyIs(os, (r: DispatchResult) => r.Threw?, Broken);
    AnyIs(os, (r: DispatchResult) => r.Rejected? && r.proofVerified && !NotChecked(r), VerifiedButRejected);
    AnyIs(os, (r: DispatchResult) => r.Verified?, Clean);
    TellsIs(os, true);
    TellsIs(os, false);
    OfMembers(os, Unchecked);
    hide Fails, NotChecked, KindOf, TellsAll, AllProblems, Of, FirstOf;
    forall o | o in os ensures exists k :: 0 <= k < |os| && os[k] == o {
    }
  }

  // ----- what the two checks conclude -----

  /** The document's proof is an object, or a list that holds one. */
  ghost predicate IsSigned(document: Option<Value>) {
    document.Some? && exists proof :: Has(document.value, "proof", proof) && HoldsObject(proof)
  }

  ghost predicate HoldsObject(proof: Value) {
    proof.VObject? || (proof.VArray? && exists item :: item in proof.items && (item.VObject? || item.VArray?))
  }

  /** `proof.signature`, from the subject and the combined verdict of its dispatch. */
  ghost predicate Concludes(subject: Subject, unsignedPresentation: bool, combined: DispatchResult, o: R.Outcome) {
    if !Given(subject.presentation) && !Given(subject.credential) then FailsFor(o, R.ProofVerificationError, "No verifiable credential or presentation found in subject.")
    else if !IsSigned(TheDocument(subject)) then
      if !Given(subject.presentation) then FailsFor(o, R.ProofVerificationError, "Subject has no proof to verify.")
      else if unsignedPresentation then o.Skipped? && o.code == Some("unsigned-presentation")
      else o.Failure? && |o.problems| == 1 && o.problems[0].kind == R.ProofVerificationError
    else
      match combined
      case Verified(text) => o.Success? && (text.Some? ==> o.message == text.value)
      case Rejected(problems, true) => o.Success?
      case Rejected(problems, false) => o.Failure? && o.problems == problems
      case NoService => o.Failure? && |o.problems| == 1 && o.problems[0].kind == R.ProofVerificationError
      case Threw(message) => FailsFor(o, R.ProofVerificationError, message)
  }

  ghost predicate FailsFor(o: R.Outcome, kind: R.ProblemType, detail: string) {
    o.Failure? && |o.problems| == 1 && o.problems[0].kind == kind && o.problems[0].detail == detail
  }

  lemma SignedIs(document: Option<Value>)
    ensures IsSigned(document) <==> HasProof(document)
  {
    if IsSigned(document) {
      var proof :| Has(document.value, "proof", proof) && HoldsObject(proof);
      if proof.VArray? {
        var item :| item in proof.items && (item.VObject? || item.VArray?);
        var i :| 0 <= i < |proof.items| && proof.items[i] == item;
        assert IsObject(proof.items[i]);
      }
    }
    if HasProof(document) {
      assert Has(document.value, "proof", document.value.fields["proof"]);
    }
  }

  /** The verdict of the signature check is the one the documents and the replies call for. */
  lemma SignatureExactly(services: seq<Service>, n: nat, subject: Subject, unsignedPresentation: bool)
    ensures var early, combined := WithoutDispatch(subject, unsignedPresentation), DispatchSet(services, n, subject).combined;
            Concludes(subject, unsignedPresentation, combined, if early.Some? then early.value else SignatureVerdict(combined))
  {
    GivenIs(subject.presentation);
    GivenIs(subject.credential);
    SignedIs(TheDocument(subject));
    hide Given, IsSigned, HasProof, Truthy, DispatchSet;
  }

  /** The warning tells of the unchecked proofs, all of them and nothing else, and is silent iff there is none to tell of. */
  lemma WarningExactly(os: seq<ProofOutcome>)
    ensures var o := UnsupportedVerdict(os);
            if o.Failure? then o.problems != [] && TellsAll(os, false, o.problems) else o.Success? && TellsAll(os, false, [])
  {
    TellsIs(os, false);
    hide TellsAll, AllProblems, Of;
  }
}
