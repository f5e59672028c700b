/**
 What the structural rules' reports are worth: every reported place can be found in the
 credential, no place is reported twice, and nothing is reported iff the credential conforms.
 */
module StructureReport {
  import opened Options
  import opened Strings
  import opened JsonValues
  import opened JsonPointer
  import opened VcStructure

  function PlaceOf(v: Violation): seq<string> { Texts(v.pointer) }

  /** Every place reported is a value of the document or a missing member of one of its objects. */
  ghost predicate Placed(root: Value, vs: seq<Violation>) {
    forall k :: 0 <= k < |vs| ==> Evaluate(root, PlaceOf(vs[k])) != Nowhere
  }

  ghost predicate Distinct(vs: seq<Violation>) {
    forall i, j :: 0 <= i < j < |vs| ==> PlaceOf(vs[i]) != PlaceOf(vs[j])
  }

  ghost predicate Apart(a: seq<Violation>, b: seq<Violation>) {
    forall i, j :: 0 <= i < |a| && 0 <= j < |b| ==> PlaceOf(a[i]) != PlaceOf(b[j])
  }

  ghost predicate Sound(root: Value, vs: seq<Violation>) { Placed(root, vs) && Distinct(vs) }

  lemma SoundConcat(root: Value, a: seq<Violation>, b: seq<Violation>)
    requires Sound(root, a) && Sound(root, b) && Apart(a, b)
    ensures Sound(root, a + b)
  {
    hide PlaceOf;
  }

  /** Every place is at or below `base`. */
  ghost predicate Under(vs: seq<Violation>, base: seq<string>) {
    forall k :: 0 <= k < |vs| ==> base <= PlaceOf(vs[k])
  }

  lemma TextsConcat(p: Pointer, q: Pointer)
    ensures Texts(p + q) == Texts(p) + Texts(q)
  {
  }

  lemma MemberPlace(root: Value, pointer: Pointer, name: string)
    requires Evaluate(root, Texts(pointer)).Found? && Evaluate(root, Texts(pointer)).v.VObject?
    ensures Texts(pointer + [Name(name)]) == Texts(pointer) + [name]
    ensures Evaluate(root, Texts(pointer + [Name(name)])) ==
            var m := Member(Evaluate(root, Texts(pointer)).v, name);
            if m.Some? then Found(m.value) else MissingMember
  {
    TextsConcat(pointer, [Name(name)]);
    assert Texts([Name(name)]) == [name];
    EvaluateConcat(root, Texts(pointer), [name]);
    hide Texts;
    assert [name][1..] == [];
  }

  lemma EntryPlace(root: Value, pointer: Pointer, value: Value, k: nat)
    requires Evaluate(root, Texts(pointer)) == Found(value) && k < |EntriesOf(value)|
    ensures Evaluate(root, Texts(EntryPointer(value, pointer, k))) == Found(EntriesOf(value)[k])
    ensures Texts(EntryPointer(value, pointer, k)) == Texts(pointer) + if value.VArray? then [Numeral(k)] else []
  {
    if value.VArray? {
      TextsConcat(pointer, [Index(k)]);
      assert Texts([Index(k)]) == [Numeral(k)];
      EvaluateConcat(root, Texts(pointer), [Numeral(k)]);
      assert [Numeral(k)][1..] == [];
      assert IsArrayIndex(Numeral(k)) && NumeralValue(Numeral(k)) == k;
      hide Numeral, NumeralValue, IsNumeral, IsArrayIndex, Texts;
    }
  }

  // ----- one entry -----

  /** Where an entry's violations can be: the entry itself, or its `type` and then its `id`. */
  lemma EntryShape(f: Formats, rule: EntryRule, entry: Value, pointer: Pointer)
    ensures var vs := EntryViolations(f, rule, entry, pointer);
            || vs == []
            || (|vs| == 1 && vs[0].pointer == pointer)
            || (entry.VObject? && |vs| == 1 && vs[0].pointer == pointer + [Name("type")])
            || (entry.VObject? && |vs| == 1 && vs[0].pointer == pointer + [Name("id")])
            || (entry.VObject? && |vs| == 2 && vs[0].pointer == pointer + [Name("type")] && vs[1].pointer == pointer + [Name("id")])
  {
    hide StringValues, IsUrl, Member;
  }

  lemma UpToTwo(root: Value, vs: seq<Violation>, base: seq<string>)
    requires |vs| <= 2
    requires forall v :: v in vs ==> base <= PlaceOf(v) && Evaluate(root, PlaceOf(v)) != Nowhere
    requires |vs| == 2 ==> PlaceOf(vs[0]) != PlaceOf(vs[1])
    ensures Sound(root, vs) && Under(vs, base)
  {
    hide PlaceOf, Evaluate;
  }

  /** An entry's violations are at the entry, at its `type` or at its `id`, each at most once. */
  lemma EntrySound(f: Formats, root: Value, rule: EntryRule, entry: Value, pointer: Pointer)
    requires Evaluate(root, Texts(pointer)) == Found(entry)
    ensures Sound(root, EntryViolations(f, rule, entry, pointer))
    ensures Under(EntryViolations(f, rule, entry, pointer), Texts(pointer))
  {
    EntryShape(f, rule, entry, pointer);
    hide Evaluate, Texts, EntryViolations, Member, Sound, Under;
    var base := Texts(pointer);
    if entry.VObject? {
      MemberPlace(root, pointer, "type");
      MemberPlace(root, pointer, "id");
      assert (base + ["type"])[|base|] != (base + ["id"])[|base|];
    }
    UpToTwo(root, EntryViolations(f, rule, entry, pointer), base);
  }

  // ----- the entries of a property -----

  /** Every place is below `base`, at one of the first `k` indexes. */
  ghost predicate AtEarlierIndex(vs: seq<Violation>, base: seq<string>, k: nat) {
    forall i :: 0 <= i < |vs| ==>
      var place := PlaceOf(vs[i]);
      base < place && IsNumeral(place[|base|]) && NumeralValue(place[|base|]) < k
  }

  lemma AtIndex(vs: seq<Violation>, base: seq<string>, j: nat, k: nat)
    requires Under(vs, base + [Numeral(j)]) && j < k
    ensures AtEarlierIndex(vs, base, k) && Under(vs, base)
    ensures forall i :: 0 <= i < |vs| ==> base < PlaceOf(vs[i]) && PlaceOf(vs[i])[|base|] == Numeral(j)
  {
    forall i | 0 <= i < |vs| ensures base < PlaceOf(vs[i]) && PlaceOf(vs[i])[|base|] == Numeral(j) {
      var place, longer := PlaceOf(vs[i]), base + [Numeral(j)];
      assert longer <= place;
      assert place[..|longer|] == longer;
      assert place[|base|] == longer[|base|];
      assert place[..|base|] == longer[..|base|] == base;
    }
    hide PlaceOf;
  }

  lemma NextIndex(root: Value, earlier: seq<Violation>, last: seq<Violation>, base: seq<string>, j: nat)
    requires Sound(root, earlier) && AtEarlierIndex(earlier, base, j)
    requires Sound(root, last) && Under(last, base + [Numeral(j)])
    ensures Sound(root, earlier + last) && AtEarlierIndex(earlier + last, base, j + 1)
  {
    AtIndex(last, base, j, j + 1);
    assert IsNumeral(Numeral(j)) && NumeralValue(Numeral(j)) == j;
    hide PlaceOf, Numeral, NumeralValue, IsNumeral, Sound, Under;
    assert Apart(earlier, last);
    SoundConcat(root, earlier, last);
  }

  lemma {:induction false} ArraySound(f: Formats, root: Value, rule: EntryRule, value: Value, pointer: Pointer, k: nat)
    requires Evaluate(root, Texts(pointer)) == Found(value) && value.VArray? && k <= |value.items|
    ensures var vs := EntriesViolations(f, rule, value, pointer, k);
            Sound(root, vs) && AtEarlierIndex(vs, Texts(pointer), k)
  {
    hide EntryViolations, Texts, Evaluate, Numeral, NumeralValue, PlaceOf, Sound, Under;
    if k == 0 {
      EmptySound(root);
    } else {
      ArraySound(f, root, rule, value, pointer, k - 1);
      EntryPlace(root, pointer, value, k - 1);
      var place := EntryPointer(value, pointer, k - 1);
      EntrySound(f, root, rule, value.items[k - 1], place);
      hide AtEarlierIndex, EntryPointer;
      NextIndex(root, EntriesViolations(f, rule, value, pointer, k - 1),
                EntryViolations(f, rule, value.items[k - 1], place), Texts(pointer), k - 1);
    }
  }

  lemma EmptySound(root: Value)
    ensures Sound(root, [])
  {
  }

  /** A property's entries are reported soundly, all below the property. */
  lemma EntriesSound(f: Formats, root: Value, rule: EntryRule, value: Value, pointer: Pointer)
    requires Evaluate(root, Texts(pointer)) == Found(value)
    ensures Sound(root, AllEntriesViolations(f, rule, value, pointer))
    ensures Under(AllEntriesViolations(f, rule, value, pointer), Texts(pointer))
  {
    if value.VArray? {
      ArraySound(f, root, rule, value, pointer, |value.items|);
    } else {
      EntrySound(f, root, rule, value, pointer);
      assert EntriesViolations(f, rule, value, pointer, 0) == [];
      assert AllEntriesViolations(f, rule, value, pointer) == EntryViolations(f, rule, value, pointer);
    }
  }

  // ----- the whole report -----

  /** Sound, and every place is below a member of the credential named in `names`. */
  ghost predicate Covers(root: Value, vs: seq<Violation>, names: set<string>) {
    && Sound(root, vs)
    && forall k :: 0 <= k < |vs| ==> PlaceOf(vs[k]) != [] && PlaceOf(vs[k])[0] in names
  }

  lemma CoversConcat(root: Value, a: seq<Violation>, b: seq<Violation>, names: set<string>, others: set<string>)
    requires Covers(root, a, names) && Covers(root, b, others) && names !! others
    ensures Covers(root, a + b, names + others)
  {
    hide PlaceOf, Sound;
    assert forall i, j :: 0 <= i < |a| && 0 <= j < |b| ==> PlaceOf(a[i])[0] in names && PlaceOf(b[j])[0] in others;
    SoundConcat(root, a, b);
  }

  lemma TopPlace(root: Value, name: string)
    requires root.VObject?
    ensures Texts([Name(name)]) == [name]
    ensures Evaluate(root, [name]) == var m := Member(root, name); if m.Some? then Found(m.value) else MissingMember
  {
    assert Texts([]) == [] && Evaluate(root, []) == Found(root);
    MemberPlace(root, [], name);
    assert [] + [Name(name)] == [Name(name)] && [] + [name] == [name];
  }

  lemma FirstContextCovers(root: Value)
    requires root.VObject?
    ensures Covers(root, FirstContextViolations(Member(root, "@context")), {"@context"})
  {
    TopPlace(root, "@context");
    var context := Member(root, "@context");
    if context.Some? && context.value.VArray? && IncludesVcContext(context) {
      assert context.value.items != [];
      EntryPlace(root, [Name("@context")], context.value, 0);
      assert [Name("@context")] + [Index(0)] == [Name("@context"), Index(0)];
    }
    hide IsVcContext, Evaluate, Texts;
  }

  lemma TypeCovers(root: Value)
    requires root.VObject?
    ensures Covers(root, TypeViolations(Member(root, "type"), "VerifiableCredential"), {"type"})
  {
    TopPlace(root, "type");
    hide StringValues;
  }

  lemma SubjectCovers(f: Formats, root: Value)
    requires root.VObject?
    ensures Covers(root, SubjectViolations(f, Member(root, "credentialSubject")), {"credentialSubject"})
  {
    TopPlace(root, "credentialSubject");
    var subject := Member(root, "credentialSubject");
    if subject.Some? {
      EntriesSound(f, root, SubjectEntry, subject.value, [Name("credentialSubject")]);
    }
    hide Evaluate, AllEntriesViolations;
  }

  lemma IssuerCovers(f: Formats, root: Value)
    requires root.VObject?
    ensures Covers(root, IssuerViolations(f, Member(root, "issuer")), {"issuer"})
  {
    TopPlace(root, "issuer");
    var issuer := Member(root, "issuer");
    if issuer.Some? && issuer.value.VObject? {
      MemberPlace(root, [Name("issuer")], "id");
    }
    hide Evaluate, Texts, IsUrl;
  }

  lemma DateCovers(f: Formats, root: Value, prop: string)
    requires root.VObject?
    ensures Covers(root, DateViolations(f, root, prop), {prop})
  {
    TopPlace(root, prop);
    hide Evaluate;
  }

  lemma RequiredStartCovers(f: Formats, root: Value, start: string, end: string)
    requires root.VObject? && start != end
    ensures Covers(root, RequiredStartViolations(f, root, start, end), {start, end})
  {
    DateCovers(f, root, start);
    DateCovers(f, root, end);
    TopPlace(root, start);
    var missing := if Member(root, start).None? then [Violation([Name(start)], Missing)] else [];
    var started := missing + DateViolations(f, root, start);
    assert started == missing || started == DateViolations(f, root, start);
    assert Covers(root, started, {start});
    hide DateViolations, Covers, Evaluate, Member;
    CoversConcat(root, started, DateViolations(f, root, end), {start}, {end});
    assert {start} + {end} == {start, end};
  }

  lemma OptionalDatesCover(f: Formats, root: Value, start: string, end: string)
    requires root.VObject? && start != end
    ensures Covers(root, OptionalDatesViolations(f, root, start, end), {start, end})
  {
    DateCovers(f, root, start);
    DateCovers(f, root, end);
    hide DateViolations, Covers;
    CoversConcat(root, DateViolations(f, root, start), DateViolations(f, root, end), {start}, {end});
    assert {start} + {end} == {start, end};
  }

  lemma DatesCover(f: Formats, root: Value)
    requires root.VObject?
    ensures Covers(root, DatesViolations(f, root), {"issuanceDate", "expirationDate", "validFrom", "validUntil"})
  {
    hide IsV1, IsV2, Member, FirstContextEntry, RequiredStartViolations, OptionalDatesViolations, Covers;
    assert |"issuanceDate"| != |"expirationDate"| && |"validFrom"| != |"validUntil"|;
    RequiredStartCovers(f, root, "issuanceDate", "expirationDate");
    OptionalDatesCover(f, root, "validFrom", "validUntil");
    var names := {"issuanceDate", "expirationDate", "validFrom", "validUntil"};
    Widen(root, RequiredStartViolations(f, root, "issuanceDate", "expirationDate"), {"issuanceDate", "expirationDate"}, names);
    Widen(root, OptionalDatesViolations(f, root, "validFrom", "validUntil"), {"validFrom", "validUntil"}, names);
    Widen(root, [], {}, names);
  }

  lemma Widen(root: Value, vs: seq<Violation>, names: set<string>, more: set<string>)
    requires vs == [] || Covers(root, vs, names)
    requires names <= more
    ensures Covers(root, vs, more)
  {
  }

  lemma TypedCovers(f: Formats, root: Value, prop: string, rule: IdRule)
    requires root.VObject?
    ensures Covers(root, TypedPropertyViolations(f, root, prop, rule), {prop})
  {
    TopPlace(root, prop);
    var value := Member(root, prop);
    if value.Some? {
      EntriesSound(f, root, TypedEntry(rule), value.value, [Name(prop)]);
    }
    hide Evaluate, AllEntriesViolations;
  }

  /** The names of the first `k` typed properties. */
  function TypedNames(k: nat): set<string>
    requires k <= |TYPED_PROPERTIES|
  {
    set j | 0 <= j < k :: TYPED_PROPERTIES[j].0
  }

  lemma TypedNamesDiffer(i: nat, j: nat)
    requires i < j < |TYPED_PROPERTIES|
    ensures TYPED_PROPERTIES[i].0 != TYPED_PROPERTIES[j].0
  {
    assert "credentialStatus"[11] != "credentialSchema"[11];
  }

  lemma {:induction false} TypedPropertiesCover(f: Formats, root: Value, k: nat)
    requires root.VObject? && k <= |TYPED_PROPERTIES|
    ensures Covers(root, TypedPropertiesViolations(f, root, k), TypedNames(k))
  {
    if k > 0 {
      var (prop, rule) := TYPED_PROPERTIES[k - 1];
      TypedPropertiesCover(f, root, k - 1);
      TypedCovers(f, root, prop, rule);
      forall j | 0 <= j < k - 1 ensures TYPED_PROPERTIES[j].0 != prop {
        TypedNamesDiffer(j, k - 1);
      }
      hide Covers, TypedPropertyViolations;
      CoversConcat(root, TypedPropertiesViolations(f, root, k - 1), TypedPropertyViolations(f, root, prop, rule),
                   TypedNames(k - 1), {prop});
      assert TypedNames(k) == TypedNames(k - 1) + {prop};
    }
  }

  lemma TypedNamesAre()
    ensures TypedNames(|TYPED_PROPERTIES|) == {"credentialStatus", "proof", "termsOfUse", "evidence", "credentialSchema"}
  {
    assert TYPED_PROPERTIES[0].0 == "credentialStatus" && TYPED_PROPERTIES[1].0 == "proof";
    assert TYPED_PROPERTIES[2].0 == "termsOfUse" && TYPED_PROPERTIES[3].0 == "evidence";
    assert TYPED_PROPERTIES[4].0 == "credentialSchema";
  }

  lemma SixParts(root: Value, a: seq<Violation>, b: seq<Violation>, c: seq<Violation>,
                 d: seq<Violation>, e: seq<Violation>, g: seq<Violation>)
    requires Covers(root, a, {"@context"}) && Covers(root, b, {"type"}) && Covers(root, c, {"credentialSubject"})
    requires Covers(root, d, {"issuer"})
    requires Covers(root, e, {"issuanceDate", "expirationDate", "validFrom", "validUntil"})
    requires Covers(root, g, {"credentialStatus", "proof", "termsOfUse", "evidence", "credentialSchema"})
    ensures Sound(root, a + b + c + d + e + g)
  {
    var dates := {"issuanceDate", "expirationDate", "validFrom", "validUntil"};
    var typed := {"credentialStatus", "proof", "termsOfUse", "evidence", "credentialSchema"};
    var front := {"@context", "type", "credentialSubject", "issuer"};
    FirstFour(root, a, b, c, d);
    assert front !! dates && (front + dates) !! typed by {
      assert "@context"[0] != "evidence"[0] && "validUntil"[0] != "termsOfUse"[0];
    }
    hide Covers;
    CoversConcat(root, a + b + c + d, e, front, dates);
    CoversConcat(root, a + b + c + d + e, g, front + dates, typed);
    CoversIsSound(root, a + b + c + d + e + g, front + dates + typed);
  }

  lemma FirstFour(root: Value, a: seq<Violation>, b: seq<Violation>, c: seq<Violation>, d: seq<Violation>)
    requires Covers(root, a, {"@context"}) && Covers(root, b, {"type"}) && Covers(root, c, {"credentialSubject"})
    requires Covers(root, d, {"issuer"})
    ensures Covers(root, a + b + c + d, {"@context", "type", "credentialSubject", "issuer"})
  {
    hide Covers;
    CoversConcat(root, a, b, {"@context"}, {"type"});
    CoversConcat(root, a + b, c, {"@context"} + {"type"}, {"credentialSubject"});
    CoversConcat(root, a + b + c, d, {"@context"} + {"type"} + {"credentialSubject"}, {"issuer"});
    assert {"@context"} + {"type"} + {"credentialSubject"} + {"issuer"} == {"@context", "type", "credentialSubject", "issuer"};
  }

  lemma CoversIsSound(root: Value, vs: seq<Violation>, names: set<string>)
    requires Covers(root, vs, names)
    ensures Sound(root, vs)
  {
  }

  lemma ReportSound(f: Formats, credential: Value)
    requires credential.VObject?
    ensures Sound(credential, Violations(f, credential))
  {
    var a, b := FirstContextViolations(Member(credential, "@context")), TypeViolations(Member(credential, "type"), "VerifiableCredential");
    var c, d := SubjectViolations(f, Member(credential, "credentialSubject")), IssuerViolations(f, Member(credential, "issuer"));
    var e, g := DatesViolations(f, credential), TypedPropertiesViolations(f, credential, |TYPED_PROPERTIES|);
    assert Violations(f, credential) == a + b + c + d + e + g;
    hide *;
    FirstContextCovers(credential);
    TypeCovers(credential);
    SubjectCovers(f, credential);
    IssuerCovers(f, credential);
    DatesCover(f, credential);
    TypedPropertiesCover(f, credential, |TYPED_PROPERTIES|);
    TypedNamesAre();
    SixParts(credential, a, b, c, d, e, g);
  }

  /**
   Read as RFC 6901 pointers, the `instance`s of the check's problems each lead to a
   value of the credential or to a missing member of one of its objects, and no two are the same.
   */
  lemma InstancesResolve(f: Formats, credential: Value, i: nat, j: nat)
    requires credential.VObject? && i < |Violations(f, credential)| && j < |Violations(f, credential)|
    ensures var problems := ProblemsFor(Violations(f, credential));
            && problems[i].instance.Some?
            && Locate(credential, problems[i].instance.value) != Nowhere
            && (problems[i].instance == problems[j].instance ==> i == j)
  {
    ReportSound(f, credential);
    var vs := Violations(f, credential);
    hide Violations, Evaluate, Parse, FormatJsonPointer;
    ParseFormat(vs[i].pointer);
    FormatFaithful(vs[i].pointer, vs[j].pointer);
    assert Evaluate(credential, PlaceOf(vs[i])) != Nowhere;
    assert i < j ==> PlaceOf(vs[i]) != PlaceOf(vs[j]);
    assert j < i ==> PlaceOf(vs[j]) != PlaceOf(vs[i]);
  }

  // ----- what conforming means -----

  /** The two contexts of the data model. */
  ghost predicate V1(url: string) { url == "https://www.w3.org/2018/credentials/v1" }
  ghost predicate V2(url: string) { url == "https://www.w3.org/ns/credentials/v2" }

  /** The context is this string, or an array that begins with it. */
  ghost predicate Leads(context: Option<Value>, url: string) {
    || context == Some(VString(url))
    || (context.Some? && context.value.VArray? && |context.value.items| > 0 && context.value.items[0] == VString(url))
  }

  ghost predicate IsLink(f: Formats, v: Option<Value>) { exists s :: v == Some(VString(s)) && f.url(s) }

  ghost predicate IdConforms(f: Formats, entry: Value, rule: IdRule) {
    match rule
    case Unchecked => true
    case Optional => Member(entry, "id").Some? ==> IsLink(f, Member(entry, "id"))
    case Required => IsLink(f, Member(entry, "id"))
  }

  ghost predicate EntryConforms(f: Formats, rule: EntryRule, entry: Value) {
    && entry.VObject?
    && match rule
       case SubjectEntry => entry.fields != map[] && IdConforms(f, entry, Optional)
       case TypedEntry(id) => StringValues(Member(entry, "type")) != [] && IdConforms(f, entry, id)
  }

  ghost predicate EntriesConform(f: Formats, rule: EntryRule, value: Value) {
    forall entry :: entry in EntriesOf(value) ==> EntryConforms(f, rule, entry)
  }

  ghost predicate ContextConforms(context: Option<Value>) {
    (exists url :: url in StringValues(context) && (V1(url) || V2(url))) ==> exists url :: Leads(context, url) && (V1(url) || V2(url))
  }

  ghost predicate SubjectConforms(f: Formats, subject: Option<Value>) {
    && subject.Some?
    && !subject.value.VNull?
    && EntriesOf(subject.value) != []
    && EntriesConform(f, SubjectEntry, subject.value)
  }

  ghost predicate IssuerConforms(f: Formats, issuer: Option<Value>) {
    IsLink(f, issuer) || (issuer.Some? && issuer.value.VObject? && IsLink(f, Member(issuer.value, "id")))
  }

  ghost predicate DateConforms(f: Formats, credential: Value, prop: string) {
    Member(credential, prop).Some? ==> Member(credential, prop).value.VString? && f.dateTime(Member(credential, prop).value.s)
  }

  ghost predicate DatesConform(f: Formats, credential: Value) {
    forall url :: Leads(Member(credential, "@context"), url) ==>
      && (V1(url) ==>
            && Member(credential, "issuanceDate").Some?
            && DateConforms(f, credential, "issuanceDate")
            && DateConforms(f, credential, "expirationDate"))
      && (V2(url) ==>
            DateConforms(f, credential, "validFrom") && DateConforms(f, credential, "validUntil"))
  }

  ghost predicate TypedConform(f: Formats, credential: Value, prop: string, rule: IdRule) {
    Member(credential, prop).Some? ==> EntriesConform(f, TypedEntry(rule), Member(credential, prop).value)
  }

  /** The structure the VC Data Model asks for, stated without reference to the rules' order or reports. */
  ghost predicate Conforms(f: Formats, credential: Value) {
    && ContextConforms(Member(credential, "@context"))
    && "VerifiableCredential" in StringValues(Member(credential, "type"))
    && SubjectConforms(f, Member(credential, "credentialSubject"))
    && IssuerConforms(f, Member(credential, "issuer"))
    && DatesConform(f, credential)
    && TypedConform(f, credential, "credentialStatus", Optional)
    && TypedConform(f, credential, "proof", Unchecked)
    && TypedConform(f, credential, "termsOfUse", Unchecked)
    && TypedConform(f, credential, "evidence", Optional)
    && TypedConform(f, credential, "credentialSchema", Required)
  }

  lemma EntrySilentIff(f: Formats, rule: EntryRule, entry: Value, pointer: Pointer)
    ensures EntryViolations(f, rule, entry, pointer) == [] <==> EntryConforms(f, rule, entry)
  {
    hide StringValues, Member;
  }

  lemma {:induction false} EntriesSilentIff(f: Formats, rule: EntryRule, value: Value, pointer: Pointer, k: nat)
    requires k <= |EntriesOf(value)|
    ensures EntriesViolations(f, rule, value, pointer, k) == [] <==>
            forall i :: 0 <= i < k ==> EntryConforms(f, rule, EntriesOf(value)[i])
  {
    hide EntryViolations, EntryConforms, EntriesOf;
    if k > 0 {
      EntriesSilentIff(f, rule, value, pointer, k - 1);
      EntrySilentIff(f, rule, EntriesOf(value)[k - 1], EntryPointer(value, pointer, k - 1));
    }
  }

  lemma PropertySilentIff(f: Formats, rule: EntryRule, value: Value, pointer: Pointer)
    ensures AllEntriesViolations(f, rule, value, pointer) == [] <==> EntriesConform(f, rule, value)
  {
    hide EntryConforms, EntriesViolations;
    EntriesSilentIff(f, rule, value, pointer, |EntriesOf(value)|);
  }

  lemma TypedPropertySilentIff(f: Formats, credential: Value, prop: string, rule: IdRule)
    ensures TypedPropertyViolations(f, credential, prop, rule) == [] <==> TypedConform(f, credential, prop, rule)
  {
    hide AllEntriesViolations, EntriesConform;
    if Member(credential, prop).Some? {
      PropertySilentIff(f, TypedEntry(rule), Member(credential, prop).value, [Name(prop)]);
    }
  }

  ghost predicate TypedConformUpTo(f: Formats, credential: Value, k: nat)
    requires k <= |TYPED_PROPERTIES|
  {
    forall j :: 0 <= j < k ==> TypedConform(f, credential, TYPED_PROPERTIES[j].0, TYPED_PROPERTIES[j].1)
  }

  lemma {:induction false} TypedPropertiesSilentIff(f: Formats, credential: Value, k: nat)
    requires k <= |TYPED_PROPERTIES|
    ensures TypedPropertiesViolations(f, credential, k) == [] <==> TypedConformUpTo(f, credential, k)
  {
    hide TypedConform, TypedPropertyViolations;
    if k > 0 {
      TypedPropertiesSilentIff(f, credential, k - 1);
      TypedPropertySilentIff(f, credential, TYPED_PROPERTIES[k - 1].0, TYPED_PROPERTIES[k - 1].1);
    }
  }

  lemma ContextsAre(context: Option<Value>, url: string)
    ensures V1(url) <==> IsV1(Some(VString(url)))
    ensures V2(url) <==> IsV2(Some(VString(url)))
    ensures Leads(context, url) <==> FirstContextEntry(context) == Some(VString(url))
  {
  }

  lemma FirstContextSilentIff(context: Option<Value>)
    ensures FirstContextViolations(context) == [] <==> ContextConforms(context)
  {
    forall url ensures V1(url) || V2(url) <==> IsVcContext(Some(VString(url)))
               ensures Leads(context, url) <==> FirstContextEntry(context) == Some(VString(url)) {
      ContextsAre(context, url);
    }
    assert forall v :: IsVcContext(v) ==> v.Some? && v.value.VString?;
    hide IsVcContext, V1, V2, Leads;
  }

  lemma SubjectSilentIff(f: Formats, subject: Option<Value>)
    ensures SubjectViolations(f, subject) == [] <==> SubjectConforms(f, subject)
  {
    hide AllEntriesViolations, EntriesConform;
    if subject.Some? {
      PropertySilentIff(f, SubjectEntry, subject.value, [Name("credentialSubject")]);
    }
  }

  lemma DatesSilentIff(f: Formats, credential: Value)
    ensures DatesViolations(f, credential) == [] <==> DatesConform(f, credential)
  {
    var context := Member(credential, "@context");
    forall url ensures V1(url) <==> IsV1(Some(VString(url)))
               ensures V2(url) <==> IsV2(Some(VString(url)))
               ensures Leads(context, url) <==> FirstContextEntry(context) == Some(VString(url)) {
      ContextsAre(context, url);
    }
    assert forall v :: IsV1(v) || IsV2(v) ==> v.Some? && v.value.VString?;
    hide Member, FirstContextEntry, IsV1, IsV2, V1, V2, Leads;
    ContextsDiffer(FirstContextEntry(context));
  }

  lemma ContextsDiffer(v: Option<Value>)
    ensures !(IsV1(v) && IsV2(v))
  {
    assert |VC_CONTEXT_V1| != |VC_CONTEXT_V2|;
  }

  lemma IssuerSilentIff(f: Formats, issuer: Option<Value>)
    ensures IssuerViolations(f, issuer) == [] <==> IssuerConforms(f, issuer)
  {
    hide Member;
  }

  lemma TypeSilentIff(type_: Option<Value>)
    ensures TypeViolations(type_, "VerifiableCredential") == [] <==> "VerifiableCredential" in StringValues(type_)
  {
  }

  /** Nothing is reported iff the credential conforms. */
  lemma SilentIffConforms(f: Formats, credential: Value)
    ensures Violations(f, credential) == [] <==> Conforms(f, credential)
  {
    FirstContextSilentIff(Member(credential, "@context"));
    TypeSilentIff(Member(credential, "type"));
    SubjectSilentIff(f, Member(credential, "credentialSubject"));
    IssuerSilentIff(f, Member(credential, "issuer"));
    DatesSilentIff(f, credential);
    TypedPropertiesSilentIff(f, credential, |TYPED_PROPERTIES|);
    hide FirstContextViolations, ContextConforms, TypeViolations, SubjectViolations, SubjectConforms, IssuerViolations, IssuerConforms,
         DatesViolations, DatesConform, TypedPropertiesViolations, TypedConform, StringValues, Member;
    AllFiveTyped(f, credential);
    hide TypedConformUpTo;
  }

  lemma AllFiveTyped(f: Formats, credential: Value)
    ensures TypedConformUpTo(f, credential, |TYPED_PROPERTIES|) <==>
            && TypedConform(f, credential, "credentialStatus", Optional)
            && TypedConform(f, credential, "proof", Unchecked)
            && TypedConform(f, credential, "termsOfUse", Unchecked)
            && TypedConform(f, credential, "evidence", Optional)
            && TypedConform(f, credential, "credentialSchema", Required)
  {
    hide TypedConform;
    assert TYPED_PROPERTIES[0] == ("credentialStatus", Optional) && TYPED_PROPERTIES[1] == ("proof", Unchecked);
    assert TYPED_PROPERTIES[2] == ("termsOfUse", Unchecked) && TYPED_PROPERTIES[3] == ("evidence", Optional);
    assert TYPED_PROPERTIES[4] == ("credentialSchema", Required);
  }
}
