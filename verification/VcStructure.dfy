/**
 The structural rules for a credential. Each rule reports its violations, with the
 place of each, into a sink.
 */
module VcStructure {
  import opened Options
  import opened JsonValues
  import opened JsonPointer
  import R = Results

  datatype Fault =
    | FirstContextNotVc
    | Missing
    | TypeNotIncluded
    | NotUrl
    | NotUrlOrObject
    | NoEntries
    | NotNonEmptyObject
    | NotDateTime
    | NotTypedObject
    | NoType

  datatype Violation = Violation(pointer: Pointer, fault: Fault)

  /** What the URL parser and the date pattern accept. */
  datatype Formats = Formats(url: string -> bool, dateTime: string -> bool)

  predicate IsUrl(f: Formats, v: Option<Value>) { v.Some? && v.value.VString? && f.url(v.value.s) }

  predicate IsDateTime(f: Formats, v: Value) { v.VString? && f.dateTime(v.s) }

  // ----- contexts -----

  const VC_CONTEXT_V1 := "https://www.w3.org/2018/credentials/v1"
  const VC_CONTEXT_V2 := "https://www.w3.org/ns/credentials/v2"

  predicate IsV1(v: Option<Value>) { v == Some(VString(VC_CONTEXT_V1)) }
  predicate IsV2(v: Option<Value>) { v == Some(VString(VC_CONTEXT_V2)) }

  predicate IsVcContext(v: Option<Value>) { IsV1(v) || IsV2(v) }

  function FirstContextEntry(context: Option<Value>): Option<Value> {
    if context.Some? && context.value.VArray? then
      if context.value.items == [] then None else Some(context.value.items[0])
    else context
  }

  predicate IncludesVcContext(context: Option<Value>) {
    exists s :: s in StringValues(context) && IsVcContext(Some(VString(s)))
  }

  // ----- what each rule reports -----

  function FirstContextViolations(context: Option<Value>): seq<Violation> {
    if !IncludesVcContext(context) || IsVcContext(FirstContextEntry(context)) then []
    else if context.value.VArray? then [Violation([Name("@context"), Index(0)], FirstContextNotVc)]
    else [Violation([Name("@context")], FirstContextNotVc)]
  }

  function TypeViolations(type_: Option<Value>, required: string): seq<Violation> {
    if type_.None? then [Violation([Name("type")], Missing)]
    else if required !in StringValues(type_) then [Violation([Name("type")], TypeNotIncluded)]
    else []
  }

  function UrlOrIdObjectViolations(f: Formats, value: Value, pointer: Pointer): seq<Violation> {
    if value.VString? then
      if IsUrl(f, Some(value)) then [] else [Violation(pointer, NotUrl)]
    else if value.VObject? then
      if IsUrl(f, Member(value, "id")) then [] else [Violation(pointer + [Name("id")], NotUrl)]
    else [Violation(pointer, NotUrlOrObject)]
  }

  function IssuerViolations(f: Formats, issuer: Option<Value>): seq<Violation> {
    if issuer.None? then [Violation([Name("issuer")], Missing)]
    else UrlOrIdObjectViolations(f, issuer.value, [Name("issuer")])
  }

  function DateViolations(f: Formats, credential: Value, prop: string): seq<Violation> {
    var value := Member(credential, prop);
    if value.Some? && !IsDateTime(f, value.value) then [Violation([Name(prop)], NotDateTime)] else []
  }

  /** A start date that must be there, and an end date that may. */
  function RequiredStartViolations(f: Formats, credential: Value, start: string, end: string): seq<Violation> {
    (if Member(credential, start).None? then [Violation([Name(start)], Missing)] else []) +
    DateViolations(f, credential, start) +
    DateViolations(f, credential, end)
  }

  function OptionalDatesViolations(f: Formats, credential: Value, start: string, end: string): seq<Violation> {
    DateViolations(f, credential, start) + DateViolations(f, credential, end)
  }

  /** The dates of the version the first context names; none when it names neither. */
  function DatesViolations(f: Formats, credential: Value): seq<Violation> {
    var first := FirstContextEntry(Member(credential, "@context"));
    if IsV1(first) then RequiredStartViolations(f, credential, "issuanceDate", "expirationDate")
    else if IsV2(first) then OptionalDatesViolations(f, credential, "validFrom", "validUntil")
    else []
  }

  /** Whether an entry's `id` is not looked at, must be a URL when present, or must be one always. */
  datatype IdRule = Unchecked | Optional | Required

  datatype EntryRule = SubjectEntry | TypedEntry(id: IdRule)

  function IdViolations(f: Formats, entry: Value, pointer: Pointer, rule: IdRule): seq<Violation> {
    var id := Member(entry, "id");
    if rule == Unchecked then [] else
    if id.None? then (if rule == Required then [Violation(pointer + [Name("id")], Missing)] else [])
    else if IsUrl(f, id) then []
    else [Violation(pointer + [Name("id")], NotUrl)]
  }

  function TypedEntryViolations(f: Formats, entry: Value, pointer: Pointer, rule: IdRule): seq<Violation> {
    if !entry.VObject? then [Violation(pointer, NotTypedObject)]
    else
      (if StringValues(Member(entry, "type")) == [] then [Violation(pointer + [Name("type")], NoType)] else []) +
      IdViolations(f, entry, pointer, rule)
  }

  function SubjectEntryViolations(f: Formats, entry: Value, pointer: Pointer): seq<Violation> {
    if !entry.VObject? || entry.fields == map[] then [Violation(pointer, NotNonEmptyObject)]
    else IdViolations(f, entry, pointer, Optional)
  }

  function EntryViolations(f: Formats, rule: EntryRule, entry: Value, pointer: Pointer): seq<Violation> {
    match rule
    case SubjectEntry => SubjectEntryViolations(f, entry, pointer)
    case TypedEntry(id) => TypedEntryViolations(f, entry, pointer, id)
  }

  /** A single value keeps its pointer; an array's entries get their index appended. */
  function EntryPointer(value: Value, pointer: Pointer, k: nat): Pointer {
    if value.VArray? then pointer + [Index(k)] else pointer
  }

  /** What the first `k` entries of a property report. */
  function EntriesViolations(f: Formats, rule: EntryRule, value: Value, pointer: Pointer, k: nat): seq<Violation>
    requires k <= |EntriesOf(value)|
  {
    if k == 0 then []
    else
      EntriesViolations(f, rule, value, pointer, k - 1) +
      EntryViolations(f, rule, EntriesOf(value)[k - 1], EntryPointer(value, pointer, k - 1))
  }

  function AllEntriesViolations(f: Formats, rule: EntryRule, value: Value, pointer: Pointer): seq<Violation> {
    EntriesViolations(f, rule, value, pointer, |EntriesOf(value)|)
  }

  function SubjectViolationsAt(f: Formats, subject: Option<Value>, pointer: Pointer): seq<Violation> {
    if subject.None? || subject.value.VNull? then [Violation(pointer, Missing)]
    else if subject.value == VArray([]) then [Violation(pointer, NoEntries)]
    else AllEntriesViolations(f, SubjectEntry, subject.value, pointer)
  }

  function SubjectViolations(f: Formats, subject: Option<Value>): seq<Violation> {
    SubjectViolationsAt(f, subject, [Name("credentialSubject")])
  }

  const TYPED_PROPERTIES: seq<(string, IdRule)> :=
    [("credentialStatus", Optional), ("proof", Unchecked), ("termsOfUse", Unchecked),
     ("evidence", Optional), ("credentialSchema", Required)]

  function TypedPropertyViolations(f: Formats, credential: Value, prop: string, rule: IdRule): seq<Violation> {
    var value := Member(credential, prop);
    if value.None? then [] else AllEntriesViolations(f, TypedEntry(rule), value.value, [Name(prop)])
  }

  /** What the first `k` of the typed properties report. */
  function TypedPropertiesViolations(f: Formats, credential: Value, k: nat): seq<Violation>
    requires k <= |TYPED_PROPERTIES|
  {
    if k == 0 then []
    else
      TypedPropertiesViolations(f, credential, k - 1) +
      TypedPropertyViolations(f, credential, TYPED_PROPERTIES[k - 1].0, TYPED_PROPERTIES[k - 1].1)
  }

  function Violations(f: Formats, credential: Value): seq<Violation> {
    FirstContextViolations(Member(credential, "@context")) +
    TypeViolations(Member(credential, "type"), "VerifiableCredential") +
    SubjectViolations(f, Member(credential, "credentialSubject")) +
    IssuerViolations(f, Member(credential, "issuer")) +
    DatesViolations(f, credential) +
    TypedPropertiesViolations(f, credential, |TYPED_PROPERTIES|)
  }

  // ----- the rules as they run -----

  /** Receives the violations of one check. */
  class Report {
    var violations: seq<Violation>

    constructor ()
      ensures violations == []
    {
      violations := [];
    }

    method Add(pointer: Pointer, fault: Fault)
      modifies this
      ensures violations == old(violations) + [Violation(pointer, fault)]
    {
      violations := violations + [Violation(pointer, fault)];
    }
  }

  method CheckFirstContextEntry(context: Option<Value>, report: Report)
    modifies report
    ensures report.violations == old(report.violations) + FirstContextViolations(context)
  {
    if !IncludesVcContext(context) || IsVcContext(FirstContextEntry(context)) {
      return;
    }
    report.Add(if context.value.VArray? then [Name("@context"), Index(0)] else [Name("@context")], FirstContextNotVc);
  }

  method CheckTypeIncludes(type_: Option<Value>, required: string, report: Report)
    modifies report
    ensures report.violations == old(report.violations) + TypeViolations(type_, required)
  {
    if type_.None? {
      report.Add([Name("type")], Missing);
    } else if required !in StringValues(type_) {
      report.Add([Name("type")], TypeNotIncluded);
    }
  }

  method CheckUrlOrIdObject(f: Formats, value: Value, pointer: Pointer, report: Report)
    modifies report
    ensures report.violations == old(report.violations) + UrlOrIdObjectViolations(f, value, pointer)
  {
    match value {
      case VString(_) =>
        if !IsUrl(f, Some(value)) {
          report.Add(pointer, NotUrl);
        }
      case VObject(_) =>
        if !IsUrl(f, Member(value, "id")) {
          report.Add(pointer + [Name("id")], NotUrl);
        }
      case _ =>
        report.Add(pointer, NotUrlOrObject);
    }
  }

  method CheckEntryId(f: Formats, entry: Value, pointer: Pointer, rule: IdRule, report: Report)
    requires rule != Unchecked
    modifies report
    ensures report.violations == old(report.violations) + IdViolations(f, entry, pointer, rule)
  {
    var id := Member(entry, "id");
    if id.None? {
      if rule == Required {
        report.Add(pointer + [Name("id")], Missing);
      }
    } else if !IsUrl(f, id) {
      report.Add(pointer + [Name("id")], NotUrl);
    }
  }

  /** Reports the entry when it is not an object, or its missing type; says whether it is an object. */
  method CheckTypedEntry(entry: Value, pointer: Pointer, report: Report) returns (typed: bool)
    modifies report
    ensures typed == entry.VObject?
    ensures report.violations == old(report.violations) +
            if !typed then [Violation(pointer, NotTypedObject)]
            else if StringValues(Member(entry, "type")) == [] then [Violation(pointer + [Name("type")], NoType)]
            else []
  {
    if !entry.VObject? {
      report.Add(pointer, NotTypedObject);
      return false;
    }
    if StringValues(Member(entry, "type")) == [] {
      report.Add(pointer + [Name("type")], NoType);
    }
    return true;
  }

  /** One subject: a non-empty object, with an `id` that is a URL if it has one. */
  method CheckSubjectEntry(f: Formats, entry: Value, pointer: Pointer, report: Report)
    modifies report
    ensures report.violations == old(report.violations) + SubjectEntryViolations(f, entry, pointer)
  {
    hide IdViolations;
    if !entry.VObject? || entry.fields == map[] {
      report.Add(pointer, NotNonEmptyObject);
      return;
    }
    CheckEntryId(f, entry, pointer, Optional, report);
  }

  method CheckCredentialSubject(f: Formats, subject: Option<Value>, pointer: Pointer, report: Report)
    modifies report
    ensures report.violations == old(report.violations) + SubjectViolationsAt(f, subject, pointer)
  {
    hide SubjectEntryViolations, EntryPointer, EntriesOf;
    if subject.None? || subject.value.VNull? {
      report.Add(pointer, Missing);
      return;
    }
    if subject.value == VArray([]) {
      report.Add(pointer, NoEntries);
      return;
    }
    var value, entries := subject.value, EntriesOf(subject.value);
    for i := 0 to |entries|
      invariant report.violations == old(report.violations) + EntriesViolations(f, SubjectEntry, value, pointer, i)
    {
      CheckSubjectEntry(f, entries[i], EntryPointer(value, pointer, i), report);
    }
  }

  method CheckDateTime(f: Formats, credential: Value, prop: string, report: Report)
    modifies report
    ensures report.violations == old(report.violations) + DateViolations(f, credential, prop)
  {
    var value := Member(credential, prop);
    if value.Some? && !IsDateTime(f, value.value) {
      report.Add([Name(prop)], NotDateTime);
    }
  }

  method CheckDates(f: Formats, credential: Value, report: Report)
    modifies report
    ensures report.violations == old(report.violations) + DatesViolations(f, credential)
  {
    hide DateViolations, Member, FirstContextEntry, IsV1, IsV2;
    var first := FirstContextEntry(Member(credential, "@context"));
    if IsV1(first) {
      CheckRequiredStart(f, credential, "issuanceDate", "expirationDate", report);
    } else if IsV2(first) {
      CheckDateTime(f, credential, "validFrom", report);
      CheckDateTime(f, credential, "validUntil", report);
    }
  }

  method CheckRequiredStart(f: Formats, credential: Value, start: string, end: string, report: Report)
    modifies report
    ensures report.violations == old(report.violations) + RequiredStartViolations(f, credential, start, end)
  {
    hide DateViolations, Member;
    if Member(credential, start).None? {
      report.Add([Name(start)], Missing);
    }
    CheckDateTime(f, credential, start, report);
    CheckDateTime(f, credential, end, report);
  }

  /** One entry of a typed property: it must be a typed object, and its `id` must keep the property's rule. */
  method CheckPropertyEntry(f: Formats, entry: Value, pointer: Pointer, id: IdRule, report: Report)
    modifies report
    ensures report.violations == old(report.violations) + TypedEntryViolations(f, entry, pointer, id)
  {
    hide StringValues;
    var typed := CheckTypedEntry(entry, pointer, report);
    if typed && id != Unchecked {
      CheckEntryId(f, entry, pointer, id, report);
    }
  }

  method CheckPropertyEntries(f: Formats, value: Value, pointer: Pointer, id: IdRule, report: Report)
    modifies report
    ensures report.violations == old(report.violations) + AllEntriesViolations(f, TypedEntry(id), value, pointer)
  {
    hide TypedEntryViolations, EntryPointer, EntriesOf;
    var entries := EntriesOf(value);
    for i := 0 to |entries|
      invariant report.violations == old(report.violations) + EntriesViolations(f, TypedEntry(id), value, pointer, i)
    {
      CheckPropertyEntry(f, entries[i], EntryPointer(value, pointer, i), id, report);
    }
  }

  method CheckTypedProperties(f: Formats, credential: Value, report: Report)
    modifies report
    ensures report.violations == old(report.violations) + TypedPropertiesViolations(f, credential, |TYPED_PROPERTIES|)
  {
    hide AllEntriesViolations, Member;
    for p := 0 to |TYPED_PROPERTIES|
      invariant report.violations == old(report.violations) + TypedPropertiesViolations(f, credential, p)
    {
      var (prop, id) := TYPED_PROPERTIES[p];
      var value := Member(credential, prop);
      if value.Some? {
        CheckPropertyEntries(f, value.value, [Name(prop)], id, report);
      }
    }
  }

  function ProblemsFor(violations: seq<Violation>): (r: seq<R.Problem>)
    ensures |r| == |violations|
    ensures forall k :: 0 <= k < |r| ==>
              r[k].kind == R.MalformedValueError && r[k].instance == Some(FormatJsonPointer(violations[k].pointer))
  {
    seq(|violations|, k requires 0 <= k < |violations| =>
      R.Problem(R.MalformedValueError, "", Some(FormatJsonPointer(violations[k].pointer))))
  }

  const NO_CREDENTIAL := R.Problem(R.MalformedValueError, "No verifiable credential found in subject.", None)

  /** `core.vc-structure`. */
  method VcStructureCheck(f: Formats, credential: Option<Value>) returns (o: R.Outcome)
    ensures o.Success? <==> credential.Some? && credential.value.VObject? && Violations(f, credential.value) == []
    ensures credential.Some? && credential.value.VObject? && o.Failure? ==>
              o.problems == ProblemsFor(Violations(f, credential.value))
    ensures !o.Success? ==> o.Failure?
  {
    hide FirstContextViolations, TypeViolations, SubjectViolationsAt, UrlOrIdObjectViolations, DatesViolations,
         TypedPropertiesViolations, Member;
    if credential.None? || !credential.value.VObject? {
      return R.Failure([NO_CREDENTIAL]);
    }
    var report := new Report();
    CheckFirstContextEntry(Member(credential.value, "@context"), report);
    CheckTypeIncludes(Member(credential.value, "type"), "VerifiableCredential", report);
    CheckCredentialSubject(f, Member(credential.value, "credentialSubject"), [Name("credentialSubject")], report);
    var issuer := Member(credential.value, "issuer");
    if issuer.None? {
      report.Add([Name("issuer")], Missing);
    } else {
      CheckUrlOrIdObject(f, issuer.value, [Name("issuer")], report);
    }
    CheckDates(f, credential.value, report);
    CheckTypedProperties(f, credential.value, report);
    assert report.violations == Violations(f, credential.value);
    o := if report.violations != [] then R.Failure(ProblemsFor(report.violations))
         else R.Success("conforms");
  }
}
