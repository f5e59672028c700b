/** Parsed JSON, and the defensive readings the code takes of it. */
module JsonValues {
  import opened Options

  datatype Value =
    | VNull
    | VBool(b: bool)
    | VNumber(n: real)
    | VString(s: string)
    | VArray(items: seq<Value>)
    | VObject(fields: map<string, Value>)

  /** A member of an object; anything that is not an object has no members. */
  function Member(v: Value, name: string): Option<Value> {
    if v.VObject? && name in v.fields then Some(v.fields[name]) else None
  }

  /** The string values of a term that may be a single string or an array; anything else contributes none. */
  function StringValues(v: Option<Value>): seq<string> {
    match v
    case Some(VString(s)) => [s]
    case Some(VArray(items)) => StringsAmong(items)
    case _ => []
  }

  function StringsAmong(items: seq<Value>): (r: seq<string>)
    ensures forall s :: s in r <==> VString(s) in items
  {
    if items == [] then []
    else (if items[0].VString? then [items[0].s] else []) + StringsAmong(items[1..])
  }

  /** The entries of a property that may hold one value or an array of them. */
  function EntriesOf(v: Value): seq<Value> {
    if v.VArray? then v.items else [v]
  }

  /** Strict equality of two possibly missing values: objects and arrays are never the same one. */
  predicate StrictlyEqual(a: Option<Value>, b: Option<Value>) {
    if a.None? || b.None? then a.None? && b.None?
    else a == b && !a.value.VObject? && !a.value.VArray?
  }

  /** The id of an `issuer` value: a non-empty string, alone or as an object's `id`. */
  function IssuerId(issuer: Option<Value>): Option<string> {
    match issuer
    case Some(VString(s)) => if s != "" then Some(s) else None
    case Some(VObject(_)) =>
      (match Member(issuer.value, "id")
       case Some(VString(id)) => if id != "" then Some(id) else None
       case _ => None)
    case _ => None
  }

  function CredentialIssuerId(credential: Value): Option<string> { IssuerId(Member(credential, "issuer")) }

  // ----- the same, said without these functions -----

  /** The object has this member. */
  ghost predicate Has(v: Value, name: string, member: Value) {
    v.VObject? && name in v.fields && v.fields[name] == member
  }

  ghost predicate Lacks(v: Value, name: string) { !(v.VObject? && name in v.fields) }

  lemma MemberIs(v: Value, name: string)
    ensures forall m :: Member(v, name) == Some(m) <==> Has(v, name, m)
    ensures Member(v, name).None? <==> Lacks(v, name)
  {
  }

  /** The document says who issued it: by a non-empty string, or an object with a non-empty string for its id. */
  ghost predicate IssuedBy(document: Value, id: string) {
    id != "" && (Has(document, "issuer", VString(id)) ||
                 exists issuer :: Has(document, "issuer", issuer) && Has(issuer, "id", VString(id)))
  }

  lemma IssuerIs(document: Value, id: string)
    ensures IssuedBy(document, id) <==> CredentialIssuerId(document) == Some(id)
  {
    if CredentialIssuerId(document) == Some(id) {
      assert Has(document, "issuer", document.fields["issuer"]);
    }
  }
}
