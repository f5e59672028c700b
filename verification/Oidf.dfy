/**
 The OpenID Federation lookup: a self-signed trust anchor configuration, and a
 statement about the DID signed by the anchor's keys. Raw tokens are cached and
 verified again on every hit.
 */
module Oidf {
  import opened Options
  import opened Strings
  import opened JsonValues
  import opened CacheService

  datatype Alg = ES256 | EdDSA

  type Signature = seq<int>

  /** Decoding and signature mathematics; a decoder or a key import that throws answers None. */
  datatype Crypto = Crypto(
    decode: string -> Option<Value>,
    decodeSignature: string -> Option<Signature>,
    verify: (Alg, Value, string, Signature) -> Option<bool>)

  // ----- one signed token -----

  datatype JwsResult = Valid(payload: Value) | Invalid

  function AlgOf(header: Value): Option<Alg> {
    match Member(header, "alg")
    case Some(VString(name)) => if name == "ES256" then Some(ES256) else if name == "EdDSA" then Some(EdDSA) else None
    case _ => None
  }

  predicate IsCompatible(jwk: Value, alg: Alg) {
    match alg
    case ES256 => Member(jwk, "kty") == Some(VString("EC")) && Member(jwk, "crv") == Some(VString("P-256"))
    case EdDSA => Member(jwk, "kty") == Some(VString("OKP")) && Member(jwk, "crv") == Some(VString("Ed25519"))
  }

  function ObjectsAmong(keys: seq<Value>): (r: seq<Value>)
    ensures forall k :: k in r <==> k in keys && k.VObject?
  {
    if keys == [] then [] else (if keys[0].VObject? then [keys[0]] else []) + ObjectsAmong(keys[1..])
  }

  function JwkSetKeys(jwks: Option<Value>): Option<seq<Value>> {
    if jwks.None? then None
    else
      match Member(jwks.value, "keys")
      case Some(VArray(keys)) => Some(ObjectsAmong(keys))
      case _ => None
  }

  predicate AnyVerifies(c: Crypto, alg: Alg, keys: seq<Value>, data: string, sig: Signature) {
    keys != [] && (c.verify(alg, keys[0], data, sig) == Some(true) || AnyVerifies(c, alg, keys[1..], data, sig))
  }

  /** A token's three decoded parts, when it has them. */
  function DecodeJws(c: Crypto, jws: string): Option<(Value, Value, Signature)> {
    var parts := Split(jws, '.');
    if |parts| != 3 || parts[0] == "" || parts[1] == "" || parts[2] == "" then None
    else
      var header, payload, sig := c.decode(parts[0]), c.decode(parts[1]), c.decodeSignature(parts[2]);
      if header.None? || payload.None? || sig.None? || !header.value.VObject? || !payload.value.VObject? then None
      else Some((header.value, payload.value, sig.value))
  }

  function SignedData(jws: string): string
    requires |Split(jws, '.')| == 3
  {
    Split(jws, '.')[0] + "." + Split(jws, '.')[1]
  }

  function CompatibleKeys(alg: Alg, keys: seq<Value>): (r: seq<Value>)
    ensures forall k :: k in r <==> k in keys && IsCompatible(k, alg)
  {
    if keys == [] then [] else (if IsCompatible(keys[0], alg) then [keys[0]] else []) + CompatibleKeys(alg, keys[1..])
  }

  predicate NamedBy(header: Value, key: Value) { StrictlyEqual(Member(key, "kid"), Member(header, "kid")) }

  function NamedKeys(header: Value, keys: seq<Value>): (r: seq<Value>)
    ensures forall k :: k in r <==> k in keys && NamedBy(header, k)
  {
    if keys == [] then [] else (if NamedBy(header, keys[0]) then [keys[0]] else []) + NamedKeys(header, keys[1..])
  }

  /** The compatible keys the header names, or every compatible key when it names none of them. */
  function Candidates(header: Value, alg: Alg, keys: seq<Value>): seq<Value> {
    var compatible := CompatibleKeys(alg, keys);
    var named := NamedKeys(header, compatible);
    if named != [] then named else compatible
  }

  function VerifyJws(c: Crypto, jws: string, jwks: Option<Value>, typ: Option<string>): JwsResult {
    var decoded := DecodeJws(c, jws);
    if decoded.None? then Invalid
    else
      var (header, payload, sig) := decoded.value;
      if Member(header, "crit").Some? then Invalid
      else if typ.Some? && Member(header, "typ") != Some(VString(typ.value)) then Invalid
      else
        var alg, keys := AlgOf(header), JwkSetKeys(jwks);
        if alg.None? || keys.None? then Invalid
        else
          if AnyVerifies(c, alg.value, Candidates(header, alg.value, keys.value), SignedData(jws), sig) then Valid(payload) else Invalid
  }

  /** The JWK Set holds `key` as an object. */
  ghost predicate HoldsKey(jwks: Option<Value>, key: Value) {
    jwks.Some? && key.VObject? &&
    match Member(jwks.value, "keys")
    case Some(VArray(keys)) => key in keys
    case _ => false
  }

  /** `key` is one the token may be checked with: right type, and named by the header if any right key is. */
  ghost predicate Eligible(jwks: Option<Value>, header: Value, alg: Alg, key: Value) {
    && HoldsKey(jwks, key) && IsCompatible(key, alg)
    && (NamedBy(header, key) ||
        forall other :: HoldsKey(jwks, other) && IsCompatible(other, alg) ==> !NamedBy(header, other))
  }

  /** `payload` is signed in `jws` under one of the set's keys, with an acceptable header. */
  ghost predicate SignedUnder(c: Crypto, jws: string, jwks: Option<Value>, typ: Option<string>, payload: Value) {
    var decoded := DecodeJws(c, jws);
    && decoded.Some? && decoded.value.1 == payload
    && var header, sig := decoded.value.0, decoded.value.2;
       && Member(header, "crit").None?
       && (typ.Some? ==> Member(header, "typ") == Some(VString(typ.value)))
       && AlgOf(header).Some?
       && exists key :: Eligible(jwks, header, AlgOf(header).value, key)
                        && c.verify(AlgOf(header).value, key, SignedData(jws), sig) == Some(true)
  }

  lemma {:induction false} AnyVerifiesExactly(c: Crypto, alg: Alg, keys: seq<Value>, data: string, sig: Signature)
    ensures AnyVerifies(c, alg, keys, data, sig) <==>
            exists key :: key in keys && c.verify(alg, key, data, sig) == Some(true)
  {
    if keys != [] {
      AnyVerifiesExactly(c, alg, keys[1..], data, sig);
      assert forall k :: k in keys <==> k == keys[0] || k in keys[1..];
    }
  }

  lemma KeysExactly(jwks: Option<Value>)
    ensures JwkSetKeys(jwks).Some? ==> forall k :: k in JwkSetKeys(jwks).value <==> HoldsKey(jwks, k)
    ensures JwkSetKeys(jwks).None? ==> forall k :: !HoldsKey(jwks, k)
  {
  }

  lemma CandidatesExactly(header: Value, alg: Alg, jwks: Option<Value>)
    requires JwkSetKeys(jwks).Some?
    ensures forall k :: k in Candidates(header, alg, JwkSetKeys(jwks).value) <==> Eligible(jwks, header, alg, k)
  {
    KeysExactly(jwks);
    var keys := JwkSetKeys(jwks).value;
    var named := NamedKeys(header, CompatibleKeys(alg, keys));
    hide JwkSetKeys, HoldsKey, IsCompatible, NamedBy, CompatibleKeys, NamedKeys;
    assert named != [] ==> named[0] in named;
  }

  /** A token verifies iff it is signed under an eligible key, and then it yields the payload that was signed. */
  lemma VerifyJwsExactly(c: Crypto, jws: string, jwks: Option<Value>, typ: Option<string>, payload: Value)
    ensures VerifyJws(c, jws, jwks, typ) == Valid(payload) <==> SignedUnder(c, jws, jwks, typ, payload)
  {
    var decoded := DecodeJws(c, jws);
    KeysExactly(jwks);
    if decoded.Some? && AlgOf(decoded.value.0).Some? && JwkSetKeys(jwks).Some? {
      var (header, _, sig) := decoded.value;
      var alg, keys := AlgOf(header).value, JwkSetKeys(jwks).value;
      CandidatesExactly(header, alg, jwks);
      AnyVerifiesExactly(c, alg, Candidates(header, alg, keys), SignedData(jws), sig);
    }
    hide Candidates, JwkSetKeys, HoldsKey, AlgOf, AnyVerifies;
  }

  // ----- what is signed, in the words of the documents -----

  /** The text is three parts between two dots. */
  ghost predicate Parts(jws: string, header: string, payload: string, sig: string) {
    && jws == header + "." + payload + "." + sig
    && header != "" && payload != "" && sig != ""
    && '.' !in header && '.' !in payload && '.' !in sig
  }

  ghost predicate KeyFits(key: Value, alg: Alg) {
    match alg
    case ES256 => Has(key, "kty", VString("EC")) && Has(key, "crv", VString("P-256"))
    case EdDSA => Has(key, "kty", VString("OKP")) && Has(key, "crv", VString("Ed25519"))
  }

  ghost predicate KeyIn(jwks: Option<Value>, key: Value) {
    jwks.Some? && key.VObject? && exists keys :: Has(jwks.value, "keys", VArray(keys)) && key in keys
  }

  /** The two have the same `kid`, or both have none; objects and arrays are never the same. */
  ghost predicate SameKid(key: Value, header: Value) {
    || (Lacks(key, "kid") && Lacks(header, "kid"))
    || exists kid :: Has(key, "kid", kid) && Has(header, "kid", kid) && !kid.VObject? && !kid.VArray?
  }

  /** A key of the set that fits the algorithm, and that the header names if it names any such key. */
  ghost predicate MayVerify(jwks: Option<Value>, header: Value, alg: Alg, key: Value) {
    && KeyIn(jwks, key) && KeyFits(key, alg)
    && (SameKid(key, header) || forall other :: KeyIn(jwks, other) && KeyFits(other, alg) ==> !SameKid(other, header))
  }

  function AlgName(alg: Alg): string { if alg == ES256 then "ES256" else "EdDSA" }

  /** The three parts decode, and one of the keys verifies the signature over the first two. */
  ghost predicate SignedParts(c: Crypto, h: string, p: string, s: string, jwks: Option<Value>, typ: Option<string>, payload: Value) {
    && c.decode(p) == Some(payload) && payload.VObject?
    && exists header, sig, alg, key ::
         && c.decode(h) == Some(header) && header.VObject? && c.decodeSignature(s) == Some(sig)
         && Lacks(header, "crit") && (typ.Some? ==> Has(header, "typ", VString(typ.value)))
         && Has(header, "alg", VString(AlgName(alg)))
         && MayVerify(jwks, header, alg, key)
         && c.verify(alg, key, h + "." + p, sig) == Some(true)
  }

  /** `payload` is signed in `jws` under a key of the set. */
  ghost predicate Signed(c: Crypto, jws: string, jwks: Option<Value>, typ: Option<string>, payload: Value) {
    exists h, p, s :: Parts(jws, h, p, s) && SignedParts(c, h, p, s, jwks, typ, payload)
  }

  lemma PartsAre(jws: string, h: string, p: string, s: string)
    ensures Parts(jws, h, p, s) <==> Split(jws, '.') == [h, p, s] && h != "" && p != "" && s != ""
  {
    if Parts(jws, h, p, s) {
      assert jws == h + ['.'] + (p + "." + s) && p + "." + s == p + ['.'] + s;
      SplitFirst(h, '.', p + "." + s);
      SplitFirst(p, '.', s);
      SplitWord(s, '.');
    }
    if Split(jws, '.') == [h, p, s] {
      JoinSplit(jws, '.');
      assert [h, p, s][1..] == [p, s] && [p, s][1..] == [s];
      assert Join([s], '.') == s;
      assert Join([p, s], '.') == p + ['.'] + s;
      assert Join([h, p, s], '.') == h + ['.'] + (p + ['.'] + s);
      assert '.' !in Split(jws, '.')[0] && '.' !in Split(jws, '.')[1] && '.' !in Split(jws, '.')[2];
    }
  }

  lemma FitsIs(key: Value, alg: Alg)
    ensures KeyFits(key, alg) <==> IsCompatible(key, alg)
  {
    MemberIs(key, "kty");
    MemberIs(key, "crv");
    hide Member, Has;
  }

  lemma KidIs(key: Value, header: Value)
    ensures SameKid(key, header) <==> NamedBy(header, key)
  {
  }

  lemma KeyInIs(jwks: Option<Value>, key: Value)
    ensures KeyIn(jwks, key) <==> HoldsKey(jwks, key)
  {
  }

  lemma MayVerifyIs(jwks: Option<Value>, header: Value, alg: Alg, key: Value)
    ensures MayVerify(jwks, header, alg, key) <==> Eligible(jwks, header, alg, key)
  {
    forall k
      ensures KeyIn(jwks, k) <==> HoldsKey(jwks, k)
      ensures KeyFits(k, alg) <==> IsCompatible(k, alg)
      ensures SameKid(k, header) <==> NamedBy(header, k)
    {
      KeyInIs(jwks, k);
      FitsIs(k, alg);
      KidIs(k, header);
    }
    hide KeyIn, HoldsKey, KeyFits, IsCompatible, SameKid, NamedBy;
  }

  lemma AlgIs(header: Value, alg: Alg)
    ensures Has(header, "alg", VString(AlgName(alg))) <==> AlgOf(header) == Some(alg)
  {
    assert "ES256" != "EdDSA" by { assert "ES256"[1] != "EdDSA"[1]; }
  }

  /** Parts that decode are signed iff the code's own reading of the header, the keys and the data says so. */
  lemma SignedPartsAre(c: Crypto, h: string, p: string, s: string, header: Value, sig: Signature,
                       jwks: Option<Value>, typ: Option<string>, payload: Value)
    requires c.decode(h) == Some(header) && c.decode(p) == Some(payload) && c.decodeSignature(s) == Some(sig)
    requires header.VObject? && payload.VObject?
    ensures SignedParts(c, h, p, s, jwks, typ, payload) <==>
            && Member(header, "crit").None?
            && (typ.Some? ==> Member(header, "typ") == Some(VString(typ.value)))
            && AlgOf(header).Some?
            && exists key :: Eligible(jwks, header, AlgOf(header).value, key)
                             && c.verify(AlgOf(header).value, key, h + "." + p, sig) == Some(true)
  {
    MemberIs(header, "crit");
    MemberIs(header, "typ");
    forall alg ensures Has(header, "alg", VString(AlgName(alg))) <==> AlgOf(header) == Some(alg) { AlgIs(header, alg); }
    forall alg, key ensures MayVerify(jwks, header, alg, key) <==> Eligible(jwks, header, alg, key) {
      MayVerifyIs(jwks, header, alg, key);
    }
    hide Has, Lacks, Member, AlgOf, AlgName, MayVerify, Eligible;
  }

  /** What the code takes for signed is signed, and the other way round. */
  lemma SignedExactly(c: Crypto, jws: string, jwks: Option<Value>, typ: Option<string>, payload: Value)
    ensures SignedUnder(c, jws, jwks, typ, payload) <==> Signed(c, jws, jwks, typ, payload)
  {
    forall h, p, s ensures Parts(jws, h, p, s) <==> Split(jws, '.') == [h, p, s] && h != "" && p != "" && s != "" {
      PartsAre(jws, h, p, s);
    }
    hide Parts, Split, SignedParts, Eligible, AlgOf;
    var parts := Split(jws, '.');
    if |parts| == 3 && parts[0] != "" && parts[1] != "" && parts[2] != "" {
      var h, p, s := parts[0], parts[1], parts[2];
      assert parts == [h, p, s];
      assert Parts(jws, h, p, s);
      assert Signed(c, jws, jwks, typ, payload) <==> SignedParts(c, h, p, s, jwks, typ, payload);
      DecodedParts(c, jws, h, p, s, jwks, typ, payload);
    }
  }

  lemma DecodedParts(c: Crypto, jws: string, h: string, p: string, s: string, jwks: Option<Value>, typ: Option<string>, payload: Value)
    requires Split(jws, '.') == [h, p, s] && h != "" && p != "" && s != ""
    ensures SignedUnder(c, jws, jwks, typ, payload) <==> SignedParts(c, h, p, s, jwks, typ, payload)
  {
    var header, sig := c.decode(h), c.decodeSignature(s);
    if header.Some? && sig.Some? && header.value.VObject? && c.decode(p) == Some(payload) && payload.VObject? {
      SignedPartsAre(c, h, p, s, header.value, sig.value, jwks, typ, payload);
    }
    hide Split, Eligible, AlgOf, MayVerify, Member, Has, Lacks;
  }

  // ----- expiry -----

  /** `exp` in seconds when it is a number, or a string of digits, still in the future. */
  function UnexpiredNumericDate(exp: Option<Value>, nowMs: real): Option<real> {
    var seconds :=
      match exp
      case Some(VNumber(n)) => Some(n)
      case Some(VString(s)) => if IsNumeral(s) then Some(NumeralValue(s) as real) else None
      case _ => None;
    if seconds.Some? && seconds.value * 1000.0 > nowMs then seconds else None
  }

  predicate Positive(source: Option<real>) { source.Some? && source.value > 0.0 }

  /** The first of the sources that gives a positive lifetime. */
  predicate FirstPositive(sources: seq<Option<real>>, k: int) {
    && 0 <= k < |sources| && sources[k].Some? && sources[k].value > 0.0
    && forall j :: 0 <= j < k ==> sources[j].None? || sources[j].value <= 0.0
  }

  /** The first source that gives a positive lifetime wins; the default is for when none does. */
  function ResolveTtl(sources: seq<Option<real>>): (ttl: real)
    ensures ttl > 0.0
    ensures ttl == DEFAULT_TTL_MS || Some(ttl) in sources
  {
    if sources == [] then DEFAULT_TTL_MS
    else if Positive(sources[0]) then sources[0].value
    else ResolveTtl(sources[1..])
  }

  lemma {:induction false} FirstPositiveWins(sources: seq<Option<real>>)
    ensures forall k :: FirstPositive(sources, k) ==> ResolveTtl(sources) == sources[k].value
    ensures (forall k :: !FirstPositive(sources, k)) ==> ResolveTtl(sources) == DEFAULT_TTL_MS
  {
    if sources != [] && !Positive(sources[0]) {
      var rest := sources[1..];
      FirstPositiveWins(rest);
      assert forall k :: 0 <= k < |rest| ==> sources[k + 1] == rest[k];
      forall k | FirstPositive(sources, k) ensures k > 0 && FirstPositive(rest, k - 1) {
        forall j | 0 <= j < k - 1 ensures !Positive(rest[j]) {
          assert !Positive(sources[j + 1]);
        }
      }
      forall k | FirstPositive(rest, k) ensures FirstPositive(sources, k + 1) {
        forall j | 0 <= j < k + 1 ensures !Positive(sources[j]) {
          assert j > 0 ==> !Positive(rest[j - 1]);
        }
      }
    } else if sources != [] {
      assert FirstPositive(sources, 0);
    }
  }

  function TtlBoundedByExp(maxAge: Option<real>, exp: real, nowMs: real): (ttl: real)
    ensures ttl <= exp * 1000.0 - nowMs
    ensures exp * 1000.0 > nowMs ==> ttl > 0.0
    ensures ttl <= DEFAULT_TTL_MS || maxAge == Some(ttl) || (maxAge.Some? && ttl < maxAge.value)
  {
    var resolved := ResolveTtl([maxAge]);
    if resolved <= exp * 1000.0 - nowMs then resolved else exp * 1000.0 - nowMs
  }

  /** When an entry written at `writtenAt`, for a token judged at `nowMs`, expires. */
  function KeptUntil(maxAge: Option<real>, exp: real, nowMs: real, writtenAt: real): Option<real> {
    ExpiryOf(Some(TtlBoundedByExp(maxAge, exp, nowMs)), writtenAt)
  }

  /**
   The lifetime is counted from the write, but bounded as of the reading at the top of the lookup. So an
   entry ends no later than its token iff no time passed before the write, or the lifetime wanted is short enough anyway.
   */
  lemma KeptPastExpIff(maxAge: Option<real>, exp: real, nowMs: real, writtenAt: real)
    requires exp * 1000.0 > nowMs
    ensures var until := KeptUntil(maxAge, exp, nowMs, writtenAt);
            && until.Some? && until.value > writtenAt
            && (until.value <= exp * 1000.0 <==> writtenAt <= nowMs || ResolveTtl([maxAge]) <= exp * 1000.0 - writtenAt)
            && until.value - exp * 1000.0 <= writtenAt - nowMs
  {
    var ttl := TtlBoundedByExp(maxAge, exp, nowMs);
    assert KeptUntil(maxAge, exp, nowMs, writtenAt) == Some(writtenAt + ttl);
    hide ResolveTtl;
  }

  /** A token with a second to live, fetched in half a second, is kept half a second too long. */
  lemma KeptPastExp()
    ensures KeptUntil(None, 1.0, 0.0, 500.0) == Some(1500.0)
  {
    assert ResolveTtl([None]) == DEFAULT_TTL_MS;
  }

  // ----- the two statements -----

  const ENTITY_STATEMENT_TYP := "entity-statement+jwt"

  datatype EntityConfiguration = EntityConfiguration(entityId: string, jwks: Option<Value>, fetchEndpoint: string, exp: real)

  function FetchEndpoint(payload: Value): Option<string> {
    match Member(payload, "metadata")
    case None => None
    case Some(metadata) =>
      match Member(metadata, "federation_entity")
      case None => None
      case Some(entity) =>
        match Member(entity, "federation_fetch_endpoint")
        case Some(VString(endpoint)) => if endpoint != "" then Some(endpoint) else None
        case _ => None
  }

  /** A token's payload, unverified. */
  function DecodePayload(c: Crypto, jwt: string): Option<Value> {
    var parts := Split(jwt, '.');
    if |parts| < 2 then None else c.decode(parts[1])
  }

  function VerifyEntityConfiguration(c: Crypto, jwt: string, nowMs: real): Option<EntityConfiguration> {
    var unverified := DecodePayload(c, jwt);
    if unverified.None? then None
    else
      match VerifyJws(c, jwt, Member(unverified.value, "jwks"), Some(ENTITY_STATEMENT_TYP))
      case Invalid => None
      case Valid(payload) =>
        var iss, exp, endpoint := Member(payload, "iss"), UnexpiredNumericDate(Member(payload, "exp"), nowMs), FetchEndpoint(payload);
        if iss.None? || !iss.value.VString? || !StrictlyEqual(iss, Member(payload, "sub")) || exp.None? || endpoint.None? then None
        else Some(EntityConfiguration(iss.value.s, Member(payload, "jwks"), endpoint.value, exp.value))
  }

  function VerifySubordinateStatement(c: Crypto, jwt: string, ec: EntityConfiguration, did: string, nowMs: real): Option<real> {
    match VerifyJws(c, jwt, ec.jwks, Some(ENTITY_STATEMENT_TYP))
    case Invalid => None
    case Valid(payload) =>
      var exp := UnexpiredNumericDate(Member(payload, "exp"), nowMs);
      if Member(payload, "iss") != Some(VString(ec.entityId)) || Member(payload, "sub") != Some(VString(did)) then None
      else exp
  }

  /** An anchor configuration: signed under its own keys, about itself, unexpired, naming the fetch endpoint. */
  ghost predicate Anchor(c: Crypto, jwt: string, nowMs: real, ec: EntityConfiguration) {
    exists payload: Value ::
      && payload.VObject?
      && ec.jwks == (if "jwks" in payload.fields then Some(payload.fields["jwks"]) else None)
      && Signed(c, jwt, ec.jwks, Some("entity-statement+jwt"), payload)
      && Has(payload, "iss", VString(ec.entityId)) && Has(payload, "sub", VString(ec.entityId))
      && NamesEndpoint(payload, ec.fetchEndpoint)
      && Expires(payload, ec.exp) && ec.exp * 1000.0 > nowMs
  }

  ghost predicate NamesEndpoint(payload: Value, endpoint: string) {
    endpoint != "" && exists metadata, entity ::
      && Has(payload, "metadata", metadata) && Has(metadata, "federation_entity", entity)
      && Has(entity, "federation_fetch_endpoint", VString(endpoint))
  }

  /** The payload's `exp` says `seconds`, as a number or in digits. */
  ghost predicate Expires(payload: Value, seconds: real) {
    || Has(payload, "exp", VNumber(seconds))
    || exists s: string :: s != "" && (forall c :: c in s ==> IsDigit(c)) && Has(payload, "exp", VString(s)) && seconds == NumeralValue(s) as real
  }

  /** A statement about `did`: signed under the anchor's keys, issued by the anchor, unexpired. */
  ghost predicate Statement(c: Crypto, jwt: string, ec: EntityConfiguration, did: string, nowMs: real, exp: real) {
    exists payload ::
      && Signed(c, jwt, ec.jwks, Some("entity-statement+jwt"), payload)
      && Has(payload, "iss", VString(ec.entityId)) && Has(payload, "sub", VString(did))
      && Expires(payload, exp) && exp * 1000.0 > nowMs
  }

  lemma DateExactly(payload: Value, nowMs: real, seconds: real)
    ensures UnexpiredNumericDate(Member(payload, "exp"), nowMs) == Some(seconds) <==>
            Expires(payload, seconds) && seconds * 1000.0 > nowMs
  {
    hide NumeralValue;
  }

  lemma EndpointIs(payload: Value, endpoint: string)
    ensures NamesEndpoint(payload, endpoint) <==> FetchEndpoint(payload) == Some(endpoint)
  {
    if FetchEndpoint(payload) == Some(endpoint) {
      var metadata := payload.fields["metadata"];
      var entity := metadata.fields["federation_entity"];
      assert Has(payload, "metadata", metadata) && Has(metadata, "federation_entity", entity);
    }
  }

  /** A verified token carries the one payload it was signed over. */
  lemma OnePayload(c: Crypto, jwt: string, jwks: Option<Value>, typ: Option<string>, payload: Value)
    requires Signed(c, jwt, jwks, typ, payload)
    ensures DecodeJws(c, jwt).Some? && DecodeJws(c, jwt).value.1 == payload && payload.VObject?
    ensures DecodePayload(c, jwt) == Some(payload)
  {
    SignedExactly(c, jwt, jwks, typ, payload);
    hide Signed, Eligible, AlgOf, Member;
  }

  /** The code accepts a configuration iff it is an anchor. */
  lemma ConfigurationExactly(c: Crypto, jwt: string, nowMs: real, ec: EntityConfiguration)
    ensures VerifyEntityConfiguration(c, jwt, nowMs) == Some(ec) <==> Anchor(c, jwt, nowMs, ec)
  {
    var decoded := DecodeJws(c, jwt);
    if decoded.Some? {
      AnchorPayload(c, jwt, nowMs, ec, decoded.value.1);
    } else {
      NothingSigned(c, jwt);
      hide Signed, Has, NamesEndpoint, Expires, FetchEndpoint, Member, UnexpiredNumericDate, DecodePayload;
    }
  }

  lemma NothingSigned(c: Crypto, jwt: string)
    requires DecodeJws(c, jwt).None?
    ensures forall jwks, typ, payload :: !Signed(c, jwt, jwks, typ, payload)
  {
    forall jwks, typ, payload | Signed(c, jwt, jwks, typ, payload) ensures false {
      OnePayload(c, jwt, jwks, typ, payload);
    }
  }

  lemma AnchorPayload(c: Crypto, jwt: string, nowMs: real, ec: EntityConfiguration, payload: Value)
    requires DecodeJws(c, jwt).Some? && DecodeJws(c, jwt).value.1 == payload
    ensures VerifyEntityConfiguration(c, jwt, nowMs) == Some(ec) <==> Anchor(c, jwt, nowMs, ec)
  {
    var jwks := Member(payload, "jwks");
    assert payload.VObject? && DecodePayload(c, jwt) == Some(payload);
    VerifyJwsExactly(c, jwt, jwks, Some(ENTITY_STATEMENT_TYP), payload);
    SignedExactly(c, jwt, jwks, Some(ENTITY_STATEMENT_TYP), payload);
    OnlyThisPayload(c, jwt, jwks, payload);
    DateExactly(payload, nowMs, ec.exp);
    EndpointIs(payload, ec.fetchEndpoint);
    MemberIs(payload, "iss");
    MemberIs(payload, "sub");
    StrictlyEqualStrings(Member(payload, "iss"), Member(payload, "sub"));
    forall other | Signed(c, jwt, ec.jwks, Some("entity-statement+jwt"), other) ensures other == payload {
      OnePayload(c, jwt, ec.jwks, Some("entity-statement+jwt"), other);
    }
    assert jwks == if "jwks" in payload.fields then Some(payload.fields["jwks"]) else None;
    hide VerifyJws, FetchEndpoint, Member, UnexpiredNumericDate, Expires, Signed, SignedUnder, NamesEndpoint, Has, StrictlyEqual, DecodeJws, DecodePayload;
  }

  lemma OnlyThisPayload(c: Crypto, jwt: string, jwks: Option<Value>, payload: Value)
    requires DecodeJws(c, jwt).Some? && DecodeJws(c, jwt).value.1 == payload
    ensures VerifyJws(c, jwt, jwks, Some(ENTITY_STATEMENT_TYP)).Valid? ==>
              VerifyJws(c, jwt, jwks, Some(ENTITY_STATEMENT_TYP)) == Valid(payload)
  {
    hide DecodeJws, Candidates, AlgOf, JwkSetKeys, AnyVerifies;
  }

  lemma StrictlyEqualStrings(a: Option<Value>, b: Option<Value>)
    ensures a.Some? && a.value.VString? ==> (StrictlyEqual(a, b) <==> a == b)
  {
  }

  /** The code accepts a statement iff it is one about the DID under the anchor's keys. */
  lemma StatementExactly(c: Crypto, jwt: string, ec: EntityConfiguration, did: string, nowMs: real, exp: real)
    ensures VerifySubordinateStatement(c, jwt, ec, did, nowMs) == Some(exp) <==> Statement(c, jwt, ec, did, nowMs, exp)
  {
    var decoded := DecodeJws(c, jwt);
    if decoded.Some? {
      StatementPayload(c, jwt, ec, did, nowMs, exp, decoded.value.1);
    } else {
      NothingSigned(c, jwt);
      hide Signed, Has, Expires, Member, UnexpiredNumericDate;
    }
  }

  lemma StatementPayload(c: Crypto, jwt: string, ec: EntityConfiguration, did: string, nowMs: real, exp: real, payload: Value)
    requires DecodeJws(c, jwt).Some? && DecodeJws(c, jwt).value.1 == payload
    ensures VerifySubordinateStatement(c, jwt, ec, did, nowMs) == Some(exp) <==> Statement(c, jwt, ec, did, nowMs, exp)
  {
    VerifyJwsExactly(c, jwt, ec.jwks, Some(ENTITY_STATEMENT_TYP), payload);
    SignedExactly(c, jwt, ec.jwks, Some(ENTITY_STATEMENT_TYP), payload);
    OnlyThisPayload(c, jwt, ec.jwks, payload);
    DateExactly(payload, nowMs, exp);
    MemberIs(payload, "iss");
    MemberIs(payload, "sub");
    forall other | Signed(c, jwt, ec.jwks, Some("entity-statement+jwt"), other) ensures other == payload {
      OnePayload(c, jwt, ec.jwks, Some("entity-statement+jwt"), other);
    }
    hide VerifyJws, Member, UnexpiredNumericDate, Expires, Signed, SignedUnder, Has, DecodeJws;
  }

  // ----- the lookup -----

  datatype HttpAnswer = Response(status: int, body: string, maxAge: Option<real>) | HttpThrew

  /**
   Everything outside: crypto, the anchor fetch and the statement fetch (bodies
   trimmed), the URL builder, and the cache's own clock at each use.
   */
  datatype Env = Env(
    crypto: Crypto,
    fetchAnchor: string -> HttpAnswer,
    fetchStatement: string -> HttpAnswer,
    lookupUrl: (string, string) -> Option<string>,
    date: nat -> real)

  datatype HandlerResult = Found | NotFound | Unchecked

  type Cache = map<string, CacheEntry<Value>>

  function ConfigKey(url: string): string { "oidf:ec:" + url }
  function LookupKey(url: string): string { "oidf:lookup:" + url }

  lemma KeysDiffer(url: string, lookupUrl: string)
    ensures ConfigKey(url) != LookupKey(lookupUrl)
  {
    assert ConfigKey(url)[5] == 'e' && LookupKey(lookupUrl)[5] == 'l';
  }

  predicate Ok(r: HttpAnswer) { r.Response? && 200 <= r.status < 300 }

  /** A cached value that can be a token at all. */
  function TokenOf(cached: Option<Value>): Option<string> {
    match cached
    case Some(VString(s)) => if s != "" then Some(s) else None
    case _ => None
  }

  function ConfigurationFrom(env: Env, cached: Option<Value>, url: string, nowMs: real): Option<EntityConfiguration> {
    var token, fetched := TokenOf(cached), env.fetchAnchor(url);
    var remembered := if token.Some? then VerifyEntityConfiguration(env.crypto, token.value, nowMs) else None;
    if remembered.Some? then remembered
    else if Ok(fetched) then VerifyEntityConfiguration(env.crypto, fetched.body, nowMs)
    else None
  }

  function StatementFrom(env: Env, cached: Option<Value>, url: string, ec: EntityConfiguration, did: string, nowMs: real): HandlerResult {
    var token, fetched := TokenOf(cached), env.fetchStatement(url);
    if token.Some? && VerifySubordinateStatement(env.crypto, token.value, ec, did, nowMs).Some? then Found
    else if fetched.HttpThrew? then Unchecked
    else if fetched.status == 404 then NotFound
    else if Ok(fetched) && VerifySubordinateStatement(env.crypto, fetched.body, ec, did, nowMs).Some? then Found
    else Unchecked
  }

  /** The lookup's answer, from what the cache held and what the network says. */
  function Verdict(env: Env, before: Cache, url: string, did: string, nowMs: real): HandlerResult {
    match ConfigurationFrom(env, Live(before, ConfigKey(url), env.date(0)), url, nowMs)
    case None => Unchecked
    case Some(ec) =>
      match env.lookupUrl(ec.fetchEndpoint, did)
      case None => Unchecked
      case Some(lookupUrl) => StatementFrom(env, Live(before, LookupKey(lookupUrl), env.date(2)), lookupUrl, ec, did, nowMs)
  }

  /** A token that was live in the cache under `key`, or that `fetched` delivered with success. */
  ghost predicate Obtained(before: Cache, key: string, now: real, fetched: HttpAnswer, jwt: string) {
    Live(before, key, now) == Some(VString(jwt)) || (Ok(fetched) && fetched.body == jwt)
  }

  /** A verified anchor for `url`, wherever its token came from. */
  ghost predicate TrustedAnchor(env: Env, before: Cache, url: string, nowMs: real, ec: EntityConfiguration) {
    exists jwt :: Anchor(env.crypto, jwt, nowMs, ec) && Obtained(before, ConfigKey(url), env.date(0), env.fetchAnchor(url), jwt)
  }

  /** A verified statement about `did` under anchor `ec`, from the endpoint the anchor names. */
  ghost predicate TrustedStatement(env: Env, before: Cache, did: string, nowMs: real, ec: EntityConfiguration) {
    exists lookupUrl, jwt, exp ::
      && env.lookupUrl(ec.fetchEndpoint, did) == Some(lookupUrl)
      && Statement(env.crypto, jwt, ec, did, nowMs, exp)
      && Obtained(before, LookupKey(lookupUrl), env.date(2), env.fetchStatement(lookupUrl), jwt)
  }

  lemma ConfigurationTrusted(env: Env, before: Cache, url: string, nowMs: real)
    ensures var ec := ConfigurationFrom(env, Live(before, ConfigKey(url), env.date(0)), url, nowMs);
            ec.Some? ==> TrustedAnchor(env, before, url, nowMs, ec.value)
  {
    var cached := Live(before, ConfigKey(url), env.date(0));
    var ec := ConfigurationFrom(env, cached, url, nowMs);
    if ec.Some? {
      var token := TokenOf(cached);
      var jwt := if token.Some? && VerifyEntityConfiguration(env.crypto, token.value, nowMs).Some? then token.value
                 else env.fetchAnchor(url).body;
      ConfigurationExactly(env.crypto, jwt, nowMs, ec.value);
      hide VerifyEntityConfiguration, Anchor;
      assert Obtained(before, ConfigKey(url), env.date(0), env.fetchAnchor(url), jwt);
    }
  }

  /**
   OIDF soundness, over any cache contents, any server and any clock: an issuer
   is found only through an anchor signed under its own keys, about itself and
   unexpired now, and a statement signed under that anchor's keys, issued by it,
   about the DID and unexpired now. It is reported as not found only by a 404
   from the endpoint a trusted anchor names.
   */
  lemma OidfSound(env: Env, before: Cache, url: string, did: string, nowMs: real)
    ensures Verdict(env, before, url, did, nowMs) == Found ==>
              exists ec :: TrustedAnchor(env, before, url, nowMs, ec) && TrustedStatement(env, before, did, nowMs, ec)
    ensures Verdict(env, before, url, did, nowMs) == NotFound ==>
              exists ec :: TrustedAnchor(env, before, url, nowMs, ec) && env.lookupUrl(ec.fetchEndpoint, did).Some? &&
                var r := env.fetchStatement(env.lookupUrl(ec.fetchEndpoint, did).value); r.Response? && r.status == 404
  {
    hide Anchor, Statement, VerifySubordinateStatement;
    ConfigurationTrusted(env, before, url, nowMs);
    var ec := ConfigurationFrom(env, Live(before, ConfigKey(url), env.date(0)), url, nowMs);
    hide ConfigurationFrom, TrustedAnchor;
    if Verdict(env, before, url, did, nowMs) == Found {
      var lookupUrl := env.lookupUrl(ec.value.fetchEndpoint, did).value;
      var cached := Live(before, LookupKey(lookupUrl), env.date(2));
      var token := TokenOf(cached);
      var jwt := if token.Some? && VerifySubordinateStatement(env.crypto, token.value, ec.value, did, nowMs).Some? then token.value
                 else env.fetchStatement(lookupUrl).body;
      var exp := VerifySubordinateStatement(env.crypto, jwt, ec.value, did, nowMs).value;
      StatementExactly(env.crypto, jwt, ec.value, did, nowMs, exp);
      hide VerifySubordinateStatement, Statement;
      assert Obtained(before, LookupKey(lookupUrl), env.date(2), env.fetchStatement(lookupUrl), jwt);
      assert TrustedStatement(env, before, did, nowMs, ec.value);
    }
  }

  // ----- the verdict, exactly -----

  /** The cache holds a live token under `key`. */
  ghost predicate LiveToken(before: Cache, key: string, now: real, jwt: string) {
    && key in before && before[key].value == VString(jwt)
    && (before[key].expiresAt.Some? ==> now <= before[key].expiresAt.value)
  }

  /** The server answered with success and this body. */
  ghost predicate Answered(r: HttpAnswer, jwt: string) {
    r.Response? && 200 <= r.status && r.status < 300 && r.body == jwt
  }

  ghost predicate CachedAnchor(env: Env, before: Cache, url: string, nowMs: real, ec: EntityConfiguration) {
    exists jwt :: LiveToken(before, "oidf:ec:" + url, env.date(0), jwt) && Anchor(env.crypto, jwt, nowMs, ec)
  }

  /** The anchor in force: the live cached one if its token still is an anchor, otherwise the one fetched. */
  ghost predicate InForce(env: Env, before: Cache, url: string, nowMs: real, ec: EntityConfiguration) {
    || CachedAnchor(env, before, url, nowMs, ec)
    || (&& (forall other :: !CachedAnchor(env, before, url, nowMs, other))
        && exists jwt :: Answered(env.fetchAnchor(url), jwt) && Anchor(env.crypto, jwt, nowMs, ec))
  }

  ghost predicate CachedStatement(env: Env, before: Cache, lookupUrl: string, ec: EntityConfiguration, did: string, nowMs: real) {
    exists jwt, exp ::
      LiveToken(before, "oidf:lookup:" + lookupUrl, env.date(2), jwt) && Statement(env.crypto, jwt, ec, did, nowMs, exp)
  }

  ghost predicate FetchedStatement(env: Env, lookupUrl: string, ec: EntityConfiguration, did: string, nowMs: real) {
    exists jwt, exp :: Answered(env.fetchStatement(lookupUrl), jwt) && Statement(env.crypto, jwt, ec, did, nowMs, exp)
  }

  /** The anchor in force vouches for the DID, by a live or a fetched statement. */
  ghost predicate Vouched(env: Env, before: Cache, url: string, did: string, nowMs: real) {
    exists ec, lookupUrl ::
      && InForce(env, before, url, nowMs, ec) && env.lookupUrl(ec.fetchEndpoint, did) == Some(lookupUrl)
      && (CachedStatement(env, before, lookupUrl, ec, did, nowMs) || FetchedStatement(env, lookupUrl, ec, did, nowMs))
  }

  /** No live statement, and the endpoint that the anchor in force names answers 404. */
  ghost predicate Unlisted(env: Env, before: Cache, url: string, did: string, nowMs: real) {
    exists ec, lookupUrl ::
      && InForce(env, before, url, nowMs, ec) && env.lookupUrl(ec.fetchEndpoint, did) == Some(lookupUrl)
      && !CachedStatement(env, before, lookupUrl, ec, did, nowMs)
      && env.fetchStatement(lookupUrl).Response? && env.fetchStatement(lookupUrl).status == 404
  }

  lemma EmptyTokenIsNone(c: Crypto, nowMs: real, ec: EntityConfiguration, did: string)
    ensures VerifyEntityConfiguration(c, "", nowMs).None?
    ensures VerifySubordinateStatement(c, "", ec, did, nowMs).None?
  {
    assert Split("", '.') == [""];
    hide Member, FetchEndpoint, UnexpiredNumericDate;
  }

  lemma TokenIsLive(before: Cache, key: string, now: real, jwt: string)
    ensures LiveToken(before, key, now, jwt) && jwt != "" <==> TokenOf(Live(before, key, now)) == Some(jwt)
  {
  }

  lemma CachedAnchorIs(env: Env, before: Cache, url: string, nowMs: real, ec: EntityConfiguration)
    ensures var token := TokenOf(Live(before, ConfigKey(url), env.date(0)));
            CachedAnchor(env, before, url, nowMs, ec) <==>
            token.Some? && VerifyEntityConfiguration(env.crypto, token.value, nowMs) == Some(ec)
  {
    var now, token := env.date(0), TokenOf(Live(before, ConfigKey(url), env.date(0)));
    assert ConfigKey(url) == "oidf:ec:" + url;
    hide ConfigKey, Anchor, VerifyEntityConfiguration, LiveToken, TokenOf;
    EmptyTokenIsNone(env.crypto, nowMs, ec, "");
    if token.Some? {
      TokenIsLive(before, ConfigKey(url), now, token.value);
      ConfigurationExactly(env.crypto, token.value, nowMs, ec);
    }
    if jwt :| LiveToken(before, "oidf:ec:" + url, now, jwt) && Anchor(env.crypto, jwt, nowMs, ec) {
      TokenIsLive(before, ConfigKey(url), now, jwt);
      ConfigurationExactly(env.crypto, jwt, nowMs, ec);
    }
  }

  /** The configuration the code works with is the anchor in force. */
  lemma InForceIs(env: Env, before: Cache, url: string, nowMs: real, ec: EntityConfiguration)
    ensures InForce(env, before, url, nowMs, ec) <==>
            ConfigurationFrom(env, Live(before, ConfigKey(url), env.date(0)), url, nowMs) == Some(ec)
  {
    hide Anchor, VerifyEntityConfiguration;
    var token, fetched := TokenOf(Live(before, ConfigKey(url), env.date(0))), env.fetchAnchor(url);
    forall other { CachedAnchorIs(env, before, url, nowMs, other); }
    if fetched.Response? {
      ConfigurationExactly(env.crypto, fetched.body, nowMs, ec);
    }
    hide CachedAnchor, TokenOf, ConfigKey;
    if token.Some? && VerifyEntityConfiguration(env.crypto, token.value, nowMs).Some? {
      assert CachedAnchor(env, before, url, nowMs, VerifyEntityConfiguration(env.crypto, token.value, nowMs).value);
    }
  }

  lemma CachedStatementIs(env: Env, before: Cache, lookupUrl: string, ec: EntityConfiguration, did: string, nowMs: real)
    ensures var token := TokenOf(Live(before, LookupKey(lookupUrl), env.date(2)));
            CachedStatement(env, before, lookupUrl, ec, did, nowMs) <==>
            token.Some? && VerifySubordinateStatement(env.crypto, token.value, ec, did, nowMs).Some?
  {
    var now, token := env.date(2), TokenOf(Live(before, LookupKey(lookupUrl), env.date(2)));
    assert LookupKey(lookupUrl) == "oidf:lookup:" + lookupUrl;
    hide LookupKey, Statement, VerifySubordinateStatement, LiveToken, TokenOf;
    EmptyTokenIsNone(env.crypto, nowMs, ec, did);
    if token.Some? {
      TokenIsLive(before, LookupKey(lookupUrl), now, token.value);
      StatementSome(env.crypto, token.value, ec, did, nowMs);
    }
    if jwt, exp :| LiveToken(before, "oidf:lookup:" + lookupUrl, now, jwt) && Statement(env.crypto, jwt, ec, did, nowMs, exp) {
      TokenIsLive(before, LookupKey(lookupUrl), now, jwt);
      StatementSome(env.crypto, jwt, ec, did, nowMs);
    }
  }

  lemma StatementSome(c: Crypto, jwt: string, ec: EntityConfiguration, did: string, nowMs: real)
    ensures VerifySubordinateStatement(c, jwt, ec, did, nowMs).Some? <==> exists exp :: Statement(c, jwt, ec, did, nowMs, exp)
  {
    forall exp ensures VerifySubordinateStatement(c, jwt, ec, did, nowMs) == Some(exp) <==> Statement(c, jwt, ec, did, nowMs, exp) {
      StatementExactly(c, jwt, ec, did, nowMs, exp);
    }
    hide VerifySubordinateStatement, Statement;
  }

  lemma FetchedStatementIs(env: Env, lookupUrl: string, ec: EntityConfiguration, did: string, nowMs: real)
    ensures var r := env.fetchStatement(lookupUrl);
            FetchedStatement(env, lookupUrl, ec, did, nowMs) <==>
            Ok(r) && VerifySubordinateStatement(env.crypto, r.body, ec, did, nowMs).Some?
  {
    var r := env.fetchStatement(lookupUrl);
    hide VerifySubordinateStatement, Statement;
    if r.Response? {
      StatementSome(env.crypto, r.body, ec, did, nowMs);
    }
  }

  /** What the answer for a lookup URL rests on, under the anchor `ec`. */
  lemma StatementFromExactly(env: Env, before: Cache, lookupUrl: string, ec: EntityConfiguration, did: string, nowMs: real)
    ensures var r := StatementFrom(env, Live(before, LookupKey(lookupUrl), env.date(2)), lookupUrl, ec, did, nowMs);
            var cached := CachedStatement(env, before, lookupUrl, ec, did, nowMs);
            && (r == Found <==> cached || FetchedStatement(env, lookupUrl, ec, did, nowMs))
            && (r == NotFound <==> !cached && env.fetchStatement(lookupUrl).Response? && env.fetchStatement(lookupUrl).status == 404)
  {
    CachedStatementIs(env, before, lookupUrl, ec, did, nowMs);
    FetchedStatementIs(env, lookupUrl, ec, did, nowMs);
    hide CachedStatement, FetchedStatement, TokenOf, VerifySubordinateStatement, LookupKey;
  }

  /**
   The verdict, in both directions: found iff the anchor in force vouches for the DID by a live or fetched
   statement; not found iff there is no live statement and its endpoint answers 404; unchecked in every other case,
   when there is no anchor in force or no lookup URL among them.
   */
  lemma VerdictExactly(env: Env, before: Cache, url: string, did: string, nowMs: real)
    ensures Verdict(env, before, url, did, nowMs) == Found <==> Vouched(env, before, url, did, nowMs)
    ensures Verdict(env, before, url, did, nowMs) == NotFound <==> Unlisted(env, before, url, did, nowMs)
  {
    hide Anchor, Statement;
    var found := ConfigurationFrom(env, Live(before, ConfigKey(url), env.date(0)), url, nowMs);
    forall ec { InForceIs(env, before, url, nowMs, ec); }
    hide ConfigurationFrom, InForce, ConfigKey, LookupKey, CachedStatement, FetchedStatement, StatementFrom;
    if found.Some? && env.lookupUrl(found.value.fetchEndpoint, did).Some? {
      StatementFromExactly(env, before, env.lookupUrl(found.value.fetchEndpoint, did).value, found.value, did, nowMs);
    }
  }

  // ----- what is written -----

  /** An entry for a token that verified, kept from its write for a positive time within what the token had left at `nowMs`. */
  ghost predicate BoundedEntry(entry: CacheEntry<Value>, jwt: string, exp: real, nowMs: real, writtenAt: real) {
    && entry.value == VString(jwt)
    && entry.expiresAt.Some?
    && 0.0 < entry.expiresAt.value - writtenAt <= exp * 1000.0 - nowMs
  }

  ghost predicate AnchorEntry(env: Env, entry: CacheEntry<Value>, nowMs: real) {
    exists jwt, ec :: Anchor(env.crypto, jwt, nowMs, ec) && BoundedEntry(entry, jwt, ec.exp, nowMs, env.date(1))
  }

  ghost predicate StatementEntry(env: Env, entry: CacheEntry<Value>, ec: EntityConfiguration, did: string, nowMs: real) {
    exists jwt, exp :: Statement(env.crypto, jwt, ec, did, nowMs, exp) && BoundedEntry(entry, jwt, exp, nowMs, env.date(3))
  }

  /** Nothing was added but a verified anchor under its key. */
  ghost predicate AnchorWrites(env: Env, before: Cache, after: Cache, url: string, nowMs: real) {
    forall k :: k in after ==>
      (k in before && before[k] == after[k]) || (k == ConfigKey(url) && AnchorEntry(env, after[k], nowMs))
  }

  /** Nothing was added but a verified anchor and a verified statement, each under its key. */
  ghost predicate SoundWrites(env: Env, before: Cache, after: Cache, url: string, did: string, nowMs: real) {
    forall k :: k in after ==>
      || (k in before && before[k] == after[k])
      || (k == ConfigKey(url) && AnchorEntry(env, after[k], nowMs))
      || (exists ec, lookupUrl ::
            && TrustedAnchor(env, before, url, nowMs, ec)
            && env.lookupUrl(ec.fetchEndpoint, did) == Some(lookupUrl)
            && k == LookupKey(lookupUrl)
            && StatementEntry(env, after[k], ec, did, nowMs))
  }

  /** Storing a token that expires in the future bounds the entry by the token. */
  lemma StoredEntryBounded(jwt: string, maxAge: Option<real>, exp: real, nowMs: real, writtenAt: real)
    requires exp * 1000.0 > nowMs
    ensures BoundedEntry(CacheEntry(VString(jwt), KeptUntil(maxAge, exp, nowMs, writtenAt)),
                         jwt, exp, nowMs, writtenAt)
  {
    var ttl := TtlBoundedByExp(maxAge, exp, nowMs);
    hide ResolveTtl, TtlBoundedByExp;
    assert ExpiryOf(Some(ttl), writtenAt).value - writtenAt == ttl;
  }

  /** The cache once a key has been read: an expired entry is gone. */
  function AfterRead(cache: Cache, key: string, now: real): Cache {
    if Live(cache, key, now).None? then cache - {key} else cache
  }

  /** The cache after the anchor was looked up. */
  function AnchorCache(env: Env, before: Cache, url: string, nowMs: real): Cache {
    var key, fetched := ConfigKey(url), env.fetchAnchor(url);
    var token, read := TokenOf(Live(before, key, env.date(0))), AfterRead(before, key, env.date(0));
    if token.Some? && VerifyEntityConfiguration(env.crypto, token.value, nowMs).Some? then read
    else if !Ok(fetched) then read
    else
      match VerifyEntityConfiguration(env.crypto, fetched.body, nowMs)
      case None => read
      case Some(ec) => read[key := CacheEntry(VString(fetched.body), KeptUntil(fetched.maxAge, ec.exp, nowMs, env.date(1)))]
  }

  /** The cache after the statement was looked up, under the anchor `ec`. */
  function StatementCache(env: Env, before: Cache, lookupUrl: string, ec: EntityConfiguration, did: string, nowMs: real): Cache {
    var key, fetched := LookupKey(lookupUrl), env.fetchStatement(lookupUrl);
    var token, read := TokenOf(Live(before, key, env.date(2))), AfterRead(before, key, env.date(2));
    if token.Some? && VerifySubordinateStatement(env.crypto, token.value, ec, did, nowMs).Some? then read
    else if !Ok(fetched) then read
    else
      match VerifySubordinateStatement(env.crypto, fetched.body, ec, did, nowMs)
      case None => read
      case Some(exp) => read[key := CacheEntry(VString(fetched.body), KeptUntil(fetched.maxAge, exp, nowMs, env.date(3)))]
  }

  /** The cache after a lookup. */
  function LookupCache(env: Env, before: Cache, url: string, did: string, nowMs: real): Cache {
    var between := AnchorCache(env, before, url, nowMs);
    match ConfigurationFrom(env, Live(before, ConfigKey(url), env.date(0)), url, nowMs)
    case None => between
    case Some(ec) =>
      match env.lookupUrl(ec.fetchEndpoint, did)
      case None => between
      case Some(lookupUrl) => StatementCache(env, between, lookupUrl, ec, did, nowMs)
  }

  /** A fetched anchor is kept, until its token expires as of this lookup at most; without one, only an expired entry goes. */
  lemma AnchorIsKept(env: Env, before: Cache, url: string, nowMs: real)
    ensures var (after, read) := (AnchorCache(env, before, url, nowMs), AfterRead(before, ConfigKey(url), env.date(0)));
            && ((exists ec :: CachedAnchor(env, before, url, nowMs, ec)) || (forall ec :: !InForce(env, before, url, nowMs, ec)) ==> after == read)
            && (forall ec :: InForce(env, before, url, nowMs, ec) && !CachedAnchor(env, before, url, nowMs, ec) ==>
                  var fetched := env.fetchAnchor(url);
                  && fetched.Response?
                  && after == read[ConfigKey(url) := CacheEntry(VString(fetched.body), KeptUntil(fetched.maxAge, ec.exp, nowMs, env.date(1)))])
  {
    hide Anchor, VerifyEntityConfiguration, KeptUntil, ConfigKey;
    forall ec { InForceIs(env, before, url, nowMs, ec); }
    forall ec { CachedAnchorIs(env, before, url, nowMs, ec); }
    hide InForce, CachedAnchor, TokenOf, AfterRead;
    var token := TokenOf(Live(before, ConfigKey(url), env.date(0)));
    if token.Some? && VerifyEntityConfiguration(env.crypto, token.value, nowMs).Some? {
      assert CachedAnchor(env, before, url, nowMs, VerifyEntityConfiguration(env.crypto, token.value, nowMs).value);
    }
  }

  /** A fetched statement is kept likewise. */
  lemma StatementIsKept(env: Env, before: Cache, lookupUrl: string, ec: EntityConfiguration, did: string, nowMs: real)
    ensures var (after, read) := (StatementCache(env, before, lookupUrl, ec, did, nowMs), AfterRead(before, LookupKey(lookupUrl), env.date(2)));
            var fetched := env.fetchStatement(lookupUrl);
            && (CachedStatement(env, before, lookupUrl, ec, did, nowMs) || !FetchedStatement(env, lookupUrl, ec, did, nowMs) ==> after == read)
            && (!CachedStatement(env, before, lookupUrl, ec, did, nowMs) && FetchedStatement(env, lookupUrl, ec, did, nowMs) ==>
                  exists exp ::
                    && Statement(env.crypto, fetched.body, ec, did, nowMs, exp)
                    && after == read[LookupKey(lookupUrl) :=
                                     CacheEntry(VString(fetched.body), KeptUntil(fetched.maxAge, exp, nowMs, env.date(3)))])
  {
    hide Statement, VerifySubordinateStatement, KeptUntil, LookupKey;
    CachedStatementIs(env, before, lookupUrl, ec, did, nowMs);
    FetchedStatementIs(env, lookupUrl, ec, did, nowMs);
    var fetched := env.fetchStatement(lookupUrl);
    hide CachedStatement, FetchedStatement, TokenOf, AfterRead;
    if fetched.Response? && VerifySubordinateStatement(env.crypto, fetched.body, ec, did, nowMs).Some? {
      StatementExactly(env.crypto, fetched.body, ec, did, nowMs,
                       VerifySubordinateStatement(env.crypto, fetched.body, ec, did, nowMs).value);
    }
  }

  method GetVerifiedEntityConfiguration(env: Env, cache: InMemoryCache<string, Value>, url: string, nowMs: real)
    returns (ec: Option<EntityConfiguration>)
    modifies cache
    ensures ec == ConfigurationFrom(env, Live(old(cache.entries), ConfigKey(url), env.date(0)), url, nowMs)
    ensures cache.entries == AnchorCache(env, old(cache.entries), url, nowMs)
    ensures AnchorWrites(env, old(cache.entries), cache.entries, url, nowMs)
    ensures forall k :: k != ConfigKey(url) ==> (k in cache.entries <==> k in old(cache.entries))
  {
    hide VerifyEntityConfiguration, Anchor;
    var cached := cache.Get(ConfigKey(url), env.date(0));
    var token := TokenOf(cached);
    if token.Some? {
      ec := VerifyEntityConfiguration(env.crypto, token.value, nowMs);
      if ec.Some? {
        return;
      }
    }
    var fetched := env.fetchAnchor(url);
    if !Ok(fetched) {
      return None;
    }
    ec := VerifyEntityConfiguration(env.crypto, fetched.body, nowMs);
    if ec.None? {
      return;
    }
    ConfigurationExactly(env.crypto, fetched.body, nowMs, ec.value);
    AnchorUnexpired(env.crypto, fetched.body, nowMs, ec.value);
    var ttl := TtlBoundedByExp(fetched.maxAge, ec.value.exp, nowMs);
    cache.Set(ConfigKey(url), VString(fetched.body), Some(ttl), env.date(1));
    StoredEntryBounded(fetched.body, fetched.maxAge, ec.value.exp, nowMs, env.date(1));
  }

  lemma AnchorUnexpired(c: Crypto, jwt: string, nowMs: real, ec: EntityConfiguration)
    requires Anchor(c, jwt, nowMs, ec)
    ensures ec.exp * 1000.0 > nowMs
  {
    hide Signed, Expires, NamesEndpoint, Has;
  }

  lemma StatementUnexpired(c: Crypto, jwt: string, ec: EntityConfiguration, did: string, nowMs: real, exp: real)
    requires Statement(c, jwt, ec, did, nowMs, exp)
    ensures exp * 1000.0 > nowMs
  {
    hide Signed, Expires, Has;
  }

  /**
   One lookup against one registry, at one reading of the clock. Its answer is
   the verdict over what the cache held before, and whatever it leaves in the
   cache verified first and has a positive lifetime within what the token had left when the lookup began, so the
   cache's reading of a non-positive lifetime as "for ever" is never reached.
   */
  method LookupOidf(env: Env, cache: InMemoryCache<string, Value>, url: string, did: string, nowMs: real)
    returns (r: HandlerResult)
    modifies cache
    ensures r == Verdict(env, old(cache.entries), url, did, nowMs)
    ensures cache.entries == LookupCache(env, old(cache.entries), url, did, nowMs)
    ensures SoundWrites(env, old(cache.entries), cache.entries, url, did, nowMs)
  {
    hide VerifySubordinateStatement, Statement, ConfigurationFrom, AnchorEntry, TrustedAnchor, BoundedEntry;
    ghost var before := cache.entries;
    ConfigurationTrusted(env, before, url, nowMs);
    var ec := GetVerifiedEntityConfiguration(env, cache, url, nowMs);
    ghost var between := cache.entries;
    if ec.None? {
      return Unchecked;
    }
    var built := env.lookupUrl(ec.value.fetchEndpoint, did);
    if built.None? {
      return Unchecked;
    }
    var lookupUrl := built.value;
    KeysDiffer(url, lookupUrl);
    assert LookupKey(lookupUrl) in between ==> between[LookupKey(lookupUrl)] == before[LookupKey(lookupUrl)];
    var cached := cache.Get(LookupKey(lookupUrl), env.date(2));
    assert cached == Live(before, LookupKey(lookupUrl), env.date(2));
    var token := TokenOf(cached);
    if token.Some? && VerifySubordinateStatement(env.crypto, token.value, ec.value, did, nowMs).Some? {
      return Found;
    }
    var fetched := env.fetchStatement(lookupUrl);
    if fetched.HttpThrew? {
      return Unchecked;
    }
    if fetched.status == 404 {
      return NotFound;
    }
    if !Ok(fetched) {
      return Unchecked;
    }
    var exp := VerifySubordinateStatement(env.crypto, fetched.body, ec.value, did, nowMs);
    if exp.None? {
      return Unchecked;
    }
    StoreStatement(env, cache, before, url, lookupUrl, fetched, ec.value, did, exp.value, nowMs);
    r := Found;
  }

  lemma AddStatement(env: Env, before: Cache, after: Cache, url: string, lookupUrl: string,
                     entry: CacheEntry<Value>, ec: EntityConfiguration, did: string, nowMs: real)
    requires SoundWrites(env, before, after, url, did, nowMs)
    requires TrustedAnchor(env, before, url, nowMs, ec) && env.lookupUrl(ec.fetchEndpoint, did) == Some(lookupUrl)
    requires StatementEntry(env, entry, ec, did, nowMs)
    ensures SoundWrites(env, before, after[LookupKey(lookupUrl) := entry], url, did, nowMs)
  {
    hide StatementEntry, TrustedAnchor, AnchorEntry, LookupKey, ConfigKey;
  }

  method StoreStatement(env: Env, cache: InMemoryCache<string, Value>, ghost before: Cache, url: string, lookupUrl: string,
                        fetched: HttpAnswer, ec: EntityConfiguration, did: string, exp: real, nowMs: real)
    requires fetched.Response? && VerifySubordinateStatement(env.crypto, fetched.body, ec, did, nowMs) == Some(exp)
    requires TrustedAnchor(env, before, url, nowMs, ec) && env.lookupUrl(ec.fetchEndpoint, did) == Some(lookupUrl)
    requires SoundWrites(env, before, cache.entries, url, did, nowMs)
    modifies cache
    ensures SoundWrites(env, before, cache.entries, url, did, nowMs)
    ensures cache.entries == old(cache.entries)[LookupKey(lookupUrl) :=
                               CacheEntry(VString(fetched.body), KeptUntil(fetched.maxAge, exp, nowMs, env.date(3)))]
  {
    StatementEntryOf(env, fetched.body, fetched.maxAge, ec, did, exp, nowMs);
    hide *;
    var ttl := TtlBoundedByExp(fetched.maxAge, exp, nowMs);
    cache.Set(LookupKey(lookupUrl), VString(fetched.body), Some(ttl), env.date(3));
    AddStatement(env, before, old(cache.entries), url, lookupUrl, cache.entries[LookupKey(lookupUrl)], ec, did, nowMs);
  }

  lemma StatementEntryOf(env: Env, jwt: string, maxAge: Option<real>, ec: EntityConfiguration, did: string, exp: real, nowMs: real)
    requires VerifySubordinateStatement(env.crypto, jwt, ec, did, nowMs) == Some(exp)
    ensures StatementEntry(env, CacheEntry(VString(jwt), KeptUntil(maxAge, exp, nowMs, env.date(3))),
                           ec, did, nowMs)
  {
    StatementExactly(env.crypto, jwt, ec, did, nowMs, exp);
    StatementUnexpired(env.crypto, jwt, ec, did, nowMs, exp);
    StoredEntryBounded(jwt, maxAge, exp, nowMs, env.date(3));
    hide Statement, BoundedEntry, VerifySubordinateStatement, TtlBoundedByExp;
  }
}
