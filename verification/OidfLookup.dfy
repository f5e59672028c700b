/**
 Issuer lookups whose OpenID Federation registries answer by the verdict of `Oidf`, at clock
 readings of their own: on what a reported match rests, and when.
 */
module OidfLookup {
  import opened Options
  import opened JsonText
  import opened JsonValues
  import opened RegistryCacheKey
  import opened CacheService
  import opened RegistryLookup
  import opened IssuerLookup
  import Strings
  import O = Oidf

  /**
   What one lookup's handlers meet when asked about a DID: for OpenID Federation the outside,
   the cached tokens and the one clock reading, and for the other registries their answer. Texts are read as strings.
   */
  datatype Moment = Moment(
    env: (Text, Canonical) -> O.Env,
    tokens: (Text, Canonical) -> O.Cache,
    now: (Text, Canonical) -> real,
    others: Handlers,
    text: Text -> string)

  function VerdictAt(m: Moment, did: Text, c: Canonical): O.HandlerResult {
    O.Verdict(m.env(did, c), m.tokens(did, c), m.text(c.url), m.text(did), m.now(did, c))
  }

  /** The handlers' answers. A match of an OpenID Federation registry carries no entity. */
  function HandlersAt(m: Moment): Handlers {
    (did: Text, c: Canonical) =>
      if !c.kind.KOidf? then m.others(did, c)
      else
        match VerdictAt(m, did, c)
        case Found => Found(None)
        case NotFound => NotFound
        case Unchecked => Unchecked
  }

  /** An anchor and, under it, a statement about the DID, both signed and both unexpired at the handler's reading of the clock. */
  ghost predicate Trusted(m: Moment, did: Text, c: Canonical) {
    exists ec ::
      && O.TrustedAnchor(m.env(did, c), m.tokens(did, c), m.text(c.url), m.now(did, c), ec)
      && O.TrustedStatement(m.env(did, c), m.tokens(did, c), m.text(did), m.now(did, c), ec)
  }

  /** The match is one of the list's OpenID Federation registries, which had a trusted anchor and statement then. */
  ghost predicate RestsOn(m: Moment, did: Text, rs: seq<Registry>, match_: Match) {
    exists c :: c in CanonList(rs) && c.kind.KOidf? && RegistryReference(c) == match_.registry && Trusted(m, did, c)
  }

  ghost predicate AllRestOn(m: Moment, did: Text, rs: seq<Registry>, v: Answer) {
    forall x :: x in v.matches && x.registry.kind.KOidf? ==> RestsOn(m, did, rs, x)
  }

  lemma {:induction false} CollectedFrom<T>(f: Canonical -> Option<T>, cs: seq<Canonical>, t: T)
    requires t in Collect(f, cs)
    ensures exists c :: c in cs && f(c) == Some(t)
  {
    var init, last := cs[..|cs| - 1], cs[|cs| - 1];
    assert cs == init + [last];
    if t in Collect(f, init) {
      CollectedFrom(f, init, t);
    }
  }

  /** A registry whose verdict is to find the DID has a trusted statement for it. */
  lemma FoundIsTrusted(m: Moment, did: Text, c: Canonical)
    requires c.kind.KOidf? && HandlersAt(m)(did, c).Found?
    ensures Trusted(m, did, c)
  {
    assert VerdictAt(m, did, c) == O.Found;
    O.OidfSound(m.env(did, c), m.tokens(did, c), m.text(c.url), m.text(did), m.now(did, c));
    hide O.Verdict, O.TrustedAnchor, O.TrustedStatement, HandlersAt;
  }

  lemma MatchIsCollected(h: Handlers, did: Text, rs: seq<Registry>, v: Answer, x: Match)
    requires Agrees(h, did, rs, v) && x in v.matches
    ensures exists c :: c in CanonList(rs) && h(did, c).Found? && RegistryReference(c) == x.registry
  {
    var cs := CanonList(rs);
    hide Collect, SomeFound;
    assert x in multiset(v.matches);
    assert x in multiset(AllMatches(h, did, cs));
    CollectedFrom(MatchIn(h, did), cs, x);
    var c :| c in cs && MatchIn(h, did)(c) == Some(x);
    assert h(did, c).Found?;
  }

  /** In an answer that agrees with the registries, every OpenID Federation match rests on a trusted statement. */
  lemma MatchesRest(m: Moment, did: Text, rs: seq<Registry>, v: Answer)
    requires Agrees(HandlersAt(m), did, rs, v)
    ensures AllRestOn(m, did, rs, v)
  {
    hide Agrees, HandlersAt, Trusted;
    forall x | x in v.matches && x.registry.kind.KOidf? ensures RestsOn(m, did, rs, x) {
      MatchIsCollected(HandlersAt(m), did, rs, v, x);
      var c :| c in CanonList(rs) && HandlersAt(m)(did, c).Found? && RegistryReference(c) == x.registry;
      FoundIsTrusted(m, did, c);
    }
  }

  /** A lookup that recalls no live answer reports an OpenID Federation match only on a statement unexpired at this very call. */
  method CurrentMatches(service: LookupService, m: Moment, did: Text, rs: seq<Registry>, options: LookupOptions,
                        nowGet: real, nowSet: real)
    returns (answer: Option<Answer>)
    requires service.Valid()
    modifies service`owned, service`walks, service`held, service.cache
    ensures service.Valid()
    ensures answer == AnswerOf(old(service.held), HandlersAt(m), did, rs, options, nowGet)
    ensures answer.Some? && (Recalled(old(service.held), did, rs, options, nowGet).None? || rs == []) ==>
              AllRestOn(m, did, rs, answer.value)
  {
    hide Agrees, FullKey, Walk, LookupService.Valid, LookupResult.Parts, LookupResult.Value, AllRestOn, HandlersAt;
    var r, walk := service.Lookup(HandlersAt(m), did, rs, options, nowGet, nowSet);
    answer := None;
    if r != null {
      answer := Some(r.Value());
      if rs == [] {
        NothingToAgreeOn(walk.handlers, HandlersAt(m), did, r.Value());
      }
      if Recalled(old(service.held), did, rs, options, nowGet).None? || rs == [] {
        MatchesRest(m, did, rs, r.Value());
      }
    }
  }

  // ----- over any sequence of lookups -----

  datatype Call = Call(moment: Moment, did: Text, registries: seq<Registry>, options: LookupOptions,
                       nowGet: real, nowSet: real, scribbling: Scribbling)

  function RequestOf(call: Call): Request {
    Request(HandlersAt(call.moment), call.did, call.registries, call.options, call.nowGet, call.nowSet, call.scribbling)
  }

  /**
   The OpenID Federation matches of the `k`-th answer rest on what the `j`-th call's handlers met: its own, or
   an earlier one whose result was stored within the answer's lifetime.
   */
  ghost predicate MatchesFrom(calls: seq<Call>, k: nat, v: Answer, j: nat)
    requires k < |calls|
  {
    && j <= k
    && AllRestOn(calls[j].moment, calls[k].did, calls[k].registries, v)
    && (j < k ==> !calls[k].options.fresh_ && calls[k].nowGet - calls[j].nowSet <= if v.uncheckedRegistries == [] then 3600000.0 else 60000.0)
  }

  /**
   Over any sequence of lookups, every reported OpenID Federation match rests on a trusted
   anchor and statement that were unexpired when this lookup's handler judged them, or an earlier one's, whose result was
   stored at most an hour before, at most a minute when some registry was unchecked.
   */
  method OidfSequence(service: LookupService, calls: seq<Call>) returns (answers: seq<Option<Answer>>)
    requires service.Valid() && service.walks == map[]
    modifies service`owned, service`walks, service`held, service.cache
    ensures service.Valid()
    ensures |answers| == |calls|
    ensures forall k :: 0 <= k < |calls| && answers[k].Some? ==> exists j: nat :: MatchesFrom(calls, k, answers[k].value, j)
  {
    hide Agrees, HandlersAt, LookupService.Valid, AllRestOn;
    var requests := seq(|calls|, k requires 0 <= k < |calls| => RequestOf(calls[k]));
    answers := LookupSequence(service, requests);
    forall k | 0 <= k < |calls| && answers[k].Some? ensures exists j: nat :: MatchesFrom(calls, k, answers[k].value, j) {
      var j: nat :| AnswersFrom(requests, k, answers[k].value, j);
      MatchesRest(calls[j].moment, calls[k].did, calls[k].registries, answers[k].value);
      assert MatchesFrom(calls, k, answers[k].value, j);
    }
  }

  // ----- a match that outlives its statement -----

  const HEADER := VObject(map["alg" := VString("ES256"), "typ" := VString(O.ENTITY_STATEMENT_TYP)])
  const KEY := VObject(map["kty" := VString("EC"), "crv" := VString("P-256")])
  const KEYS := VObject(map["keys" := VArray([KEY])])
  const ENTITY := VObject(map["federation_fetch_endpoint" := VString("fetch")])
  const METADATA := VObject(map["federation_entity" := ENTITY])
  const ANCHOR := VObject(map["iss" := VString("anchor"), "sub" := VString("anchor"), "jwks" := KEYS,
                              "metadata" := METADATA, "exp" := VNumber(1000000.0)])
  const STATEMENT := VObject(map["iss" := VString("anchor"), "sub" := VString("did:x"), "exp" := VNumber(1.0)])

  /** Tokens of three letters, every one of them well signed: `h` for the header, `a` and `s` for the two payloads. */
  const CRYPTO := O.Crypto(
    (part: string) => if part == "h" then Some(HEADER) else if part == "a" then Some(ANCHOR) else if part == "s" then Some(STATEMENT) else None,
    (part: string) => Some([]),
    (alg: O.Alg, key: Value, data: string, sig: O.Signature) => Some(true))

  /** A federation whose anchor lasts, and whose one statement expires after a second and is never renewed. */
  const FEDERATION := O.Env(
    CRYPTO,
    (url: string) => O.Response(200, "h.a.x", None),
    (url: string) => O.Response(200, "h.s.x", None),
    (endpoint: string, did: string) => Some("lookup"),
    (n: nat) => 0.0)

  function MomentAt(now: real): Moment {
    Moment((did: Text, c: Canonical) => FEDERATION, (did: Text, c: Canonical) => map[], (did: Text, c: Canonical) => now,
           Unanimous(NotFound), (t: Text) => "did:x")
  }

  /** The token whose payload part is `part`, and what it says. */
  predicate IsToken(jwt: string, part: string, payload: Value) {
    && jwt == "h." + part + ".x"
    && ((part == "a" && payload == ANCHOR) || (part == "s" && payload == STATEMENT))
  }

  lemma ThreeParts(jwt: string, part: string, payload: Value)
    requires IsToken(jwt, part, payload)
    ensures Strings.Split(jwt, '.') == ["h", part, "x"]
  {
    Strings.SplitFirst("h", '.', part + ".x");
    Strings.SplitFirst(part, '.', "x");
    Strings.SplitWord("x", '.');
    assert jwt == "h" + ['.'] + (part + ".x");
    assert part + ".x" == part + ['.'] + "x";
    assert ["h"] + ([part] + ["x"]) == ["h", part, "x"];
  }

  /** Both tokens are signed under the anchor's key. */
  lemma TokenVerifies(jwt: string, part: string, payload: Value)
    requires IsToken(jwt, part, payload)
    ensures O.DecodePayload(CRYPTO, jwt) == Some(payload)
    ensures O.VerifyJws(CRYPTO, jwt, Some(KEYS), Some(O.ENTITY_STATEMENT_TYP)) == O.Valid(payload)
  {
    ThreeParts(jwt, part, payload);
    assert CRYPTO.decode(part) == Some(payload);
    assert O.DecodeJws(CRYPTO, jwt) == Some((HEADER, payload, []));
    KeyIsEligible();
    hide O.DecodeJws, O.Eligible;
    assert CRYPTO.verify(O.ES256, KEY, O.SignedData(jwt), []) == Some(true);
    assert O.SignedUnder(CRYPTO, jwt, Some(KEYS), Some(O.ENTITY_STATEMENT_TYP), payload);
    O.VerifyJwsExactly(CRYPTO, jwt, Some(KEYS), Some(O.ENTITY_STATEMENT_TYP), payload);
  }

  lemma KeyIsEligible()
    ensures O.AlgOf(HEADER) == Some(O.ES256) && Member(HEADER, "crit").None?
    ensures Member(HEADER, "typ") == Some(VString(O.ENTITY_STATEMENT_TYP))
    ensures O.Eligible(Some(KEYS), HEADER, O.ES256, KEY)
  {
    assert Member(HEADER, "alg") == Some(VString("ES256"));
    assert Member(KEYS, "keys") == Some(VArray([KEY]));
    assert Member(KEY, "kty") == Some(VString("EC")) && Member(KEY, "crv") == Some(VString("P-256"));
    assert Member(HEADER, "kid").None? && Member(KEY, "kid").None?;
  }

  const CONFIGURATION := O.EntityConfiguration("anchor", Some(KEYS), "fetch", 1000000.0)

  /** A self-signed payload with what a configuration needs is one. */
  lemma ConfigurationOf(c: O.Crypto, jwt: string, now: real, payload: Value, ec: O.EntityConfiguration)
    requires O.DecodePayload(c, jwt) == Some(payload) && Member(payload, "jwks") == ec.jwks
    requires O.VerifyJws(c, jwt, ec.jwks, Some(O.ENTITY_STATEMENT_TYP)) == O.Valid(payload)
    requires Member(payload, "iss") == Some(VString(ec.entityId)) == Member(payload, "sub")
    requires O.UnexpiredNumericDate(Member(payload, "exp"), now) == Some(ec.exp) && O.FetchEndpoint(payload) == Some(ec.fetchEndpoint)
    ensures O.VerifyEntityConfiguration(c, jwt, now) == Some(ec)
  {
    hide Member, O.UnexpiredNumericDate, O.FetchEndpoint, O.DecodePayload, O.VerifyJws;
  }

  lemma StatementOf(c: O.Crypto, jwt: string, now: real, payload: Value, ec: O.EntityConfiguration, did: string)
    requires O.VerifyJws(c, jwt, ec.jwks, Some(O.ENTITY_STATEMENT_TYP)) == O.Valid(payload)
    requires Member(payload, "iss") == Some(VString(ec.entityId)) && Member(payload, "sub") == Some(VString(did))
    ensures O.VerifySubordinateStatement(c, jwt, ec, did, now) == O.UnexpiredNumericDate(Member(payload, "exp"), now)
  {
    hide Member, O.UnexpiredNumericDate, O.VerifyJws;
  }

  lemma NumberDate(exp: Option<Value>, seconds: real, now: real)
    requires exp == Some(VNumber(seconds))
    ensures O.UnexpiredNumericDate(exp, now) == if seconds * 1000.0 > now then Some(seconds) else None
  {
  }

  lemma AnchorJudged(jwt: string, ec: O.EntityConfiguration, now: real)
    requires IsToken(jwt, "a", ANCHOR) && ec == CONFIGURATION && now < 1000000000.0
    ensures O.VerifyEntityConfiguration(CRYPTO, jwt, now) == Some(ec)
  {
    TokenVerifies(jwt, "a", ANCHOR);
    AnchorPayload();
    NumberDate(Member(ANCHOR, "exp"), 1000000.0, now);
    hide *;
    ConfigurationOf(CRYPTO, jwt, now, ANCHOR, ec);
  }

  lemma StatementJudged(jwt: string, ec: O.EntityConfiguration, now: real)
    requires IsToken(jwt, "s", STATEMENT) && ec == CONFIGURATION
    ensures O.VerifySubordinateStatement(CRYPTO, jwt, ec, "did:x", now) == if now < 1000.0 then Some(1.0) else None
  {
    TokenVerifies(jwt, "s", STATEMENT);
    StatementPayload();
    NumberDate(Member(STATEMENT, "exp"), 1.0, now);
    hide *;
    StatementOf(CRYPTO, jwt, now, STATEMENT, ec, "did:x");
  }

  /** With nothing cached, what is fetched decides. */
  lemma FetchedVerdict(env: O.Env, url: string, did: string, now: real, ec: O.EntityConfiguration, lookupUrl: string)
    requires O.Ok(env.fetchAnchor(url)) && O.VerifyEntityConfiguration(env.crypto, env.fetchAnchor(url).body, now) == Some(ec)
    requires env.lookupUrl(ec.fetchEndpoint, did) == Some(lookupUrl) && O.Ok(env.fetchStatement(lookupUrl))
    ensures O.Verdict(env, map[], url, did, now) ==
            if O.VerifySubordinateStatement(env.crypto, env.fetchStatement(lookupUrl).body, ec, did, now).Some? then O.Found
            else O.Unchecked
  {
    hide O.VerifyEntityConfiguration, O.VerifySubordinateStatement;
  }

  /** The federation vouches for the DID until its statement expires, and afterwards cannot say. */
  lemma FederationVerdict(env: O.Env, did: string, url: string, now: real)
    requires env == FEDERATION && did == "did:x" && now < 1000000000.0
    ensures O.Verdict(env, map[], url, did, now) == if now < 1000.0 then O.Found else O.Unchecked
  {
    var ec, anchor, statement := CONFIGURATION, env.fetchAnchor(url), env.fetchStatement("lookup");
    assert IsToken(anchor.body, "a", ANCHOR) && IsToken(statement.body, "s", STATEMENT);
    AnchorJudged(anchor.body, ec, now);
    StatementJudged(statement.body, ec, now);
    hide O.VerifyEntityConfiguration, O.VerifySubordinateStatement, O.Verdict, IsToken;
    FetchedVerdict(env, url, did, now, ec, "lookup");
  }

  lemma OidfAnswer(m: Moment, did: Text, c: Canonical)
    requires c.kind.KOidf?
    ensures VerdictAt(m, did, c) == O.Found ==> HandlersAt(m)(did, c) == Found(None)
    ensures VerdictAt(m, did, c) == O.Unchecked ==> HandlersAt(m)(did, c) == Unchecked
  {
    hide VerdictAt;
  }

  lemma FederationAnswers(m: Moment, did: Text, c: Canonical)
    requires m.env(did, c) == FEDERATION && m.tokens(did, c) == map[] && m.text(did) == "did:x"
    requires c.kind.KOidf? && m.now(did, c) < 1000000000.0
    ensures HandlersAt(m)(did, c) == if m.now(did, c) < 1000.0 then Found(None) else Unchecked
  {
    FederationVerdict(m.env(did, c), m.text(did), m.text(c.url), m.now(did, c));
    hide O.Verdict, HandlersAt;
    OidfAnswer(m, did, c);
  }

  lemma AnchorPayload()
    ensures Member(ANCHOR, "iss") == Some(VString("anchor")) && Member(ANCHOR, "sub") == Some(VString("anchor"))
    ensures Member(ANCHOR, "jwks") == Some(KEYS) && Member(ANCHOR, "exp") == Some(VNumber(1000000.0))
    ensures O.FetchEndpoint(ANCHOR) == Some("fetch")
  {
    assert Member(ANCHOR, "metadata") == Some(METADATA);
    assert Member(METADATA, "federation_entity") == Some(ENTITY);
    assert Member(ENTITY, "federation_fetch_endpoint") == Some(VString("fetch"));
  }

  lemma StatementPayload()
    ensures Member(STATEMENT, "iss") == Some(VString("anchor")) && Member(STATEMENT, "sub") == Some(VString("did:x"))
    ensures Member(STATEMENT, "exp") == Some(VNumber(1.0))
  {
  }

  /**
   A lookup at the start finds the DID under a statement good for a second; any lookup in the hour after
   that second finds it too, though by then the registry itself cannot say.
   */
  method MatchOutlivesStatement(did: Text, registry: Registry, later: real) returns (answer: Answer)
    requires registry.Oidf? && 1000.0 <= later <= DEFAULT_TTL_MS
    ensures HandlersAt(MomentAt(later))(did, Canon(registry)) == Unchecked
    ensures answer.found && !Agrees(HandlersAt(MomentAt(later)), did, [registry], answer)
  {
    FederationAnswers(MomentAt(0.0), did, Canon(registry));
    FederationAnswers(MomentAt(later), did, Canon(registry));
    hide HandlersAt, Agrees;
    answer := StaleAnswer(did, registry, HandlersAt(MomentAt(0.0)), HandlersAt(MomentAt(later)), later);
  }
}
