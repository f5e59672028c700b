/**
 The recognition handler: a credential fetched from the registry's URL, accepted by
 its issuer, verified, and kept in a cache that all recognition registries share.
 */
module VcRecognition {
  import opened Options
  import opened JsonValues
  import opened CacheService
  import O = Oidf

  datatype Registry =
    | VcRecognition(name: string, url: string, acceptedIssuers: seq<string>)
    | OtherRegistry(name: string, url: string)

  datatype HandlerResult = Found | NotFound | Unavailable

  type Cache = map<string, CacheEntry<Value>>

  /**
   One question to a recognition registry, with everything the handler may meet on the way:
   what the URL serves, how the verifier judges it and until when it is valid, and the clock when the cache is read,
   when the lifetime is worked out, and when the cache is written.
   */
  datatype Ask = Ask(
    registry: Registry,
    did: string,
    readAt: real,
    fetched: Option<Value>,
    verified: bool,
    validUntil: Option<real>,
    timedAt: real,
    writtenAt: real)

  /** The answer, the credential it rests on, and the cache afterwards. */
  datatype Reply = Reply(result: HandlerResult, basis: Option<Value>, cache: Cache)

  predicate Accepts(registry: Registry, credential: Value) {
    && registry.VcRecognition?
    && CredentialIssuerId(credential).Some?
    && CredentialIssuerId(credential).value in registry.acceptedIssuers
  }

  /** The credential has a subject entry for `did`. */
  predicate HasSubject(credential: Value, did: string) {
    var subject := Member(credential, "credentialSubject");
    subject.Some? && exists entry :: entry in EntriesOf(subject.value) && entry.VObject? && Member(entry, "id") == Some(VString(did))
  }

  function ResultFrom(credential: Value, did: string): HandlerResult {
    if HasSubject(credential, did) then Found else NotFound
  }

  /** An hour at most, or what is left of the validity if that is sooner; with nothing left of it, the hour. */
  function RecognitionTtl(validFor: Option<real>): (ttl: real)
    ensures 0.0 < ttl <= DEFAULT_TTL_MS
    ensures validFor.Some? ==> (ttl <= validFor.value <==> validFor.value > 0.0)
  {
    var resolved := O.ResolveTtl([validFor]);
    if resolved <= DEFAULT_TTL_MS then resolved else DEFAULT_TTL_MS
  }

  /** What is left of the credential's validity when its lifetime is worked out. */
  function ValidFor(a: Ask): Option<real> {
    if a.validUntil.Some? then Some(a.validUntil.value - a.timedAt) else None
  }

  /** When the cache drops the credential that this question brings in. */
  function KeptUntil(a: Ask): real { a.writtenAt + RecognitionTtl(ValidFor(a)) }

  lemma LifetimeOf(validFor: real)
    ensures RecognitionTtl(Some(validFor)) == if 0.0 < validFor <= 3600000.0 then validFor else 3600000.0
    ensures RecognitionTtl(None) == 3600000.0
  {
  }

  /**
   A credential is kept no longer than it is valid iff an hour from the write is still within its validity, or
   it was still valid when its lifetime was worked out and the write took no time after that.
   */
  lemma KeptWithinValidityIff(a: Ask)
    requires a.validUntil.Some?
    ensures KeptUntil(a) <= a.validUntil.value <==>
            || a.writtenAt + DEFAULT_TTL_MS <= a.validUntil.value
            || (a.timedAt < a.validUntil.value && a.writtenAt <= a.timedAt)
  {
    LifetimeOf(a.validUntil.value - a.timedAt);
    hide RecognitionTtl;
  }

  function AfterRead(cache: Cache, a: Ask): Cache {
    if Live(cache, a.registry.url, a.readAt).Some? then cache else cache - {a.registry.url}
  }

  /** A live cached credential answers by itself; one that is fetched must have an accepted issuer, and verify. */
  function Handle(cache: Cache, a: Ask): Reply {
    var cached := Live(cache, a.registry.url, a.readAt);
    if cached.Some? then Reply(ResultFrom(cached.value, a.did), cached, cache)
    else if a.fetched.None? || !Accepts(a.registry, a.fetched.value) || !a.verified then
      Reply(Unavailable, None, AfterRead(cache, a))
    else
      Reply(ResultFrom(a.fetched.value, a.did), a.fetched,
            AfterRead(cache, a)[a.registry.url := CacheEntry(a.fetched.value, Some(KeptUntil(a)))])
  }

  // ----- runs -----

  /** The cache after any sequence of questions, from an empty one. */
  function CacheAfter(asks: seq<Ask>): Cache {
    if asks == [] then map[] else Handle(CacheAfter(asks[..|asks| - 1]), asks[|asks| - 1]).cache
  }

  /** The `k`-th reply of a run. */
  function ReplyAt(asks: seq<Ask>, k: nat): Reply
    requires k < |asks|
  {
    Handle(CacheAfter(asks[..k]), asks[k])
  }

  /** `source` is the question of the run that brought the entry in. */
  ghost predicate BroughtIn(asks: seq<Ask>, source: int, url: string, entry: CacheEntry<Value>) {
    && 0 <= source < |asks|
    && var a := asks[source];
       && a.registry.url == url && a.fetched == Some(entry.value) && a.verified && Accepts(a.registry, entry.value)
       && entry.expiresAt == Some(KeptUntil(a))
  }

  /** Every entry of the cache was brought in by some question of the run. */
  lemma {:induction false} EntriesBroughtIn(asks: seq<Ask>, url: string)
    requires url in CacheAfter(asks)
    ensures exists source :: BroughtIn(asks, source, url, CacheAfter(asks)[url])
  {
    hide Accepts, RecognitionTtl, HasSubject;
    var init, last := asks[..|asks| - 1], asks[|asks| - 1];
    var before := CacheAfter(init);
    if url in before && CacheAfter(asks)[url] == before[url] {
      EntriesBroughtIn(init, url);
      var source :| BroughtIn(init, source, url, before[url]);
      assert asks[source] == init[source];
      assert BroughtIn(asks, source, url, CacheAfter(asks)[url]);
    } else {
      assert BroughtIn(asks, |asks| - 1, url, CacheAfter(asks)[url]);
    }
  }

  /** The registry lists the issuer that the credential names. */
  ghost predicate ListsIssuer(registry: Registry, credential: Value) {
    registry.VcRecognition? && exists id :: id in registry.acceptedIssuers && IssuedBy(credential, id)
  }

  /** The credential's subject, or one of them, is an object with this id. */
  ghost predicate NamesSubject(credential: Value, did: string) {
    exists subject, entry ::
      && Has(credential, "credentialSubject", subject)
      && (if subject.VArray? then entry in subject.items else entry == subject)
      && Has(entry, "id", VString(did))
  }

  lemma AcceptsIs(registry: Registry, credential: Value)
    ensures Accepts(registry, credential) <==> ListsIssuer(registry, credential)
  {
    forall id ensures IssuedBy(credential, id) <==> CredentialIssuerId(credential) == Some(id) { IssuerIs(credential, id); }
    hide IssuedBy, CredentialIssuerId;
  }

  lemma SubjectIs(credential: Value, did: string)
    ensures HasSubject(credential, did) <==> NamesSubject(credential, did)
  {
    MemberIs(credential, "credentialSubject");
    forall entry ensures Has(entry, "id", VString(did)) <==> entry.VObject? && Member(entry, "id") == Some(VString(did)) {
    }
    hide Has, Member;
    var subject := Member(credential, "credentialSubject");
    if HasSubject(credential, did) {
      var entry :| entry in EntriesOf(subject.value) && entry.VObject? && Member(entry, "id") == Some(VString(did));
      assert Has(credential, "credentialSubject", subject.value) && Has(entry, "id", VString(did));
    }
  }

  /** The question that vouches for a reply: its own, or an earlier one at the same URL whose credential has not outlived its lifetime. */
  ghost predicate Vouches(asks: seq<Ask>, k: nat, source: int, credential: Value)
    requires k < |asks|
  {
    && 0 <= source <= k
    && var a := asks[source];
       && a.registry.url == asks[k].registry.url
       && a.fetched == Some(credential) && a.verified && ListsIssuer(a.registry, credential)
       && (source < k ==> asks[k].readAt <= KeptUntil(a) <= a.writtenAt + DEFAULT_TTL_MS)
  }

  /**
   Every reply of every run that finds the DID, or finds it missing, rests on a credential
   that was fetched from the registry's URL, verified, and accepted by the registry that fetched it, within the
   credential's lifetime; and it answers by whether that credential names the DID. Any other reply is unavailable,
   and it is so iff nothing live is cached and what was fetched, if anything, is not accepted or does not verify.
   */
  lemma RepliesAreVouchedFor(asks: seq<Ask>, k: nat)
    requires k < |asks|
    ensures var r := ReplyAt(asks, k);
            && (r.result.Unavailable? <==> r.basis.None?)
            && (r.basis.None? <==>
                  && Live(CacheAfter(asks[..k]), asks[k].registry.url, asks[k].readAt).None?
                  && !(asks[k].fetched.Some? && asks[k].verified && ListsIssuer(asks[k].registry, asks[k].fetched.value)))
            && (r.basis.Some? ==>
                  && (r.result == Found <==> NamesSubject(r.basis.value, asks[k].did))
                  && exists source :: Vouches(asks, k, source, r.basis.value))
  {
    var before, url := CacheAfter(asks[..k]), asks[k].registry.url;
    if ReplyAt(asks, k).basis.Some? {
      SubjectIs(ReplyAt(asks, k).basis.value, asks[k].did);
    }
    if asks[k].fetched.Some? {
      AcceptsIs(asks[k].registry, asks[k].fetched.value);
    }
    hide Accepts, HasSubject, RecognitionTtl, ListsIssuer, NamesSubject;
    if Live(before, url, asks[k].readAt).Some? {
      EntriesBroughtIn(asks[..k], url);
      var source :| BroughtIn(asks[..k], source, url, before[url]);
      assert asks[..k][source] == asks[source];
      AcceptsIs(asks[source].registry, before[url].value);
      TtlBound(asks[source]);
      assert Vouches(asks, k, source, before[url].value);
    } else if ReplyAt(asks, k).basis.Some? {
      assert Vouches(asks, k, k, asks[k].fetched.value);
    }
  }

  lemma TtlBound(a: Ask)
    ensures a.writtenAt < KeptUntil(a) <= a.writtenAt + DEFAULT_TTL_MS
  {
    hide RecognitionTtl;
  }

  // ----- whose issuer is accepted -----

  /** Every reply of the run rests on a credential whose issuer the registry that replies accepts. */
  ghost predicate RestsOnAccepted(asks: seq<Ask>) {
    forall k :: 0 <= k < |asks| && ReplyAt(asks, k).basis.Some? ==> Accepts(asks[k].registry, ReplyAt(asks, k).basis.value)
  }

  /** The run asks recognition registries of this set only. */
  ghost predicate AsksOf(asks: seq<Ask>, configured: set<Registry>) {
    forall k :: 0 <= k < |asks| ==> asks[k].registry in configured && asks[k].registry.VcRecognition?
  }

  /** Any two recognition registries of the set at one URL accept the same issuers. (No issuer is the empty string.) */
  ghost predicate AgreePerUrl(configured: set<Registry>) {
    forall r1, r2, issuer ::
      (r1 in configured && r2 in configured && r1.VcRecognition? && r2.VcRecognition? && r1.url == r2.url &&
       issuer in r1.acceptedIssuers && issuer != "") ==> issuer in r2.acceptedIssuers
  }

  ghost predicate EveryRunRestsOnAccepted(configured: set<Registry>) {
    forall asks :: AsksOf(asks, configured) ==> RestsOnAccepted(asks)
  }

  lemma AgreementIsEnough(configured: set<Registry>, asks: seq<Ask>)
    requires AgreePerUrl(configured) && AsksOf(asks, configured)
    ensures RestsOnAccepted(asks)
  {
    forall k | 0 <= k < |asks| && ReplyAt(asks, k).basis.Some?
      ensures Accepts(asks[k].registry, ReplyAt(asks, k).basis.value)
    {
      RepliesAreVouchedFor(asks, k);
      var credential := ReplyAt(asks, k).basis.value;
      hide ReplyAt;
      var source :| Vouches(asks, k, source, credential);
      AcceptsIs(asks[source].registry, credential);
      IssuerNotEmpty(credential);
      assert asks[source].registry in configured && asks[k].registry in configured;
    }
  }

  lemma IssuerNotEmpty(credential: Value)
    ensures CredentialIssuerId(credential) != Some("")
  {
  }

  /** A question whose answer is fetched at one instant, or would be. */
  function AskNow(registry: Registry, did: string, fetched: Option<Value>): Ask {
    Ask(registry, did, 0.0, fetched, fetched.Some?, None, 0.0, 0.0)
  }

  /**
   The failing family: a registry answers from any credential that another registry with its URL
   accepts and brings into the cache, though its own list does not hold the credential's issuer.
   */
  lemma SharedUrlSharesCredential(r1: Registry, r2: Registry, credential: Value, did1: string, did2: string)
    requires r1.VcRecognition? && r2.VcRecognition? && r1.url == r2.url
    requires Accepts(r1, credential) && !Accepts(r2, credential)
    ensures var asks := [AskNow(r1, did1, Some(credential)), AskNow(r2, did2, None)];
            && ReplyAt(asks, 1).basis == Some(credential)
            && ReplyAt(asks, 1).result == ResultFrom(credential, did2)
            && !RestsOnAccepted(asks)
  {
    var first, second := AskNow(r1, did1, Some(credential)), AskNow(r2, did2, None);
    var asks := [first, second];
    TtlBound(first);
    assert asks[..1] == [first] && [first][..0] == [];
    assert CacheAfter([first]) == Handle(map[], first).cache;
    hide HasSubject, KeptUntil, Accepts;
    assert Live(CacheAfter([first]), r2.url, 0.0) == Some(credential);
    assert ReplyAt(asks, 1).basis == Some(credential);
    assert asks[1].registry == r2;
  }

  /** A recognition credential that the envelope gate lets through: it has a context, types, an issuer and a subject. */
  function RecognitionOf(issuer: string, did: string): Value {
    VObject(map["@context" := VArray([VString("https://www.w3.org/ns/credentials/v2")]),
                "type" := VArray([VString("VerifiableCredential"), VString("VerifiableRecognitionCredential")]),
                "issuer" := VString(issuer),
                "credentialSubject" := VObject(map["id" := VString(did)])])
  }

  lemma RecognitionIs(issuer: string, did: string)
    requires issuer != ""
    ensures CredentialIssuerId(RecognitionOf(issuer, did)) == Some(issuer)
    ensures HasSubject(RecognitionOf(issuer, did), did)
  {
    var entry := VObject(map["id" := VString(did)]);
    assert Member(RecognitionOf(issuer, did), "issuer") == Some(VString(issuer));
    assert Member(RecognitionOf(issuer, did), "credentialSubject") == Some(entry);
    assert entry in EntriesOf(entry);
  }

  /**
   The documented promise, exactly: every answer of every run over a set of registries rests on an
   issuer that the answering registry accepts iff any two recognition registries of the set with the same URL
   accept the same issuers.
   */
  lemma AcceptedIffAgreePerUrl(configured: set<Registry>)
    ensures EveryRunRestsOnAccepted(configured) <==> AgreePerUrl(configured)
  {
    hide RestsOnAccepted, RecognitionOf;
    if AgreePerUrl(configured) {
      forall asks | AsksOf(asks, configured) ensures RestsOnAccepted(asks) {
        AgreementIsEnough(configured, asks);
      }
    } else {
      var r1, r2, issuer :|
        r1 in configured && r2 in configured && r1.VcRecognition? && r2.VcRecognition? && r1.url == r2.url &&
        issuer in r1.acceptedIssuers && issuer != "" && issuer !in r2.acceptedIssuers;
      var credential := RecognitionOf(issuer, "");
      RecognitionIs(issuer, "");
      SharedUrlSharesCredential(r1, r2, credential, "", "");
      assert AsksOf([AskNow(r1, "", Some(credential)), AskNow(r2, "", None)], configured);
    }
  }

  /** In particular, two registries that differ only in their accepted issuers do not always answer differently. */
  lemma SecondRegistryFindsByTheFirst(url: string)
    ensures var first, second := VcRecognition("A", url, ["did:a"]), VcRecognition("A", url, ["did:b"]);
            var credential := RecognitionOf("did:a", "did:x");
            var asks := [AskNow(first, "did:x", Some(credential)), AskNow(second, "did:x", Some(credential))];
            && ReplyAt(asks, 0).result == Found && ReplyAt(asks, 1).result == Found
            && !Accepts(second, credential)
            && Handle(map[], asks[1]).result == Unavailable
  {
    var first, second := VcRecognition("A", url, ["did:a"]), VcRecognition("A", url, ["did:b"]);
    var credential := RecognitionOf("did:a", "did:x");
    var ask := AskNow(first, "did:x", Some(credential));
    var asks := [ask, AskNow(second, "did:x", Some(credential))];
    RecognitionIs("did:a", "did:x");
    assert "did:a" != "did:b" by { assert "did:a"[4] != "did:b"[4]; }
    TtlBound(ask);
    assert asks[..1] == [ask] && [ask][..0] == [] && asks[..0] == [];
    assert CacheAfter([ask]) == Handle(map[], ask).cache;
    hide HasSubject, KeptUntil, RecognitionOf, CredentialIssuerId;
    assert Live(CacheAfter([ask]), url, 0.0) == Some(credential);
  }

  // ----- how long it is kept -----

  /**
   A credential that expires between being verified and being cached is kept a full hour, and a
   registry answers from it all that time.
   */
  lemma ExpiredIsKeptAnHour(url: string, later: real)
    requires 1.0 <= later <= 1.0 + DEFAULT_TTL_MS
    ensures var registry, credential := VcRecognition("A", url, ["did:a"]), RecognitionOf("did:a", "did:x");
            var first := Ask(registry, "did:x", 0.0, Some(credential), true, Some(0.5), 1.0, 1.0);
            var second := Ask(registry, "did:x", later, None, false, None, later, later);
            && ValidFor(first) == Some(-0.5) && KeptUntil(first) == 1.0 + DEFAULT_TTL_MS
            && ReplyAt([first, second], 1).result == Found
  {
    var registry, credential := VcRecognition("A", url, ["did:a"]), RecognitionOf("did:a", "did:x");
    var first := Ask(registry, "did:x", 0.0, Some(credential), true, Some(0.5), 1.0, 1.0);
    var second := Ask(registry, "did:x", later, None, false, None, later, later);
    RecognitionIs("did:a", "did:x");
    LifetimeOf(-0.5);
    hide HasSubject, RecognitionOf, CredentialIssuerId, RecognitionTtl;
    assert [first, second][..1] == [first] && [first][..0] == [];
    assert CacheAfter([first]) == Handle(map[], first).cache;
    assert Live(CacheAfter([first]), url, later) == Some(credential);
  }
}
