/**
 The one cycle among the components: verifying a credential looks its issuer up in
 registries, and a recognition registry verifies a credential of its own. The
 inner call's empty registry list cuts the cycle.
 */
module Recognition {
  import opened Options
  import opened JsonValues
  import opened CacheService
  import opened VcRecognition

  /**
   Everything outside the cycle, free to answer each call as it likes: what is fetched,
   what the other checks and handlers conclude, what the lookup's result cache holds, and the clock.
   */
  datatype World = World(
    fetch: (nat, string) -> Option<Value>,
    /** No check of this call fails fatally; the registry check never does. */
    verdict: (nat, Value) -> bool,
    /** The registry check is run: nothing before it halts, and its phase is not filtered out. */
    reachesRegistries: (nat, Value) -> bool,
    remembered: (nat, string, seq<Registry>) -> bool,
    other: (nat, string, Registry) -> HandlerResult,
    validUntil: Value -> Option<real>,
    clock: nat -> real)

  /** A verification entered at some depth, or a recognition registry's question with all it met. */
  datatype Event =
    | Entered(depth: nat, credential: Value, registries: seq<Registry>)
    | Asked(ask: Ask)

  // ----- the list a call works with -----

  /** `call.registries ?? constructorRegistries`: an empty list is a list, and stays. */
  function Effective(call: Option<seq<Registry>>, constructed: Option<seq<Registry>>): seq<Registry> {
    if call.Some? then call.value else if constructed.Some? then constructed.value else []
  }

  function RecognitionCount(registries: seq<Registry>): nat {
    if registries == [] then 0
    else RecognitionCount(registries[..|registries| - 1]) + if registries[|registries| - 1].VcRecognition? then 1 else 0
  }

  /** The count is of the list's recognition registries. */
  lemma {:induction false} RecognitionCountExactly(registries: seq<Registry>)
    ensures RecognitionCount(registries) == |set k | 0 <= k < |registries| && registries[k].VcRecognition?|
  {
    if registries != [] {
      var init := registries[..|registries| - 1];
      RecognitionCountExactly(init);
      var before, now := set k | 0 <= k < |init| && init[k].VcRecognition?, set k | 0 <= k < |registries| && registries[k].VcRecognition?;
      assert now == if registries[|init|].VcRecognition? then before + {|init|} else before;
    }
  }

  // ----- what a log may gain -----

  function Verifications(log: seq<Event>): nat {
    if log == [] then 0 else Verifications(log[..|log| - 1]) + if log[|log| - 1].Entered? then 1 else 0
  }

  /** The count is of the log's entries that enter a verification. */
  lemma {:induction false} VerificationsExactly(log: seq<Event>)
    ensures Verifications(log) == |set k | 0 <= k < |log| && log[k].Entered?|
  {
    if log != [] {
      var init := log[..|log| - 1];
      VerificationsExactly(init);
      var before, now := set k | 0 <= k < |init| && init[k].Entered?, set k | 0 <= k < |log| && log[k].Entered?;
      assert now == if log[|init|].Entered? then before + {|init|} else before;
    }
  }

  /** The questions of a log, in order. */
  function Asks(log: seq<Event>): seq<Ask> {
    if log == [] then []
    else Asks(log[..|log| - 1]) + if log[|log| - 1].Asked? then [log[|log| - 1].ask] else []
  }

  /**
   `after` continues `before` with at most `count` verifications, none nested deeper than
   `depth`, those at that depth working with no registry, and asks only of `registries`.
   */
  ghost predicate Continues(before: seq<Event>, after: seq<Event>, depth: nat, count: nat, registries: seq<Registry>) {
    && before <= after
    && Verifications(after) <= Verifications(before) + count
    && (forall k :: |before| <= k < |after| && after[k].Entered? ==>
          after[k].depth <= depth && (after[k].depth == depth ==> after[k].registries == []))
    && (forall k :: |before| <= k < |after| && after[k].Asked? ==>
          after[k].ask.registry in registries && after[k].ask.registry.VcRecognition?)
  }

  /** A log that continues another asks what that one asked, and then of the named registries only. */
  lemma {:induction false} AsksContinue(a: seq<Event>, b: seq<Event>, registries: seq<Registry>, configured: set<Registry>)
    requires a <= b && AsksOf(Asks(a), configured) && forall r :: r in registries ==> r in configured
    requires forall k :: |a| <= k < |b| && b[k].Asked? ==> b[k].ask.registry in registries && b[k].ask.registry.VcRecognition?
    ensures AsksOf(Asks(b), configured)
    decreases |b|
  {
    if |b| == |a| {
      assert b == a;
    } else {
      AsksContinue(a, b[..|b| - 1], registries, configured);
    }
  }

  lemma ContinuesTwice(a: seq<Event>, b: seq<Event>, c: seq<Event>, depth: nat, m: nat, n: nat, registries: seq<Registry>)
    requires Continues(a, b, depth, m, registries) && Continues(b, c, depth, n, registries)
    ensures Continues(a, c, depth, m + n, registries)
  {
    hide Verifications;
    assert forall k :: 0 <= k < |b| ==> c[k] == b[k];
  }

  lemma ContinuesByOne(log: seq<Event>, e: Event, depth: nat, registries: seq<Registry>)
    requires e.Entered? ==> e.depth <= depth && (e.depth == depth ==> e.registries == [])
    requires e.Asked? ==> e.ask.registry in registries && e.ask.registry.VcRecognition?
    ensures Continues(log, log + [e], depth, if e.Entered? then 1 else 0, registries)
  {
    assert (log + [e])[..|log|] == log;
  }

  lemma ContinuesMore(a: seq<Event>, b: seq<Event>, depth: nat, m: nat, n: nat, few: seq<Registry>, many: seq<Registry>)
    requires Continues(a, b, depth, m, few) && m <= n && forall r :: r in few ==> r in many
    ensures Continues(a, b, depth, n, many)
  {
  }

  lemma Nothing(log: seq<Event>, depth: nat, registries: seq<Registry>)
    ensures Continues(log, log, depth, 0, registries)
  {
  }

  lemma CountStep(registries: seq<Registry>, k: nat)
    requires k < |registries|
    ensures RecognitionCount(registries[..k + 1]) == RecognitionCount(registries[..k]) + RecognitionCount([registries[k]])
    ensures RecognitionCount(registries[..k + 1]) <= RecognitionCount(registries)
  {
    assert registries[..k + 1][..k] == registries[..k];
    assert [registries[k]][..0] == [];
    CountGrows(registries, k + 1);
  }

  lemma {:induction false} CountGrows(registries: seq<Registry>, k: nat)
    requires k <= |registries|
    ensures RecognitionCount(registries[..k]) <= RecognitionCount(registries)
    decreases |registries| - k
  {
    if k < |registries| {
      assert registries[..k + 1][..k] == registries[..k];
      CountGrows(registries, k + 1);
    } else {
      assert registries[..k] == registries;
    }
  }

  /** What a recognition registry meets when its question is the process's `n`-th call out. */
  function AskOf(w: World, n: nat, did: string, registry: Registry): Ask {
    var fetched := w.fetch(n, registry.url);
    Ask(registry, did, w.clock(n), fetched,
        fetched.Some? && Accepts(registry, fetched.value) && w.verdict(n + 1, fetched.value),
        if fetched.Some? then w.validUntil(fetched.value) else None,
        w.clock(n + 2),
        w.clock(n + 3))
  }

  /** A registry's credential counts as verified iff it is by an issuer the registry lists and the next call out finds it good. */
  lemma AskExactly(w: World, n: nat, did: string, registry: Registry)
    ensures var a := AskOf(w, n, did, registry);
            && a.registry == registry && a.did == did && a.fetched == w.fetch(n, registry.url)
            && (a.verified <==> a.fetched.Some? && ListsIssuer(registry, a.fetched.value) && w.verdict(n + 1, a.fetched.value))
            && (a.fetched.Some? ==> a.validUntil == w.validUntil(a.fetched.value))
            && [a.readAt, a.timedAt, a.writtenAt] == [w.clock(n), w.clock(n + 2), w.clock(n + 3)]
  {
    if w.fetch(n, registry.url).Some? {
      AcceptsIs(registry, w.fetch(n, registry.url).value);
    }
    hide Accepts, ListsIssuer;
  }

  class NestingVerifier {
    const world: World
    const constructorRegistries: Option<seq<Registry>>
    const recognized: InMemoryCache<string, Value>
    /** How many times the outside has been asked. */
    var calls: nat
    var log: seq<Event>

    constructor (world: World, constructorRegistries: Option<seq<Registry>>)
      ensures this.world == world && this.constructorRegistries == constructorRegistries
      ensures fresh(recognized) && calls == 0 && log == [] && Valid()
    {
      this.world := world;
      this.constructorRegistries := constructorRegistries;
      this.recognized := new InMemoryCache();
      calls, log := 0, [];
    }

    /** The recognition cache is what the questions asked so far have made of it. */
    ghost predicate Valid()
      reads this, recognized
    {
      recognized.entries == CacheAfter(Asks(log))
    }

    /**
     One call from outside: the cycle is entered at most twice deep. If the call and all calls before it
     ask only registries of a set that agrees on accepted issuers per URL, every answer so far rests on an accepted issuer.
     */
    method Verify(credential: Value, registries: Option<seq<Registry>>, ghost configured: set<Registry>) returns (verified: bool)
      requires Valid()
      modifies this, recognized
      ensures Valid()
      ensures var effective := Effective(registries, constructorRegistries);
              && Continues(old(log), log, 2, 1 + RecognitionCount(effective), effective)
              && ((forall r :: r in effective ==> r in configured) && AsksOf(Asks(old(log)), configured) ==>
                    && AsksOf(Asks(log), configured)
                    && (AgreePerUrl(configured) ==> RestsOnAccepted(Asks(log))))
      ensures verified == world.verdict(old(calls), credential)
    {
      hide Continues, RecognitionCount, CacheAfter, Asks, AsksOf, AgreePerUrl, RestsOnAccepted;
      verified := VerifyCredential(credential, registries, 1);
      ghost var effective := Effective(registries, constructorRegistries);
      if effective == [] {
        SameAsks(old(log), log);
        DeeperToo(old(log), log, 1, 1 + RecognitionCount(effective), effective);
      }
      if (forall r :: r in effective ==> r in configured) && AsksOf(Asks(old(log)), configured) {
        AsksStayIn(old(log), log, 2, 1 + RecognitionCount(effective), effective, configured);
        if AgreePerUrl(configured) {
          AgreementIsEnough(configured, Asks(log));
        }
      }
    }

    lemma AsksStayIn(a: seq<Event>, b: seq<Event>, depth: nat, n: nat, registries: seq<Registry>, configured: set<Registry>)
      requires Continues(a, b, depth, n, registries) && AsksOf(Asks(a), configured)
      requires forall r :: r in registries ==> r in configured
      ensures AsksOf(Asks(b), configured)
    {
      AsksContinue(a, b, registries, configured);
    }

    lemma DeeperToo(a: seq<Event>, b: seq<Event>, depth: nat, n: nat, registries: seq<Registry>)
      requires Continues(a, b, depth, n, registries)
      ensures Continues(a, b, depth + 1, n, registries)
    {
    }

    /**
     Verify a credential at nesting `depth`. With no registry to ask it enters nothing below it
     and leaves the recognition cache alone; otherwise at most one verification per recognition registry, one level down.
     */
    method VerifyCredential(credential: Value, registries: Option<seq<Registry>>, depth: nat) returns (verified: bool)
      requires Effective(registries, constructorRegistries) != [] ==> Valid()
      modifies this, recognized
      ensures var effective := Effective(registries, constructorRegistries);
              && Continues(old(log), log, if effective == [] then depth else depth + 1, 1 + RecognitionCount(effective), effective)
              && (if effective == [] then
                    && log == old(log) + [Entered(depth, credential, [])] && calls == old(calls) + 1
                    && recognized.entries == old(recognized.entries)
                  else Valid())
      ensures |log| > |old(log)| && log[|old(log)|] ==
                Entered(depth, credential,
                        match registries
                        case Some(rs) => rs
                        case None => match constructorRegistries case Some(rs) => rs case None => [])
      ensures verified == world.verdict(old(calls), credential)
      decreases if Effective(registries, constructorRegistries) == [] then 0 else 1, 3
    {
      hide Verifications, Continues, RecognitionCount, CacheAfter, Asks;
      var effective := Effective(registries, constructorRegistries);
      ghost var deepest := if effective == [] then depth else depth + 1;
      var run := calls;
      calls := calls + 1;
      var entry := Entered(depth, credential, effective);
      ContinuesByOne(log, entry, deepest, effective);
      SameAsks(log, log + [entry]);
      log := log + [entry];
      ghost var entered := log;
      if world.reachesRegistries(run, credential) {
        IssuerRegistryCheck(credential, effective, depth);
        ContinuesTwice(old(log), entered, log, deepest, 1, RecognitionCount(effective), effective);
      } else {
        ContinuesMore(old(log), log, deepest, 1, 1 + RecognitionCount(effective), effective, effective);
      }
      verified := world.verdict(run, credential);
    }

    /** `registry.issuer`: an empty list of registries opts out before anything is looked up. */
    method IssuerRegistryCheck(credential: Value, registries: seq<Registry>, depth: nat)
      requires registries != [] ==> Valid()
      modifies this, recognized
      ensures registries != [] ==> Valid()
      ensures Continues(old(log), log, if registries == [] then depth else depth + 1, RecognitionCount(registries), registries)
      ensures registries == [] || CredentialIssuerId(credential).None? ==>
                log == old(log) && calls == old(calls) && recognized.entries == old(recognized.entries)
      decreases if registries == [] then 0 else 1, 2
    {
      var issuer := CredentialIssuerId(credential);
      if registries == [] || issuer.None? {
        Nothing(log, if registries == [] then depth else depth + 1, registries);
        ContinuesMore(log, log, if registries == [] then depth else depth + 1, 0, RecognitionCount(registries), registries, registries);
        return;
      }
      LookupIssuers(issuer.value, registries, depth);
    }

    /** The lookup: the remembered result if there is one, else a walk that stops at the first registry that knows the issuer. */
    method LookupIssuers(did: string, registries: seq<Registry>, depth: nat)
      requires Valid() && registries != []
      modifies this, recognized
      ensures Valid()
      ensures Continues(old(log), log, depth + 1, RecognitionCount(registries), registries)
      ensures world.remembered(old(calls), did, registries) ==> log == old(log) && calls == old(calls) + 1
      decreases 1, 1
    {
      hide Verifications, Continues, CacheAfter, Asks;
      Nothing(log, depth + 1, registries);
      var remembered := world.remembered(calls, did, registries);
      calls := calls + 1;
      if remembered {
        ContinuesMore(log, log, depth + 1, 0, RecognitionCount(registries), registries, registries);
        return;
      }
      for k := 0 to |registries|
        invariant Valid()
        invariant Continues(old(log), log, depth + 1, RecognitionCount(registries[..k]), registries)
      {
        ghost var before := log;
        var result := AskRegistry(did, registries[k], depth);
        ContinuesMore(before, log, depth + 1, RecognitionCount([registries[k]]), RecognitionCount([registries[k]]),
                      [registries[k]], registries);
        ContinuesTwice(old(log), before, log, depth + 1, RecognitionCount(registries[..k]), RecognitionCount([registries[k]]), registries);
        CountStep(registries, k);
        if result.Found? {
          ContinuesMore(old(log), log, depth + 1, RecognitionCount(registries[..k + 1]), RecognitionCount(registries), registries, registries);
          return;
        }
      }
      assert registries[..|registries|] == registries;
    }

    method AskRegistry(did: string, registry: Registry, depth: nat) returns (result: HandlerResult)
      requires Valid()
      modifies this, recognized
      ensures Valid()
      ensures Continues(old(log), log, depth + 1, RecognitionCount([registry]), [registry])
      ensures registry.OtherRegistry? ==> result == world.other(old(calls), did, registry) && log == old(log)
      decreases 1, 0, 1
    {
      hide Verifications, Continues, CacheAfter, Asks;
      assert [registry][..0] == [];
      if registry.VcRecognition? {
        result := LookupVcRecognition(did, registry, depth);
      } else {
        Nothing(log, depth + 1, [registry]);
        result := world.other(calls, did, registry);
        calls := calls + 1;
      }
    }

    /**
     The recognition handler, re-entering the verifier: it replies, and leaves the shared
     cache, exactly as the handler's specification says for what it met.
     */
    method LookupVcRecognition(did: string, registry: Registry, depth: nat) returns (result: HandlerResult)
      requires Valid() && registry.VcRecognition?
      modifies this, recognized
      ensures Valid()
      ensures Continues(old(log), log, depth + 1, 1, [registry])
      ensures var ask := AskOf(world, old(calls), did, registry);
              && Asks(log) == Asks(old(log)) + [ask]
              && result == ReplyAt(Asks(log), |Asks(old(log))|).result
              && (log == old(log) + [Asked(ask)] ||
                  (&& Live(old(recognized.entries), registry.url, ask.readAt).None?
                   && ask.fetched.Some? && ListsIssuer(registry, ask.fetched.value)))
      decreases 1, 0, 0
    {
      hide Verifications, Continues, HasSubject, Accepts, CacheAfter, Asks, RecognitionTtl, ListsIssuer;
      var ask := AskOf(world, calls, did, registry);
      if ask.fetched.Some? {
        AcceptsIs(registry, ask.fetched.value);
      }
      Nothing(log, depth + 1, [registry]);
      var now := world.clock(calls);
      var cached := recognized.Get(registry.url, now);
      assert recognized.entries == AfterRead(old(recognized.entries), ask);
      if cached.Some? {
        Record(ask, old(log), depth + 1, 0);
        return ResultFrom(cached.value, did);
      }
      var loaded := world.fetch(calls, registry.url);
      calls := calls + 1;
      if loaded.None? || !Accepts(registry, loaded.value) {
        Record(ask, old(log), depth + 1, 0);
        return Unavailable;
      }
      var verified := VerifyCredential(loaded.value, Some([]), depth + 1);
      WithRegistry(old(log), log, depth + 1, registry);
      if verified {
        var validUntil, timedAt := world.validUntil(loaded.value), world.clock(calls);
        var validFor := if validUntil.Some? then Some(validUntil.value - timedAt) else None;
        recognized.Set(registry.url, loaded.value, Some(RecognitionTtl(validFor)), world.clock(calls + 1));
      }
      SameAsks(old(log), log);
      Record(ask, old(log), depth + 1, 1);
      calls := calls + 2;
      result := if verified then ResultFrom(loaded.value, did) else Unavailable;
    }

    lemma WithRegistry(a: seq<Event>, b: seq<Event>, depth: nat, registry: Registry)
      requires Continues(a, b, depth, 1, [])
      ensures Continues(a, b, depth, 1, [registry])
    {
    }

    lemma SameAsks(a: seq<Event>, b: seq<Event>)
      requires |b| == |a| + 1 && b[..|a|] == a && b[|a|].Entered?
      ensures Asks(b) == Asks(a)
    {
    }

    /** Log a question once it is answered; the cache has become what the handler's specification makes of it. */
    method Record(ask: Ask, ghost before: seq<Event>, ghost depth: nat, ghost count: nat)
      requires ask.registry.VcRecognition?
      requires before <= log && Continues(before, log, depth, count, [ask.registry]) && count <= 1
      requires Asks(log) == Asks(before)
      requires recognized.entries == Handle(CacheAfter(Asks(before)), ask).cache
      modifies `log
      ensures Valid() && Continues(before, log, depth, 1, [ask.registry])
      ensures Asks(log) == Asks(before) + [ask] && log == old(log) + [Asked(ask)]
      ensures ReplyAt(Asks(log), |Asks(before)|) == Handle(CacheAfter(Asks(before)), ask)
    {
      var e := Asked(ask);
      ContinuesByOne(log, e, depth, [ask.registry]);
      assert (log + [e])[..|log|] == log;
      assert (Asks(before) + [ask])[..|Asks(before)|] == Asks(before);
      ContinuesTwice(before, log, log + [e], depth, count, 0, [ask.registry]);
      log := log + [e];
    }
  }
}
