/**
 The lookup service and the check that calls it. Results are objects with
 mutable lists; the cache holds references, callers are handed copies.
 */
module IssuerLookup {
  import opened Options
  import opened JsonText
  import opened RegistryCacheKey
  import opened CacheService
  import opened RegistryLookup

  /** A list object: two holders of one list see each other's pushes. */
  class List<T> {
    var items: seq<T>

    constructor (items: seq<T>)
      ensures this.items == items
    {
      this.items := items;
    }

    method Push(x: T)
      modifies this
      ensures items == old(items) + [x]
    {
      items := items + [x];
    }
  }

  /** An object, with all the objects inside it, seen as one value. Whoever holds it may overwrite it. */
  class Record<T> {
    var value: T

    constructor (value: T)
      ensures this.value == value
    {
      this.value := value;
    }
  }

  ghost function Objects<T>(records: seq<Record<T>>): set<object> {
    set o: object | o in records
  }

  function Values<T>(records: seq<Record<T>>): (values: seq<T>)
    reads records
    ensures |values| == |records| && forall k :: 0 <= k < |values| ==> values[k] == records[k].value
  {
    seq(|records|, k requires 0 <= k < |records| reads records => records[k].value)
  }

  method CloneRecords<T>(records: seq<Record<T>>) returns (copies: seq<Record<T>>)
    ensures fresh(Objects(copies)) && Values(copies) == Values(records)
  {
    copies := [];
    for i := 0 to |records|
      invariant |copies| == i && fresh(Objects(copies))
      invariant forall k :: 0 <= k < i ==> copies[k].value == records[k].value
    {
      var copy := new Record(records[i].value);
      copies := copies + [copy];
      assert forall o :: o in Objects(copies) ==> o == copy || o in Objects(copies[..i]);
      assert copies[..i] + [copy] == copies;
    }
  }

  class LookupResult {
    var found: bool
    var matches: List<Record<Match>>
    var uncheckedRegistries: List<Record<Reference>>

    constructor (found: bool, matches: List<Record<Match>>, uncheckedRegistries: List<Record<Reference>>)
      ensures this.found == found && this.matches == matches && this.uncheckedRegistries == uncheckedRegistries
    {
      this.found, this.matches, this.uncheckedRegistries := found, matches, uncheckedRegistries;
    }

    /** Every object of the result. */
    ghost function Parts(): set<object>
      reads this, matches, uncheckedRegistries
    {
      {this, matches, uncheckedRegistries} + Objects(matches.items) + Objects(uncheckedRegistries.items)
    }

    function Value(): Answer
      reads this, matches, uncheckedRegistries, matches.items, uncheckedRegistries.items
    {
      Answer(found, Values(matches.items), Values(uncheckedRegistries.items))
    }

    /** A deep copy: no object of it is shared with the original. */
    method Clone() returns (copy: LookupResult)
      ensures fresh(copy.Parts()) && copy.Value() == Value()
    {
      var matchCopies := CloneRecords(matches.items);
      var uncheckedCopies := CloneRecords(uncheckedRegistries.items);
      var m := new List(matchCopies);
      var u := new List(uncheckedCopies);
      copy := new LookupResult(found, m, u);
    }
  }

  /** The result is made of these objects and says `v`. */
  ghost predicate Says(objects: set<object>, r: LookupResult, v: Answer)
    reads objects
  {
    && r in objects && r.matches in objects && r.uncheckedRegistries in objects
    && r.Parts() <= objects
    && r.Value() == v
  }

  lemma SaysAmongMore(few: set<object>, many: set<object>, r: LookupResult, v: Answer)
    requires few <= many && Says(few, r, v)
    ensures Says(many, r, v)
  {
  }

  lemma SaysItsValue(objects: set<object>, r: LookupResult)
    requires r.Parts() <= objects
    ensures Says(objects, r, r.Value())
  {
    assert r in r.Parts() && r.matches in r.Parts() && r.uncheckedRegistries in r.Parts();
  }

  datatype LookupOptions = LookupOptions(fresh_: bool, exhaustive: bool)

  const PARTIAL_RESULT_TTL_MS := 60000.0

  /** How long an answer is remembered: an hour, or a minute when some registry could not be checked. */
  function AnswerTtl(v: Answer): (ttl: real)
    ensures 0.0 < ttl <= DEFAULT_TTL_MS
    ensures ttl == if v.uncheckedRegistries == [] then 3600000.0 else 60000.0
  {
    if |v.uncheckedRegistries| > 0 then PARTIAL_RESULT_TTL_MS else DEFAULT_TTL_MS
  }

  /** A walk: what the registries' handlers answered during it, and when its result was stored. */
  datatype Walked = Walked(handlers: Handlers, at: real)

  /** What the cache holds, as values: each key's answer and expiry. */
  type Contents = map<Text, (Answer, Option<real>)>

  /** The answer a reader sees at `now`. */
  function Held(contents: Contents, key: Text, now: real): Option<Answer> {
    if key in contents && !(contents[key].1.Some? && now > contents[key].1.value) then Some(contents[key].0) else None
  }

  /** The remembered answer a lookup uses, if there is one and it is not told to look afresh. */
  function Recalled(contents: Contents, did: Text, rs: seq<Registry>, options: LookupOptions, now: real): Option<Answer> {
    if options.fresh_ then None else Held(contents, FullKey(did, rs), now)
  }

  /** A lookup's answer, from what the cache holds at `now` and what the handlers say; none when a handler throws. */
  function AnswerOf(contents: Contents, h: Handlers, did: Text, rs: seq<Registry>, options: LookupOptions, now: real): Option<Answer> {
    var recalled := Recalled(contents, did, rs, options, now);
    if recalled.Some? then recalled else Walk(h, did, rs, options.exhaustive)
  }

  /**
   Whatever is cached under a list's key agrees with that list as the walk behind it
   found it, and expires when that walk's result does.
   */
  ghost predicate Sound(contents: Contents, walks: map<Text, Walked>) {
    && (forall k :: k in contents ==> k in walks && contents[k].1 == Some(walks[k].at + AnswerTtl(contents[k].0)))
    && forall did, rs :: FullKey(did, rs) in contents ==> Agrees(walks[FullKey(did, rs)].handlers, did, rs, contents[FullKey(did, rs)].0)
  }

  lemma SoundStored(contents: Contents, walks: map<Text, Walked>, h: Handlers, did: Text, rs: seq<Registry>, v: Answer, now: real)
    requires Sound(contents, walks) && Agrees(h, did, rs, v)
    ensures Sound(contents[FullKey(did, rs) := (v, Some(now + AnswerTtl(v)))], walks[FullKey(did, rs) := Walked(h, now)])
  {
    hide Agrees, FullKey, SameRegistries, AnswerTtl;
    var key := FullKey(did, rs);
    var after := contents[key := (v, Some(now + AnswerTtl(v)))];
    forall did', rs' | FullKey(did', rs') in after
      ensures Agrees(walks[key := Walked(h, now)][FullKey(did', rs')].handlers, did', rs', after[FullKey(did', rs')].0)
    {
      if FullKey(did', rs') == key {
        KeyIsFaithful(did, rs, did', rs');
        AgreesForSameRegistries(h, did, rs, rs', v);
      }
    }
  }

  lemma SoundWithout(contents: Contents, walks: map<Text, Walked>, key: Text)
    requires Sound(contents, walks)
    ensures Sound(contents - {key}, walks)
  {
    hide Agrees, FullKey, AnswerTtl;
  }

  class LookupService {
    const cache: InMemoryCache<Text, LookupResult>
    /** The walk behind each key that was ever stored. */
    ghost var walks: map<Text, Walked>
    ghost var held: Contents
    ghost var owned: set<object>

    /** The service owns its cache and every object reachable from it, and `held` says what the cache holds. */
    ghost predicate Holds()
      reads this, owned, cache
    {
      && this in owned && cache in owned
      && cache.entries.Keys == held.Keys
      && forall k :: k in cache.entries ==>
           Says(Results(), cache.entries[k].value, held[k].0) && held[k].1 == cache.entries[k].expiresAt
    }

    /** The objects of the results it owns. */
    ghost function Results(): set<object>
      reads this
    {
      owned - {this, cache}
    }

    ghost predicate Valid()
      reads this, owned, cache
    {
      Holds() && Sound(held, walks)
    }

    constructor ()
      ensures Valid() && fresh(owned) && fresh(cache) && cache.entries == map[] && held == map[] && walks == map[]
    {
      cache := new InMemoryCache();
      walks, held := map[], map[];
      new;
      owned := {this, cache};
    }

    /** Take ownership of a result. */
    method Adopt(r: LookupResult)
      requires Holds() && r.Parts() !! owned
      modifies this`owned
      ensures Holds() && owned == old(owned) + r.Parts()
      ensures Says(Results(), r, r.Value())
    {
      hide LookupResult.Value, LookupResult.Parts, Says;
      ghost var before := Results();
      owned := owned + r.Parts();
      assert before <= Results() && r.Parts() <= Results();
      SaysItsValue(Results(), r);
      forall k | k in cache.entries ensures Says(Results(), cache.entries[k].value, held[k].0) {
        SaysAmongMore(before, Results(), cache.entries[k].value, held[k].0);
      }
    }

    /** Cache a result the service owns, and the walk behind it. */
    method Put(key: Text, r: LookupResult, ghost v: Answer, ttl: real, now: real, ghost walk: Walked)
      requires Holds() && ttl > 0.0 && Says(Results(), r, v)
      modifies this`held, this`walks, cache
      ensures Holds()
      ensures held == old(held)[key := (v, Some(now + ttl))] && walks == old(walks)[key := walk]
    {
      hide Says;
      walks := walks[key := walk];
      held := held[key := (v, Some(now + ttl))];
      cache.Set(key, r, Some(ttl), now);
    }

    /** Read an entry; an expired one is dropped. */
    method Take(key: Text, now: real) returns (r: LookupResult?)
      requires Holds()
      modifies this`held, cache
      ensures Holds()
      ensures var hit := Held(old(held), key, now);
              && (r == null <==> hit.None?)
              && held == (if hit.None? then old(held) - {key} else old(held))
              && (r != null ==> Says(Results(), r, hit.value))
    {
      hide Says;
      var cached := cache.Get(key, now);
      if cached.Some? {
        return cached.value;
      }
      held := held - {key};
      r := null;
    }

    /** Cache `r` as the answer for `did` in `rs`, which the handlers just gave. */
    method Store(h: Handlers, did: Text, rs: seq<Registry>, r: LookupResult, now: real)
      requires Valid() && Agrees(h, did, rs, r.Value()) && r.Parts() !! owned
      modifies this`owned, this`walks, this`held, cache
      ensures Valid() && owned == old(owned) + r.Parts()
      ensures walks == old(walks)[FullKey(did, rs) := Walked(h, now)]
      ensures held == old(held)[FullKey(did, rs) := (r.Value(), Some(now + AnswerTtl(r.Value())))]
    {
      hide Agrees, FullKey, Sound, AnswerTtl, LookupService.Holds, LookupResult.Value, LookupResult.Parts;
      SoundStored(held, walks, h, did, rs, r.Value(), now);
      var ttl := AnswerTtl(r.Value());
      Adopt(r);
      Put(FullKey(did, rs), r, r.Value(), ttl, now, Walked(h, now));
    }

    /** Walk the registries, pushing onto the two lists; a throw ends it. */
    method VisitRegistries(handlers: Handlers, did: Text, rs: seq<Registry>, exhaustive: bool,
                           matches: List<Record<Match>>, unchecked: List<Record<Reference>>)
      returns (threw: bool)
      requires matches.items == [] && unchecked.items == []
      modifies matches, unchecked
      ensures Walk(handlers, did, rs, exhaustive) ==
              if threw then None else Some(Answer(matches.items != [], Values(matches.items), Values(unchecked.items)))
      ensures forall k :: 0 <= k < |matches.items| ==> fresh(matches.items[k])
      ensures forall k :: 0 <= k < |unchecked.items| ==> fresh(unchecked.items[k])
    {
      var i := 0;
      var stop := false;
      ghost var cs := CanonList(rs);
      ghost var m, u := [], [];
      assert Walk(handlers, did, rs, exhaustive) == WalkFrom(handlers, did, cs, exhaustive, 0, m, u);
      hide Values, Canon, RegistryReference, Walk, WalkFrom, MatchesOf, UncheckedOf;
      while i < |rs| && !stop
        invariant i <= |rs|
        invariant forall k :: 0 <= k < |matches.items| ==> fresh(matches.items[k])
        invariant forall k :: 0 <= k < |unchecked.items| ==> fresh(unchecked.items[k])
        invariant Values(matches.items) == m && Values(unchecked.items) == u
        invariant Walk(handlers, did, rs, exhaustive) ==
                  if stop then Some(Answer(true, m, u)) else WalkFrom(handlers, did, cs, exhaustive, i, m, u)
        invariant stop ==> m != []
        decreases |rs| - i, !stop
      {
        var c := Canon(rs[i]);
        var outcome := handlers(did, c);
        WalkStep(handlers, did, cs, exhaustive, i, m, u);
        if outcome.Threw? {
          return true;
        }
        Visit(outcome, RegistryReference(c), matches, unchecked);
        m, u := m + MatchesOf(outcome, RegistryReference(c)), u + UncheckedOf(outcome, RegistryReference(c));
        stop := outcome.Found? && !exhaustive;
        i := i + 1;
      }
      WalkEnds(handlers, did, cs, exhaustive, m, u);
      threw := false;
    }

    /** The walk on fresh lists; a throw surfaces as no result. */
    method WalkRegistries(handlers: Handlers, did: Text, rs: seq<Registry>, exhaustive: bool) returns (r: LookupResult?)
      ensures r == null <==> Walk(handlers, did, rs, exhaustive).None?
      ensures r != null ==> fresh(r.Parts()) && Walk(handlers, did, rs, exhaustive) == Some(r.Value())
    {
      hide Walk;
      var matches := new List<Record<Match>>([]);
      var unchecked := new List<Record<Reference>>([]);
      var threw := VisitRegistries(handlers, did, rs, exhaustive, matches, unchecked);
      if threw {
        return null;
      }
      r := new LookupResult(|matches.items| > 0, matches, unchecked);
    }

    /** The remembered answer, as a copy; an expired entry is dropped on the way. */
    method Remembered(did: Text, rs: seq<Registry>, now: real) returns (r: LookupResult?)
      requires Valid()
      modifies this`held, cache
      ensures Valid()
      ensures var hit := Held(old(held), FullKey(did, rs), now);
              && (r == null <==> hit.None?)
              && held == (if hit.None? then old(held) - {FullKey(did, rs)} else old(held))
              && (r != null ==>
                    && fresh(r.Parts()) && hit == Some(r.Value())
                    && FullKey(did, rs) in walks
                    && Agrees(walks[FullKey(did, rs)].handlers, did, rs, r.Value())
                    && now - walks[FullKey(did, rs)].at <= AnswerTtl(r.Value()))
    {
      hide Agrees, FullKey, AnswerTtl, LookupService.Holds, LookupResult.Value, LookupResult.Parts;
      var key := FullKey(did, rs);
      SoundWithout(held, walks, key);
      r := Take(key, now);
      if r != null {
        assert key in held;
        r := r.Clone();
      }
    }

    /** Walk, remember the result, and hand out a copy of it. */
    method WalkAndStore(h: Handlers, did: Text, rs: seq<Registry>, exhaustive: bool, now: real) returns (r: LookupResult?)
      requires Valid()
      modifies this`owned, this`walks, this`held, cache
      ensures Valid() && old(owned) <= owned && fresh(owned - old(owned))
      ensures r == null <==> Walk(h, did, rs, exhaustive).None?
      ensures r == null ==> held == old(held) && walks == old(walks)
      ensures r != null ==>
                && fresh(r.Parts()) && r.Parts() !! owned
                && Walk(h, did, rs, exhaustive) == Some(r.Value())
                && Agrees(h, did, rs, r.Value())
                && walks == old(walks)[FullKey(did, rs) := Walked(h, now)]
                && held == old(held)[FullKey(did, rs) := (r.Value(), Some(now + AnswerTtl(r.Value())))]
    {
      hide Agrees, FullKey, Walk, AnswerTtl, LookupService.Valid, LookupResult.Value, LookupResult.Parts;
      WalkAgrees(h, did, rs, exhaustive);
      var result := WalkRegistries(h, did, rs, exhaustive);
      if result == null {
        return null;
      }
      Store(h, did, rs, result, now);
      r := result.Clone();
    }

    /**
     One lookup, while the handlers answer as `h` says: the specification's answer, as a copy that shares no object
     with the cache. It agrees with the registries as some walk found them, in whatever order the
     list is given and whatever the earlier lookups' options were: this lookup's own walk, or a remembered
     one no older than an hour, or a minute when incomplete.
     */
    method Lookup(h: Handlers, did: Text, rs: seq<Registry>, options: LookupOptions, nowGet: real, nowSet: real)
      returns (r: LookupResult?, ghost walk: Walked)
      requires Valid()
      modifies this`owned, this`walks, this`held, cache
      ensures Valid() && old(owned) <= owned && fresh(owned - old(owned))
      ensures r == null <==> AnswerOf(old(held), h, did, rs, options, nowGet).None?
      ensures r != null ==>
                && fresh(r.Parts()) && r.Parts() !! owned
                && AnswerOf(old(held), h, did, rs, options, nowGet) == Some(r.Value())
                && Agrees(walk.handlers, did, rs, r.Value())
      ensures if Recalled(old(held), did, rs, options, nowGet).Some? then
                && FullKey(did, rs) in old(walks) && walk == old(walks)[FullKey(did, rs)]
                && r != null && nowGet - walk.at <= AnswerTtl(r.Value())
                && held == old(held) && walks == old(walks)
              else
                && walk == Walked(h, nowSet)
                && held - {FullKey(did, rs)} == old(held) - {FullKey(did, rs)}
                && (if r == null then walks == old(walks) && FullKey(did, rs) !in held - old(held).Keys
                    else
                      && walks == old(walks)[FullKey(did, rs) := walk]
                      && FullKey(did, rs) in held
                      && held[FullKey(did, rs)] == (r.Value(), Some(nowSet + AnswerTtl(r.Value()))))
    {
      hide Agrees, FullKey, Walk, AnswerTtl, LookupService.Valid, LookupResult.Value, LookupResult.Parts;
      if !options.fresh_ {
        r := Remembered(did, rs, nowGet);
        if r != null {
          return r, walks[FullKey(did, rs)];
        }
      }
      r := WalkAndStore(h, did, rs, options.exhaustive, nowSet);
      walk := Walked(h, nowSet);
    }
  }

  function MatchesOf(answer: HandlerAnswer, reference: Reference): seq<Match> {
    if answer.Found? then [Match(reference, answer.entity)] else []
  }

  function UncheckedOf(answer: HandlerAnswer, reference: Reference): seq<Reference> {
    if answer.Unchecked? then [reference] else []
  }

  /** One step of the walk that does not throw: push what the registry contributes, and stop or go on. */
  lemma WalkStep(h: Handlers, did: Text, cs: seq<Canonical>, exhaustive: bool, i: nat, matches: seq<Match>, unchecked: seq<Reference>)
    requires i < |cs|
    ensures var answer, reference := h(did, cs[i]), RegistryReference(cs[i]);
            var m, u := matches + MatchesOf(answer, reference), unchecked + UncheckedOf(answer, reference);
            WalkFrom(h, did, cs, exhaustive, i, matches, unchecked) ==
            if answer.Threw? then None
            else if answer.Found? && !exhaustive then Some(Answer(true, m, u))
            else WalkFrom(h, did, cs, exhaustive, i + 1, m, u)
    ensures var answer := h(did, cs[i]);
            answer.Found? ==> matches + MatchesOf(answer, RegistryReference(cs[i])) != []
  {
    assert matches + [] == matches && unchecked + [] == unchecked;
  }

  lemma WalkEnds(h: Handlers, did: Text, cs: seq<Canonical>, exhaustive: bool, matches: seq<Match>, unchecked: seq<Reference>)
    ensures WalkFrom(h, did, cs, exhaustive, |cs|, matches, unchecked) == Some(Answer(matches != [], matches, unchecked))
  {
  }

  /** Push onto the lists what one registry contributes. */
  method Visit(answer: HandlerAnswer, reference: Reference, matches: List<Record<Match>>, unchecked: List<Record<Reference>>)
    modifies matches, unchecked
    ensures Values(matches.items) == old(Values(matches.items)) + MatchesOf(answer, reference)
    ensures Values(unchecked.items) == old(Values(unchecked.items)) + UncheckedOf(answer, reference)
    ensures old(matches.items) <= matches.items && forall k :: |old(matches.items)| <= k < |matches.items| ==> fresh(matches.items[k])
    ensures old(unchecked.items) <= unchecked.items && forall k :: |old(unchecked.items)| <= k < |unchecked.items| ==> fresh(unchecked.items[k])
  {
    hide Values;
    match answer {
      case Found(entity) => PushValue(matches, Match(reference, entity));
      case Unchecked => PushValue(unchecked, reference);
      case _ =>
    }
  }

  /** Push a new record onto a list. */
  method PushValue<T>(list: List<Record<T>>, value: T)
    modifies list
    ensures Values(list.items) == old(Values(list.items)) + [value]
    ensures old(list.items) <= list.items && forall k :: |old(list.items)| <= k < |list.items| ==> fresh(list.items[k])
  {
    ghost var before := Values(list.items);
    var record := new Record(value);
    list.Push(record);
    assert Values(list.items) == before + [value];
  }

  // ----- callers -----

  /** What a caller writes over the copy it was given: every record in it, and then its lists. */
  datatype Scribbling = Scribbling(match_: Match, reference: Reference, found: bool)

  /** One call, what the handlers answer while it runs, and what the caller then does to its copy. */
  datatype Request = Request(handlers: Handlers, did: Text, registries: seq<Registry>, options: LookupOptions,
                             nowGet: real, nowSet: real, scribbling: Scribbling)

  method Overwrite<T>(records: seq<Record<T>>, value: T)
    modifies records
    ensures forall record :: record in records ==> record.value == value
  {
    for i := 0 to |records|
      invariant forall k :: 0 <= k < i ==> records[k].value == value
    {
      records[i].value := value;
    }
  }

  /** A caller may do what it likes with every object of its copy. */
  method Scribble(r: LookupResult, scribbling: Scribbling)
    modifies r.Parts()
  {
    Overwrite(r.matches.items, scribbling.match_);
    Overwrite(r.uncheckedRegistries.items, scribbling.reference);
    r.matches.items := [];
    r.uncheckedRegistries.items := [];
    r.found := scribbling.found;
  }

  /** One call by a caller that keeps the answer's value and then ruins its copy. */
  method LookupAndScribble(service: LookupService, q: Request) returns (answer: Option<Answer>, ghost walk: Walked)
    requires service.Valid()
    modifies service`owned, service`walks, service`held, service.cache
    ensures service.Valid() && old(service.owned) <= service.owned && fresh(service.owned - old(service.owned))
    ensures answer.Some? ==> Agrees(walk.handlers, q.did, q.registries, answer.value)
    ensures var key := FullKey(q.did, q.registries);
            || (&& walk == Walked(q.handlers, q.nowSet)
                && (service.walks == old(service.walks) || service.walks == old(service.walks)[key := walk]))
            || (&& !q.options.fresh_ && answer.Some?
                && key in old(service.walks) && walk == old(service.walks)[key]
                && q.nowGet - walk.at <= AnswerTtl(answer.value)
                && service.walks == old(service.walks))
  {
    hide Agrees, LookupService.Valid, FullKey, Walk;
    answer := None;
    var r, w := service.Lookup(q.handlers, q.did, q.registries, q.options, q.nowGet, q.nowSet);
    walk := w;
    if r != null {
      answer := Some(r.Value());
      Scribble(r, q.scribbling);
    }
  }

  /** The `k`-th answer is what the `j`-th request's walk found: its own, or an earlier one it may still be remembered from. */
  ghost predicate AnswersFrom(requests: seq<Request>, k: nat, answer: Answer, j: nat)
    requires k < |requests|
  {
    && j <= k
    && Agrees(requests[j].handlers, requests[k].did, requests[k].registries, answer)
    && (j < k ==> !requests[k].options.fresh_ && requests[k].nowGet - requests[j].nowSet <= if answer.uncheckedRegistries == [] then 3600000.0 else 60000.0)
  }

  /** Each walk on record was made for one of the first `n` requests. */
  ghost predicate WalksFrom(walks: map<Text, Walked>, requests: seq<Request>, n: nat)
    requires n <= |requests|
  {
    forall key :: key in walks ==> exists j :: 0 <= j < n && walks[key] == Walked(requests[j].handlers, requests[j].nowSet)
  }

  /**
   Over any sequence of lookups, for any DIDs and lists, with any options and
   times, with handlers that change their answers from one lookup to the next, and with every caller scribbling over what it
   was handed, each answer agrees with its own registries as a walk found them that was made for this request, or
   for an earlier one at most an hour before, at most a minute when some registry was unchecked.
   */
  method LookupSequence(service: LookupService, requests: seq<Request>) returns (answers: seq<Option<Answer>>)
    requires service.Valid() && service.walks == map[]
    modifies service`owned, service`walks, service`held, service.cache
    ensures service.Valid() && old(service.owned) <= service.owned && fresh(service.owned - old(service.owned))
    ensures |answers| == |requests|
    ensures forall k :: 0 <= k < |requests| && answers[k].Some? ==> exists j: nat :: AnswersFrom(requests, k, answers[k].value, j)
  {
    hide Agrees, LookupService.Valid, FullKey;
    answers := [];
    for n := 0 to |requests|
      invariant service.Valid() && old(service.owned) <= service.owned && fresh(service.owned - old(service.owned))
      invariant |answers| == n
      invariant WalksFrom(service.walks, requests, n)
      invariant forall k :: 0 <= k < n && answers[k].Some? ==> exists j: nat :: AnswersFrom(requests, k, answers[k].value, j)
    {
      ghost var before := service.walks;
      var answer, walk := LookupAndScribble(service, requests[n]);
      ghost var j := SourceOf(before, service.walks, requests, n, walk);
      assert answer.Some? ==> AnswersFrom(requests, n, answer.value, j);
      answers := answers + [answer];
    }
  }

  /** The request a walk was made for. */
  lemma SourceOf(before: map<Text, Walked>, after: map<Text, Walked>, requests: seq<Request>, n: nat, walk: Walked) returns (j: nat)
    requires n < |requests| && WalksFrom(before, requests, n)
    requires var q := requests[n];
             var key := FullKey(q.did, q.registries);
             || (walk == Walked(q.handlers, q.nowSet) && (after == before || after == before[key := walk]))
             || (key in before && walk == before[key] && after == before)
    ensures j <= n && walk == Walked(requests[j].handlers, requests[j].nowSet)
    ensures walk == Walked(requests[n].handlers, requests[n].nowSet) <==> j == n
    ensures WalksFrom(after, requests, n + 1)
  {
    hide FullKey;
    var q := requests[n];
    if walk == Walked(q.handlers, q.nowSet) {
      j := n;
    } else {
      j :| 0 <= j < n && walk == Walked(requests[j].handlers, requests[j].nowSet);
    }
  }

  // ----- when an answer is current -----

  /** Whatever the handlers say now, the lookup's answer agrees with it. */
  ghost predicate AlwaysCurrent(contents: Contents, did: Text, rs: seq<Registry>, options: LookupOptions, now: real) {
    forall h :: CurrentFor(contents, h, did, rs, options, now)
  }

  ghost predicate CurrentFor(contents: Contents, h: Handlers, did: Text, rs: seq<Registry>, options: LookupOptions, now: real) {
    var answer := AnswerOf(contents, h, did, rs, options, now);
    answer.Some? ==> Agrees(h, did, rs, answer.value)
  }

  /** Handlers that all say the same. */
  function Unanimous(answer: HandlerAnswer): Handlers { (did: Text, c: Canonical) => answer }

  /** No answer agrees both with handlers that all find the DID and with handlers that all do not, if there are any. */
  lemma UnanimityIsNoticed(did: Text, rs: seq<Registry>, v: Answer)
    requires rs != []
    ensures Agrees(Unanimous(Found(None)), did, rs, v) ==> v.found
    ensures Agrees(Unanimous(NotFound), did, rs, v) ==> !v.found
  {
    assert CanonList(rs)[0] in CanonList(rs);
    hide Collect;
  }

  lemma NothingToAgreeOn(h1: Handlers, h2: Handlers, did: Text, v: Answer)
    requires Agrees(h1, did, [], v)
    ensures Agrees(h2, did, [], v)
  {
  }

  /**
   What a caller can tell beforehand: a lookup's answer agrees with the registries as they
   are at the time of the call, whatever that is, iff no live answer is recalled, or there are no registries.
   */
  lemma CurrentIff(contents: Contents, walks: map<Text, Walked>, did: Text, rs: seq<Registry>, options: LookupOptions, now: real)
    requires Sound(contents, walks)
    ensures AlwaysCurrent(contents, did, rs, options, now) <==> Recalled(contents, did, rs, options, now).None? || rs == []
  {
    hide Agrees, FullKey, Walk, Unanimous;
    var recalled := Recalled(contents, did, rs, options, now);
    if recalled.None? {
      forall h ensures CurrentFor(contents, h, did, rs, options, now) {
        WalkAgrees(h, did, rs, options.exhaustive);
      }
    } else if rs == [] {
      forall h ensures CurrentFor(contents, h, did, rs, options, now) {
        NothingToAgreeOn(walks[FullKey(did, rs)].handlers, h, did, recalled.value);
      }
    } else {
      UnanimityIsNoticed(did, rs, recalled.value);
      assert !CurrentFor(contents, Unanimous(if recalled.value.found then NotFound else Found(None)), did, rs, options, now);
    }
  }

  /** A registry lists the DID when it is first asked and no longer does later: for an hour a lookup still finds it. */
  method StaleAnswer(did: Text, registry: Registry, before: Handlers, after: Handlers, later: real) returns (answer: Answer)
    requires before(did, Canon(registry)).Found? && !after(did, Canon(registry)).Found?
    requires 0.0 <= later <= DEFAULT_TTL_MS
    ensures answer.found && !Agrees(after, did, [registry], answer)
  {
    OneRegistry(before, did, registry);
    OneRegistry(after, did, registry);
    hide Agrees, FullKey, Walk, SomeFound, LookupService.Valid, LookupResult.Parts, LookupResult.Value;
    var service := new LookupService();
    var options := LookupOptions(false, false);
    var first, _ := service.Lookup(before, did, [registry], options, 0.0, 0.0);
    var second, _ := service.Lookup(after, did, [registry], options, later, later);
    answer := second.Value();
  }

  lemma OneRegistry(h: Handlers, did: Text, registry: Registry)
    ensures forall v :: Agrees(h, did, [registry], v) ==> (v.found <==> h(did, Canon(registry)).Found?)
    ensures h(did, Canon(registry)).Found? ==>
              var walk := Walk(h, did, [registry], false);
              walk.Some? && walk.value.found && walk.value.uncheckedRegistries == []
  {
    assert CanonList([registry])[0] == Canon(registry);
    hide Collect;
  }

  // ----- the check -----

  datatype RegistryOutcome =
    | NothingToCheck
    | IssuerIdMissing
    | LookupFailed
    | Registered(payload: Answer)
    | Undetermined(uncheckedCount: nat, payload: Answer)
    | NotRegistered(checkedCount: nat, uncheckedCount: nat, payload: Answer)

  /** How many registries answered that they do not list the DID. */
  function AnsweredCount(h: Handlers, did: Text, cs: seq<Canonical>): nat {
    if cs == [] then 0
    else AnsweredCount(h, did, cs[..|cs| - 1]) + if h(did, cs[|cs| - 1]).NotFound? then 1 else 0
  }

  lemma {:induction false} AnsweredOrUnchecked(h: Handlers, did: Text, cs: seq<Canonical>)
    requires forall c :: c in cs ==> h(did, c).NotFound? || h(did, c).Unchecked?
    ensures AnsweredCount(h, did, cs) + |AllUnchecked(h, did, cs)| == |cs|
  {
    if cs != [] {
      AnsweredOrUnchecked(h, did, cs[..|cs| - 1]);
    }
  }

  /**
   The issuer registry check. Its verdict is about the registries themselves, as this call's walk or one
   remembered within its lifetime found them: registered iff some registry listed the
   issuer, otherwise undetermined iff none answered, otherwise not registered
   with the number that did answer and the number that did not.
   */
  method IssuerRegistryCheck(service: LookupService?, h: Handlers, hasCredential: bool, registries: Option<seq<Registry>>,
                             issuer: Option<Text>, nowGet: real, nowSet: real)
    returns (o: RegistryOutcome, ghost walk: Walked)
    requires service != null ==> service.Valid()
    modifies if service == null then {} else {service, service.cache}
    ensures service != null ==> service.Valid()
    ensures if !hasCredential || registries.None? || registries.value == [] then o == NothingToCheck
            else if issuer.None? then o == IssuerIdMissing
            else if service == null then o == NothingToCheck
            else
              var did, cs := issuer.value, CanonList(registries.value);
              var w := walk.handlers;
              match o
              case LookupFailed => walk == Walked(h, nowSet) && exists c :: c in cs && h(did, c).Threw?
              case Registered(payload) =>
                SomeFound(w, did, cs) && Agrees(w, did, registries.value, payload) && Current(walk, h, payload, nowGet, nowSet)
              case Undetermined(n, payload) =>
                && !SomeFound(w, did, cs) && AnsweredCount(w, did, cs) == 0 && n == |cs|
                && Agrees(w, did, registries.value, payload) && Current(walk, h, payload, nowGet, nowSet)
              case NotRegistered(answered, n, payload) =>
                && !SomeFound(w, did, cs)
                && answered == AnsweredCount(w, did, cs) > 0 && n == |AllUnchecked(w, did, cs)|
                && Agrees(w, did, registries.value, payload) && Current(walk, h, payload, nowGet, nowSet)
              case _ => false
  {
    walk := Walked(h, nowSet);
    if !hasCredential || registries.None? || registries.value == [] {
      return NothingToCheck, walk;
    }
    if issuer.None? {
      return IssuerIdMissing, walk;
    }
    if service == null {
      return NothingToCheck, walk;
    }
    var rs := registries.value;
    hide FullKey;
    WalkThrows(h, issuer.value, CanonList(rs), false, 0, [], []);
    var r, w := service.Lookup(h, issuer.value, rs, LookupOptions(false, false), nowGet, nowSet);
    walk := w;
    if r == null {
      return LookupFailed, walk;
    }
    var payload := r.Value();
    var uncheckedCount := |payload.uncheckedRegistries|;
    if payload.found {
      return Registered(payload), walk;
    }
    AnsweredOrUnchecked(w.handlers, issuer.value, CanonList(rs));
    assert |multiset(payload.uncheckedRegistries)| == |multiset(AllUnchecked(w.handlers, issuer.value, CanonList(rs)))|;
    if uncheckedCount >= |rs| {
      return Undetermined(uncheckedCount, payload), walk;
    }
    o := NotRegistered(|rs| - uncheckedCount, uncheckedCount, payload);
  }

  /** The walk is this call's own, or one whose result may still be remembered. */
  ghost predicate Current(walk: Walked, h: Handlers, payload: Answer, nowGet: real, nowSet: real) {
    walk == Walked(h, nowSet) || nowGet - walk.at <= AnswerTtl(payload)
  }

  lemma {:induction false} WalkThrows(h: Handlers, did: Text, cs: seq<Canonical>, exhaustive: bool, i: nat,
                                      matches: seq<Match>, unchecked: seq<Reference>)
    requires i <= |cs|
    ensures WalkFrom(h, did, cs, exhaustive, i, matches, unchecked).None? ==> exists c :: c in cs && h(did, c).Threw?
    decreases |cs| - i
  {
    if i < |cs| {
      var m := if h(did, cs[i]).Found? then matches + [Match(RegistryReference(cs[i]), h(did, cs[i]).entity)] else matches;
      var u := if h(did, cs[i]).Unchecked? then unchecked + [RegistryReference(cs[i])] else unchecked;
      WalkThrows(h, did, cs, exhaustive, i + 1, m, u);
    }
  }
}
