/**
 The issuer lookup: a walk over registries that may stop early, behind a cache
 keyed by the registry list.
 */
module RegistryLookup {
  import opened Options
  import opened JsonText
  import opened RegistryCacheKey
  import opened CacheService

  /** What one registry's handler says about one DID. */
  datatype HandlerAnswer =
    | Found(entity: Option<Text>)
    | NotFound
    | Unchecked
    | Threw

  /** What the handlers answer during one lookup; a handler reads accepted issuers only by membership. */
  type Handlers = (Text, Canonical) -> HandlerAnswer

  datatype Reference = Reference(name: Text, kind: Kind, url: Text)
  datatype Match = Match(registry: Reference, entity: Option<Text>)

  /** A lookup's answer, as a value. */
  datatype Answer = Answer(found: bool, matches: seq<Match>, uncheckedRegistries: seq<Reference>)

  function RegistryReference(c: Canonical): Reference { Reference(c.name, c.kind, c.url) }

  /** The match a registry contributes, if its handler found the DID. */
  function MatchIn(h: Handlers, did: Text): Canonical -> Option<Match> {
    (c: Canonical) =>
      if h(did, c).Found? then Some(Match(RegistryReference(c), h(did, c).entity)) else None
  }

  function UncheckedIn(h: Handlers, did: Text): Canonical -> Option<Reference> {
    (c: Canonical) => if h(did, c).Unchecked? then Some(RegistryReference(c)) else None
  }

  // ----- collecting over a list -----

  function Collect<T>(f: Canonical -> Option<T>, cs: seq<Canonical>): seq<T> {
    if cs == [] then []
    else
      Collect(f, cs[..|cs| - 1]) + match f(cs[|cs| - 1]) case None => [] case Some(t) => [t]
  }

  lemma {:induction false} CollectConcat<T>(f: Canonical -> Option<T>, a: seq<Canonical>, b: seq<Canonical>)
    ensures Collect(f, a + b) == Collect(f, a) + Collect(f, b)
    decreases |b|
  {
    if b == [] {
      assert a + b == a;
    } else {
      assert (a + b)[..|a + b| - 1] == a + b[..|b| - 1];
      CollectConcat(f, a, b[..|b| - 1]);
    }
  }

  /** Where a permutation holds another list's last element, and what is left of both without it. */
  lemma TakeOut(a: seq<Canonical>, b: seq<Canonical>) returns (k: nat)
    requires a != [] && multiset(a) == multiset(b)
    ensures k < |b| && b[k] == a[|a| - 1]
    ensures multiset(a[..|a| - 1]) == multiset(b[..k] + b[k + 1..])
    ensures a == a[..|a| - 1] + [b[k]] && b == b[..k] + [b[k]] + b[k + 1..]
  {
    var init, last := a[..|a| - 1], a[|a| - 1];
    assert a == init + [last];
    assert last in multiset(b);
    k :| 0 <= k < |b| && b[k] == last;
    var left, right := b[..k], b[k + 1..];
    assert b == left + [last] + right;
    assert multiset(b) == multiset(left) + multiset{last} + multiset(right);
    assert multiset(init) == multiset(a) - multiset{last};
  }

  lemma {:induction false} CollectPermuted<T>(f: Canonical -> Option<T>, a: seq<Canonical>, b: seq<Canonical>)
    requires multiset(a) == multiset(b)
    ensures multiset(Collect(f, a)) == multiset(Collect(f, b))
    decreases |a|
  {
    if a == [] {
      assert |multiset(b)| == 0;
    } else {
      var k := TakeOut(a, b);
      var init, left, right := a[..|a| - 1], b[..k], b[k + 1..];
      CollectPermuted(f, init, left + right);
      CollectConcat(f, left, right);
      CollectConcat(f, left + [b[k]], right);
      CollectConcat(f, left, [b[k]]);
      CollectConcat(f, init, [b[k]]);
      hide Collect;
    }
  }

  lemma CollectStep<T>(f: Canonical -> Option<T>, cs: seq<Canonical>, i: nat)
    requires i < |cs|
    ensures Collect(f, cs[..i + 1]) == Collect(f, cs[..i]) + match f(cs[i]) case None => [] case Some(t) => [t]
  {
    assert cs[..i + 1][..i] == cs[..i];
  }

  lemma {:induction false} CollectNone<T>(f: Canonical -> Option<T>, cs: seq<Canonical>)
    ensures Collect(f, cs) == [] <==> forall c :: c in cs ==> f(c).None?
  {
    if cs != [] {
      CollectNone(f, cs[..|cs| - 1]);
      assert cs == cs[..|cs| - 1] + [cs[|cs| - 1]];
    }
  }

  // ----- what an answer must be -----

  function AllMatches(h: Handlers, did: Text, cs: seq<Canonical>): seq<Match> {
    Collect(MatchIn(h, did), cs)
  }

  function AllUnchecked(h: Handlers, did: Text, cs: seq<Canonical>): seq<Reference> {
    Collect(UncheckedIn(h, did), cs)
  }

  ghost predicate SomeFound(h: Handlers, did: Text, cs: seq<Canonical>) {
    exists c :: c in cs && h(did, c).Found?
  }

  /**
   `v` agrees with the registries: it says found iff some registry lists the DID,
   its matches are real and missing only if there are none, and when it says not
   found, every registry answered not-found or is listed as unchecked.
   */
  ghost predicate Agrees(h: Handlers, did: Text, rs: seq<Registry>, v: Answer) {
    var cs := CanonList(rs);
    && (v.found <==> SomeFound(h, did, cs))
    && (v.found <==> v.matches != [])
    && multiset(v.matches) <= multiset(AllMatches(h, did, cs))
    && multiset(v.uncheckedRegistries) <= multiset(AllUnchecked(h, did, cs))
    && (!v.found ==>
          && multiset(v.uncheckedRegistries) == multiset(AllUnchecked(h, did, cs))
          && forall c :: c in cs ==> h(did, c).NotFound? || h(did, c).Unchecked?)
  }

  /** Agreement is about the registries, not about their order. */
  lemma AgreesForSameRegistries(h: Handlers, did: Text, a: seq<Registry>, b: seq<Registry>, v: Answer)
    requires SameRegistries(a, b) && Agrees(h, did, a, v)
    ensures Agrees(h, did, b, v)
  {
    var ca, cb := CanonList(a), CanonList(b);
    CollectPermuted(MatchIn(h, did), ca, cb);
    CollectPermuted(UncheckedIn(h, did), ca, cb);
    forall c ensures c in ca <==> c in cb {
      assert c in ca <==> c in multiset(ca);
      assert c in cb <==> c in multiset(cb);
    }
    hide Collect, MatchIn, UncheckedIn, SameRegistries;
  }

  // ----- the walk -----

  /** The walk from position `i`: stop at the first match unless exhaustive; a handler's throw ends it without an answer. */
  function WalkFrom(h: Handlers, did: Text, cs: seq<Canonical>, exhaustive: bool, i: nat,
                    matches: seq<Match>, unchecked: seq<Reference>): Option<Answer>
    requires i <= |cs|
    decreases |cs| - i
  {
    if i == |cs| then Some(Answer(matches != [], matches, unchecked))
    else
      match h(did, cs[i])
      case Threw => None
      case NotFound => WalkFrom(h, did, cs, exhaustive, i + 1, matches, unchecked)
      case Unchecked => WalkFrom(h, did, cs, exhaustive, i + 1, matches, unchecked + [RegistryReference(cs[i])])
      case Found(entity) =>
        var more := matches + [Match(RegistryReference(cs[i]), entity)];
        if exhaustive then WalkFrom(h, did, cs, exhaustive, i + 1, more, unchecked)
        else Some(Answer(true, more, unchecked))
  }

  function Walk(h: Handlers, did: Text, rs: seq<Registry>, exhaustive: bool): Option<Answer> {
    WalkFrom(h, did, CanonList(rs), exhaustive, 0, [], [])
  }

  /** The walk has passed the registries in `done` and holds exactly what they contributed. */
  ghost predicate Walked(h: Handlers, did: Text, done: seq<Canonical>, matches: seq<Match>, unchecked: seq<Reference>) {
    && matches == AllMatches(h, did, done)
    && unchecked == AllUnchecked(h, did, done)
    && forall c :: c in done ==> !h(did, c).Threw?
  }

  lemma WalkedStep(h: Handlers, did: Text, cs: seq<Canonical>, i: nat, matches: seq<Match>, unchecked: seq<Reference>)
    requires i < |cs| && Walked(h, did, cs[..i], matches, unchecked) && !h(did, cs[i]).Threw?
    ensures Walked(h, did, cs[..i + 1],
                   matches + (if h(did, cs[i]).Found? then [Match(RegistryReference(cs[i]), h(did, cs[i]).entity)] else []),
                   unchecked + (if h(did, cs[i]).Unchecked? then [RegistryReference(cs[i])] else []))
  {
    CollectStep(MatchIn(h, did), cs, i);
    CollectStep(UncheckedIn(h, did), cs, i);
    hide Collect;
    assert forall c :: c in cs[..i + 1] <==> c in cs[..i] || c == cs[i];
  }

  lemma MatchesIffSomeFound(h: Handlers, did: Text, cs: seq<Canonical>)
    ensures AllMatches(h, did, cs) != [] <==> SomeFound(h, did, cs)
  {
    CollectNone(MatchIn(h, did), cs);
    hide Collect;
    forall c ensures MatchIn(h, did)(c).Some? <==> h(did, c).Found? {
    }
  }

  lemma CollectPrefix(h: Handlers, did: Text, cs: seq<Canonical>, i: nat)
    requires i <= |cs|
    ensures multiset(AllMatches(h, did, cs[..i])) <= multiset(AllMatches(h, did, cs))
    ensures multiset(AllUnchecked(h, did, cs[..i])) <= multiset(AllUnchecked(h, did, cs))
  {
    assert cs == cs[..i] + cs[i..];
    CollectConcat(MatchIn(h, did), cs[..i], cs[i..]);
    CollectConcat(UncheckedIn(h, did), cs[..i], cs[i..]);
    hide Collect, MatchIn, UncheckedIn;
  }

  /** Stopping after any part of the list agrees with the whole once something was found; without a match only the end will do. */
  lemma StopAgrees(h: Handlers, did: Text, rs: seq<Registry>, i: nat, matches: seq<Match>, unchecked: seq<Reference>)
    requires i <= |rs| && Walked(h, did, CanonList(rs)[..i], matches, unchecked)
    requires i == |rs| || matches != []
    ensures Agrees(h, did, rs, Answer(matches != [], matches, unchecked))
  {
    var cs := CanonList(rs);
    assert i == |rs| ==> cs[..i] == cs;
    CollectPrefix(h, did, cs, i);
    MatchesIffSomeFound(h, did, cs[..i]);
    hide AllMatches, AllUnchecked;
    assert SomeFound(h, did, cs[..i]) ==> SomeFound(h, did, cs);
  }

  lemma {:induction false} WalkFromAgrees(h: Handlers, did: Text, rs: seq<Registry>, exhaustive: bool, i: nat,
                                          matches: seq<Match>, unchecked: seq<Reference>)
    requires i <= |rs| && Walked(h, did, CanonList(rs)[..i], matches, unchecked)
    ensures var v := WalkFrom(h, did, CanonList(rs), exhaustive, i, matches, unchecked);
            v.Some? ==> Agrees(h, did, rs, v.value)
    decreases |rs| - i
  {
    hide Agrees, Walked;
    var cs := CanonList(rs);
    if i == |cs| {
      StopAgrees(h, did, rs, i, matches, unchecked);
    } else if !h(did, cs[i]).Threw? {
      var m := if h(did, cs[i]).Found? then [Match(RegistryReference(cs[i]), h(did, cs[i]).entity)] else [];
      var u := if h(did, cs[i]).Unchecked? then [RegistryReference(cs[i])] else [];
      WalkedStep(h, did, cs, i, matches, unchecked);
      assert matches + [] == matches && unchecked + [] == unchecked;
      if h(did, cs[i]).Found? && !exhaustive {
        StopAgrees(h, did, rs, i + 1, matches + m, unchecked + u);
      } else {
        WalkFromAgrees(h, did, rs, exhaustive, i + 1, matches + m, unchecked + u);
      }
    }
  }

  /** Every completed walk agrees with the registries, whether it stopped early or not. */
  lemma WalkAgrees(h: Handlers, did: Text, rs: seq<Registry>, exhaustive: bool)
    ensures var v := Walk(h, did, rs, exhaustive);
            v.Some? ==> Agrees(h, did, rs, v.value)
  {
    assert CanonList(rs)[..0] == [];
    WalkFromAgrees(h, did, rs, exhaustive, 0, [], []);
  }

  // ----- the walk, exactly -----

  /** The first registry at which a walk that stops early stops: its handler finds the DID, or throws. */
  ghost predicate StopsAt(h: Handlers, did: Text, cs: seq<Canonical>, k: int) {
    && 0 <= k < |cs| && (h(did, cs[k]).Found? || h(did, cs[k]).Threw?)
    && forall j :: 0 <= j < k ==> h(did, cs[j]).NotFound? || h(did, cs[j]).Unchecked?
  }

  /** These are the references of the registries in `cs` that could not be checked, in order. */
  ghost predicate ListsUnchecked(h: Handlers, did: Text, cs: seq<Canonical>, references: seq<Reference>)
    decreases |cs|
  {
    if cs == [] then references == []
    else
      var init, last := cs[..|cs| - 1], cs[|cs| - 1];
      if h(did, last).Unchecked? then
        references != [] && references[|references| - 1] == Reference(last.name, last.kind, last.url) &&
        ListsUnchecked(h, did, init, references[..|references| - 1])
      else ListsUnchecked(h, did, init, references)
  }

  /** These are the matches of the registries in `cs` that find the DID, in order, each with what it knows of it. */
  ghost predicate ListsMatches(h: Handlers, did: Text, cs: seq<Canonical>, matches: seq<Match>)
    decreases |cs|
  {
    if cs == [] then matches == []
    else
      var init, last := cs[..|cs| - 1], cs[|cs| - 1];
      match h(did, last)
      case Found(entity) =>
        matches != [] && matches[|matches| - 1] == Match(Reference(last.name, last.kind, last.url), entity) &&
        ListsMatches(h, did, init, matches[..|matches| - 1])
      case _ => ListsMatches(h, did, init, matches)
  }

  lemma {:induction false} CollectedAre(h: Handlers, did: Text, cs: seq<Canonical>)
    ensures ListsMatches(h, did, cs, AllMatches(h, did, cs)) && ListsUnchecked(h, did, cs, AllUnchecked(h, did, cs))
  {
    if cs != [] {
      var init := cs[..|cs| - 1];
      CollectedAre(h, did, init);
      var m, u := AllMatches(h, did, init), AllUnchecked(h, did, init);
      assert forall x :: (m + [x])[..|m|] == m;
      assert forall x :: (u + [x])[..|u|] == u;
      assert m + [] == m && u + [] == u;
    }
  }

  /** Told to be exhaustive, the walk throws iff a handler does, and otherwise reports every match and every unchecked registry. */
  lemma {:induction false} ExhaustiveFrom(h: Handlers, did: Text, cs: seq<Canonical>, i: nat, matches: seq<Match>, unchecked: seq<Reference>)
    requires i <= |cs| && Walked(h, did, cs[..i], matches, unchecked)
    ensures var v := WalkFrom(h, did, cs, true, i, matches, unchecked);
            && (v.None? <==> exists c :: c in cs && h(did, c).Threw?)
            && (v.Some? ==> v.value == Answer(AllMatches(h, did, cs) != [], AllMatches(h, did, cs), AllUnchecked(h, did, cs)))
    decreases |cs| - i
  {
    if i == |cs| {
      assert cs[..i] == cs;
    } else if !h(did, cs[i]).Threw? {
      var m := if h(did, cs[i]).Found? then [Match(RegistryReference(cs[i]), h(did, cs[i]).entity)] else [];
      var u := if h(did, cs[i]).Unchecked? then [RegistryReference(cs[i])] else [];
      WalkedStep(h, did, cs, i, matches, unchecked);
      assert matches + [] == matches && unchecked + [] == unchecked;
      hide Walked, AllMatches, AllUnchecked;
      ExhaustiveFrom(h, did, cs, i + 1, matches + m, unchecked + u);
    }
  }

  /** A walk that stops early, from a position before which no registry found the DID or threw. */
  lemma {:induction false} EarlyFrom(h: Handlers, did: Text, cs: seq<Canonical>, i: nat, unchecked: seq<Reference>)
    requires i <= |cs| && Walked(h, did, cs[..i], [], unchecked)
    requires forall j :: 0 <= j < i ==> h(did, cs[j]).NotFound? || h(did, cs[j]).Unchecked?
    ensures var v := WalkFrom(h, did, cs, false, i, [], unchecked);
            && (forall k :: StopsAt(h, did, cs, k) && h(did, cs[k]).Threw? ==> v.None?)
            && (forall k :: StopsAt(h, did, cs, k) && h(did, cs[k]).Found? ==>
                  v == Some(Answer(true, [Match(RegistryReference(cs[k]), h(did, cs[k]).entity)], AllUnchecked(h, did, cs[..k]))))
            && ((forall k :: !StopsAt(h, did, cs, k)) ==> v == Some(Answer(false, [], AllUnchecked(h, did, cs))))
    decreases |cs| - i
  {
    hide AllMatches, AllUnchecked;
    if i == |cs| {
      assert cs[..i] == cs;
    } else if h(did, cs[i]).Found? || h(did, cs[i]).Threw? {
      assert StopsAt(h, did, cs, i);
      assert forall k :: StopsAt(h, did, cs, k) ==> k == i;
      assert forall x: Match :: [] + [x] == [x];
    } else {
      WalkedStep(h, did, cs, i, [], unchecked);
      var u := if h(did, cs[i]).Unchecked? then [RegistryReference(cs[i])] else [];
      var none: seq<Match> := [];
      assert none + [] == none && unchecked + [] == unchecked;
      EarlyFrom(h, did, cs, i + 1, unchecked + u);
    }
  }

  /**
   The walk, exactly. An exhaustive one has no answer iff some handler throws, and otherwise reports every match and
   every unchecked registry. Another one stops at the first registry whose handler finds the DID or throws: with that one
   match and the unchecked registries before it, or with no answer; and it reports all unchecked registries when none stops it.
   */
  lemma WalkExactly(h: Handlers, did: Text, rs: seq<Registry>, exhaustive: bool)
    ensures var (v, cs) := (Walk(h, did, rs, exhaustive), CanonList(rs));
            if exhaustive then
              && (v.None? <==> exists c :: c in cs && h(did, c).Threw?)
              && (v.Some? ==>
                    && ListsMatches(h, did, cs, v.value.matches) && ListsUnchecked(h, did, cs, v.value.uncheckedRegistries)
                    && (v.value.found <==> v.value.matches != []))
            else
              && (forall k :: StopsAt(h, did, cs, k) && h(did, cs[k]).Threw? ==> v.None?)
              && (forall k :: StopsAt(h, did, cs, k) && h(did, cs[k]).Found? ==>
                    && v.Some? && v.value.found
                    && v.value.matches == [Match(Reference(cs[k].name, cs[k].kind, cs[k].url), h(did, cs[k]).entity)]
                    && ListsUnchecked(h, did, cs[..k], v.value.uncheckedRegistries))
              && ((forall k :: !StopsAt(h, did, cs, k)) ==>
                    v.Some? && !v.value.found && v.value.matches == [] && ListsUnchecked(h, did, cs, v.value.uncheckedRegistries))
  {
    var cs := CanonList(rs);
    assert cs[..0] == [];
    CollectedAre(h, did, cs);
    if exhaustive {
      ExhaustiveFrom(h, did, cs, 0, [], []);
    } else {
      EarlyFrom(h, did, cs, 0, []);
      forall k | StopsAt(h, did, cs, k) ensures ListsUnchecked(h, did, cs[..k], AllUnchecked(h, did, cs[..k])) {
        CollectedAre(h, did, cs[..k]);
      }
    }
    hide AllMatches, AllUnchecked, WalkFrom, ListsUnchecked, ListsMatches;
  }
}
