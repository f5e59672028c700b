/**
 The name a list of registries is cached under: each registry's JSON id, the
 ids sorted, and the list JSON-encoded again.
 */
module RegistryCacheKey {
  import opened JsonText

  datatype Registry =
    | Oidf(name: Text, trustAnchorEC: Text)
    | DccLegacy(name: Text, url: Text)
    | VcRecognition(name: Text, url: Text, acceptedIssuers: seq<Text>)

  function Ascii(s: string): (t: Text)
    requires forall k :: 0 <= k < |s| ==> s[k] < 128 as char
    ensures |t| == |s|
  {
    seq(|s|, k requires 0 <= k < |s| => s[k] as int)
  }

  function TypeName(r: Registry): Text {
    match r
    case Oidf(_, _) => Ascii("oidf")
    case DccLegacy(_, _) => Ascii("dcc-legacy")
    case VcRecognition(_, _, _) => Ascii("vc-recognition")
  }

  function RegistryUrl(r: Registry): Text {
    match r
    case Oidf(_, trustAnchorEC) => trustAnchorEC
    case DccLegacy(_, url) => url
    case VcRecognition(_, url, _) => url
  }

  // ----- sorting by code units -----

  predicate Leq(a: Text, b: Text) {
    a == [] || (b != [] && (a[0] < b[0] || (a[0] == b[0] && Leq(a[1..], b[1..]))))
  }

  lemma {:induction false} LeqTotal(a: Text, b: Text)
    ensures Leq(a, b) || Leq(b, a)
    ensures Leq(a, b) && Leq(b, a) ==> a == b
  {
    if a != [] && b != [] && a[0] == b[0] {
      LeqTotal(a[1..], b[1..]);
      assert a == [a[0]] + a[1..] && b == [b[0]] + b[1..];
    }
  }

  lemma {:induction false} LeqTransitive(a: Text, b: Text, c: Text)
    requires Leq(a, b) && Leq(b, c)
    ensures Leq(a, c)
  {
    if a != [] && a[0] == b[0] == c[0] {
      LeqTransitive(a[1..], b[1..], c[1..]);
    }
  }

  ghost predicate Sorted(xs: seq<Text>) {
    forall i, j :: 0 <= i < j < |xs| ==> Leq(xs[i], xs[j])
  }

  lemma PrependSorted(x: Text, xs: seq<Text>)
    requires Sorted(xs) && forall y :: y in xs ==> Leq(x, y)
    ensures Sorted([x] + xs)
  {
    hide Leq;
    assert forall k :: 0 <= k < |xs| ==> xs[k] in xs;
  }

  /** `x` may go in front of a sorted list when it is not above the list's first element. */
  lemma BelowFirst(x: Text, xs: seq<Text>)
    requires Sorted(xs) && (xs != [] ==> Leq(x, xs[0]))
    ensures forall y :: y in xs ==> Leq(x, y)
  {
    forall y | y in xs ensures Leq(x, y) {
      var k :| 0 <= k < |xs| && xs[k] == y;
      if k > 0 { LeqTransitive(x, xs[0], y); }
    }
  }

  function Insert(x: Text, xs: seq<Text>): (r: seq<Text>)
    requires Sorted(xs)
    ensures multiset(r) == multiset(xs) + multiset{x}
  {
    if xs == [] || Leq(x, xs[0]) then [x] + xs
    else
      assert xs == [xs[0]] + xs[1..];
      [xs[0]] + Insert(x, xs[1..])
  }

  lemma {:induction false} InsertSorted(x: Text, xs: seq<Text>)
    requires Sorted(xs)
    ensures Sorted(Insert(x, xs))
  {
    if xs == [] || Leq(x, xs[0]) {
      BelowFirst(x, xs);
      PrependSorted(x, xs);
    } else {
      var rest := Insert(x, xs[1..]);
      InsertSorted(x, xs[1..]);
      LeqTotal(x, xs[0]);
      LeqTotal(xs[0], xs[0]);
      BelowFirst(xs[0], xs);
      hide Leq, Insert;
      forall y | y in rest ensures Leq(xs[0], y) {
        assert y in multiset(rest);
        assert y == x || y in xs[1..];
      }
      PrependSorted(xs[0], rest);
    }
  }

  function Sort(xs: seq<Text>): (r: seq<Text>)
    ensures Sorted(r) && multiset(r) == multiset(xs)
  {
    if xs == [] then []
    else
      assert xs == xs[..|xs| - 1] + [xs[|xs| - 1]];
      InsertSorted(xs[|xs| - 1], Sort(xs[..|xs| - 1]));
      Insert(xs[|xs| - 1], Sort(xs[..|xs| - 1]))
  }

  /** Sorting is a complete invariant: two lists sort alike iff they hold the same elements equally often. */
  lemma SortDecides(a: seq<Text>, b: seq<Text>)
    ensures Sort(a) == Sort(b) <==> multiset(a) == multiset(b)
  {
    if multiset(a) == multiset(b) {
      SortedUnique(Sort(a), Sort(b));
    }
  }

  /** The first element of a sorted list is below every element. */
  lemma FirstIsLeast(a: seq<Text>, x: Text)
    requires Sorted(a) && x in a
    ensures Leq(a[0], x)
  {
    LeqTotal(x, x);
  }

  lemma TailMultiset(a: seq<Text>)
    requires a != []
    ensures multiset(a[1..]) == multiset(a) - multiset{a[0]}
  {
    assert a == [a[0]] + a[1..];
  }

  lemma {:induction false} SortedUnique(a: seq<Text>, b: seq<Text>)
    requires Sorted(a) && Sorted(b) && multiset(a) == multiset(b)
    ensures a == b
  {
    assert |multiset(a)| == |a| && |multiset(b)| == |b|;
    if a != [] {
      assert a[0] in multiset(b) && b[0] in multiset(a);
      FirstIsLeast(a, b[0]);
      FirstIsLeast(b, a[0]);
      LeqTotal(a[0], b[0]);
      TailMultiset(a);
      TailMultiset(b);
      assert Sorted(a[1..]) && Sorted(b[1..]);
      hide *;
      SortedUnique(a[1..], b[1..]);
      assert a == [a[0]] + a[1..] && b == [b[0]] + b[1..];
    }
  }

  // ----- the key -----

  function Strings(xs: seq<Text>): (r: seq<Json>)
    ensures |r| == |xs| && forall k :: 0 <= k < |xs| ==> r[k] == JString(xs[k])
  {
    seq(|xs|, k requires 0 <= k < |xs| => JString(xs[k]))
  }

  /** The extra member of a recognition registry's id. */
  function IssuersJson(r: Registry): seq<Json> {
    if r.VcRecognition? then [JArray(Strings(Sort(r.acceptedIssuers)))] else []
  }

  function IdJson(r: Registry): Json {
    JArray([JString(TypeName(r)), JString(r.name), JString(RegistryUrl(r))] + IssuersJson(r))
  }

  function Id(r: Registry): Text { Stringify(IdJson(r)) }

  function Ids(rs: seq<Registry>): (ids: seq<Text>)
    ensures |ids| == |rs| && forall k :: 0 <= k < |rs| ==> ids[k] == Id(rs[k])
  {
    seq(|rs|, k requires 0 <= k < |rs| => Id(rs[k]))
  }

  function CacheKey(rs: seq<Registry>): Text {
    Stringify(JArray(Strings(Sort(Ids(rs)))))
  }

  const RESULT_CACHE_PREFIX := Ascii("reg-result:2:")

  /** The key a lookup of `did` in `rs` is cached under. */
  function FullKey(did: Text, rs: seq<Registry>): Text {
    RESULT_CACHE_PREFIX + did + [COLON] + CacheKey(rs)
  }

  // ----- what the key must tell apart -----

  datatype Kind = KOidf | KDccLegacy | KVcRecognition

  /** A registry as far as a lookup can tell: accepted issuers count without their order. */
  datatype Canonical = Canonical(kind: Kind, name: Text, url: Text, acceptedIssuers: multiset<Text>)

  function Canon(r: Registry): Canonical {
    match r
    case Oidf(name, url) => Canonical(KOidf, name, url, multiset{})
    case DccLegacy(name, url) => Canonical(KDccLegacy, name, url, multiset{})
    case VcRecognition(name, url, issuers) => Canonical(KVcRecognition, name, url, multiset(issuers))
  }

  function CanonList(rs: seq<Registry>): (cs: seq<Canonical>)
    ensures |cs| == |rs| && forall k :: 0 <= k < |rs| ==> cs[k] == Canon(rs[k])
  {
    seq(|rs|, k requires 0 <= k < |rs| => Canon(rs[k]))
  }

  /** Two lists with the same registries, in any order. */
  ghost predicate SameRegistries(a: seq<Registry>, b: seq<Registry>) {
    multiset(CanonList(a)) == multiset(CanonList(b))
  }

  lemma StringsInjective(a: seq<Text>, b: seq<Text>)
    ensures Strings(a) == Strings(b) <==> a == b
  {
    if Strings(a) == Strings(b) {
      assert |a| == |Strings(a)| == |b|;
      forall k | 0 <= k < |a| ensures a[k] == b[k] {
        assert Strings(a)[k] == Strings(b)[k];
      }
    }
  }

  lemma TypeNamesDiffer(r1: Registry, r2: Registry)
    ensures TypeName(r1) == TypeName(r2) <==> Canon(r1).kind == Canon(r2).kind
  {
    hide Ascii;
    assert |TypeName(r1)| == (if r1.Oidf? then 4 else if r1.DccLegacy? then 10 else 14);
    assert |TypeName(r2)| == (if r2.Oidf? then 4 else if r2.DccLegacy? then 10 else 14);
  }

  lemma SameIssuers(r1: Registry, r2: Registry)
    requires Canon(r1).kind == Canon(r2).kind
    ensures IssuersJson(r1) == IssuersJson(r2) <==> Canon(r1).acceptedIssuers == Canon(r2).acceptedIssuers
  {
    if r1.VcRecognition? {
      assert IssuersJson(r1)[0] == IssuersJson(r2)[0] ==> IssuersJson(r1) == IssuersJson(r2);
      StringsInjective(Sort(r1.acceptedIssuers), Sort(r2.acceptedIssuers));
      SortDecides(r1.acceptedIssuers, r2.acceptedIssuers);
      hide Sort, Strings;
    }
  }

  lemma IdJsonParts(r1: Registry, r2: Registry)
    ensures IdJson(r1) == IdJson(r2) <==>
            && TypeName(r1) == TypeName(r2) && r1.name == r2.name && RegistryUrl(r1) == RegistryUrl(r2)
            && IssuersJson(r1) == IssuersJson(r2)
  {
    hide TypeName, RegistryUrl, IssuersJson;
    var a := [JString(TypeName(r1)), JString(r1.name), JString(RegistryUrl(r1))];
    var b := [JString(TypeName(r2)), JString(r2.name), JString(RegistryUrl(r2))];
    assert IdJson(r1) == JArray(a + IssuersJson(r1)) && IdJson(r2) == JArray(b + IssuersJson(r2));
    hide IdJson;
    Parts(a, IssuersJson(r1), b, IssuersJson(r2));
    assert a == b <==> a[0] == b[0] && a[1] == b[1] && a[2] == b[2];
  }

  lemma SameJson(r1: Registry, r2: Registry)
    ensures IdJson(r1) == IdJson(r2) <==> Canon(r1) == Canon(r2)
  {
    IdJsonParts(r1, r2);
    TypeNamesDiffer(r1, r2);
    hide TypeName, IdJson, Sort, Strings, IssuersJson;
    if Canon(r1).kind == Canon(r2).kind { SameIssuers(r1, r2); }
  }

  lemma Parts(a: seq<Json>, x: seq<Json>, b: seq<Json>, y: seq<Json>)
    requires |a| == |b|
    ensures a + x == b + y <==> a == b && x == y
  {
    if a + x == b + y {
      assert a == (a + x)[..|a|] && b == (b + y)[..|b|];
      assert x == (a + x)[|a|..] && y == (b + y)[|b|..];
    }
  }

  /** A registry's id names it exactly up to the order of its accepted issuers. */
  lemma IdFaithful(r1: Registry, r2: Registry)
    ensures Id(r1) == Id(r2) <==> Canon(r1) == Canon(r2)
  {
    SameJson(r1, r2);
    hide IdJson, Canon;
    if Id(r1) == Id(r2) {
      StringifyInjective(IdJson(r1), IdJson(r2));
    }
  }

  lemma {:induction false} CountsAgree(rs: seq<Registry>, r: Registry)
    ensures multiset(Ids(rs))[Id(r)] == multiset(CanonList(rs))[Canon(r)]
  {
    hide Id, Canon;
    if rs != [] {
      var init, last := rs[..|rs| - 1], rs[|rs| - 1];
      CountsAgree(init, r);
      IdFaithful(last, r);
      assert Ids(rs) == Ids(init) + [Id(last)];
      assert CanonList(rs) == CanonList(init) + [Canon(last)];
    }
  }

  lemma SameIdsSameRegistries(a: seq<Registry>, b: seq<Registry>)
    requires multiset(Ids(a)) == multiset(Ids(b))
    ensures SameRegistries(a, b)
  {
    hide Id, Canon;
    forall c ensures multiset(CanonList(a))[c] == multiset(CanonList(b))[c] {
      if c in CanonList(a) + CanonList(b) {
        var k :| 0 <= k < |a + b| && (CanonList(a) + CanonList(b))[k] == c;
        assert c == Canon((a + b)[k]);
        CountsAgree(a, (a + b)[k]);
        CountsAgree(b, (a + b)[k]);
      }
    }
  }

  lemma SameRegistriesSameIds(a: seq<Registry>, b: seq<Registry>)
    requires SameRegistries(a, b)
    ensures multiset(Ids(a)) == multiset(Ids(b))
  {
    hide Id, Canon;
    forall t ensures multiset(Ids(a))[t] == multiset(Ids(b))[t] {
      if t in Ids(a) + Ids(b) {
        var k :| 0 <= k < |a + b| && (Ids(a) + Ids(b))[k] == t;
        assert t == Id((a + b)[k]);
        CountsAgree(a, (a + b)[k]);
        CountsAgree(b, (a + b)[k]);
      }
    }
  }

  /** The list part of the key names the list exactly up to order. */
  lemma ListKeyFaithful(a: seq<Registry>, b: seq<Registry>)
    ensures CacheKey(a) == CacheKey(b) <==> SameRegistries(a, b)
  {
    if SameRegistries(a, b) {
      SameRegistriesSameIds(a, b);
    }
    if multiset(Ids(a)) == multiset(Ids(b)) {
      SameIdsSameRegistries(a, b);
    }
    SortDecides(Ids(a), Ids(b));
    StringsInjective(Sort(Ids(a)), Sort(Ids(b)));
    hide SameRegistries;
    if CacheKey(a) == CacheKey(b) {
      StringifyInjective(JArray(Strings(Sort(Ids(a)))), JArray(Strings(Sort(Ids(b)))));
    }
  }

  // ----- where the DID ends -----

  /** No `["` anywhere in the text. */
  ghost predicate NoOpening(t: Text) {
    forall k :: 0 <= k < |t| - 1 ==> !(t[k] == OPEN && t[k + 1] == QUOTE)
  }

  lemma NoOpeningConcat(a: Text, b: Text)
    requires NoOpening(a) && NoOpening(b)
    requires a == [] || b == [] || a[|a| - 1] != OPEN || b[0] != QUOTE
    ensures NoOpening(a + b)
  {
    forall k | 0 <= k < |a + b| - 1 ensures !((a + b)[k] == OPEN && (a + b)[k + 1] == QUOTE) {
      if k >= |a| {
        assert (a + b)[k] == b[k - |a|] && (a + b)[k + 1] == b[k + 1 - |a|];
      } else if k == |a| - 1 {
        assert (a + b)[k + 1] == b[0];
      }
    }
  }

  lemma QuotedNoOpening(s: Text)
    requires s != [] && s[|s| - 1] == CLOSE
    ensures NoOpening(Quoted(s)) && Quoted(s)[0] == QUOTE && Quoted(s)[|Quoted(s)| - 1] == QUOTE
  {
    BodyQuotesEscaped(s);
    var body := Body(s);
    hide Body;
    assert NoOpening(body);
    NoOpeningConcat([QUOTE], body);
    NoOpeningConcat([QUOTE] + body, [QUOTE]);
  }

  lemma {:induction false} ElementsNoOpening(ids: seq<Text>)
    requires ids != [] && forall s :: s in ids ==> s != [] && s[|s| - 1] == CLOSE
    ensures var t := Elements(Strings(ids));
            t != [] && NoOpening(t) && t[0] == QUOTE && t[|t| - 1] == QUOTE
  {
    QuotedNoOpening(ids[0]);
    var first := Stringify(JString(ids[0]));
    if |ids| > 1 {
      ElementsNoOpening(ids[1..]);
      assert Strings(ids)[1..] == Strings(ids[1..]);
      var rest := Elements(Strings(ids[1..]));
      assert Elements(Strings(ids)) == first + [COMMA] + rest;
      hide Quoted;
      NoOpeningConcat(first, [COMMA]);
      NoOpeningConcat(first + [COMMA], rest);
    }
  }

  lemma IdClosed(r: Registry)
    ensures Id(r) != [] && Id(r)[|Id(r)| - 1] == CLOSE
  {
  }

  lemma IdsClosed(rs: seq<Registry>)
    ensures var ids := Sort(Ids(rs));
            && |ids| == |rs|
            && forall s :: s in ids ==> s != [] && s[|s| - 1] == CLOSE
  {
    hide Sort, Id;
    var ids := Sort(Ids(rs));
    assert |multiset(ids)| == |multiset(Ids(rs))|;
    forall s | s in ids ensures s != [] && s[|s| - 1] == CLOSE {
      assert s in multiset(ids);
      assert s in Ids(rs);
      var k :| 0 <= k < |rs| && Ids(rs)[k] == s;
      IdClosed(rs[k]);
    }
  }

  lemma BracketedShape(t: Text)
    requires t != [] && NoOpening(t) && t[0] == QUOTE && t[|t| - 1] == QUOTE
    ensures var k := [OPEN] + t + [CLOSE];
            |k| > 2 && k[0] == OPEN && k[1] == QUOTE && NoOpening(k[1..]) && k[|k| - 2] == QUOTE && k[|k| - 1] == CLOSE
  {
    OneUnit(CLOSE);
    NoOpeningConcat(t, [CLOSE]);
    assert ([OPEN] + t + [CLOSE])[1..] == t + [CLOSE];
  }

  /** A list's key: `[]`, or `["` at the very start only and `"]` at the end. */
  lemma KeyShape(rs: seq<Registry>)
    ensures var k := CacheKey(rs);
            if rs == [] then k == [OPEN, CLOSE]
            else |k| > 2 && k[0] == OPEN && k[1] == QUOTE && NoOpening(k[1..]) && k[|k| - 2] == QUOTE && k[|k| - 1] == CLOSE
  {
    var ids := Sort(Ids(rs));
    assert CacheKey(rs) == [OPEN] + Elements(Strings(ids)) + [CLOSE];
    assert Elements([]) == [];
    hide *;
    IdsClosed(rs);
    if rs == [] {
      assert Strings(ids) == [];
    } else {
      ElementsNoOpening(ids);
      BracketedShape(Elements(Strings(ids)));
    }
  }

  lemma OneUnit(c: Unit)
    ensures NoOpening([c])
  {
  }

  /** No list's key is a colon-preceded proper suffix of another's, so the DID cannot run into it. */
  lemma NotASuffix(a: seq<Registry>, b: seq<Registry>, at: nat)
    requires 0 < at < |CacheKey(b)|
    ensures CacheKey(b)[at..] != CacheKey(a)
  {
    KeyShape(a);
    KeyShape(b);
    var ka, kb := CacheKey(a), CacheKey(b);
    hide CacheKey;
    if b == [] {
      assert |kb[at..]| == 1;
    } else if a == [] {
      if |kb| - at == 2 {
        assert kb[at..][0] == kb[|kb| - 2];
      }
    } else if at + 1 < |kb| {
      assert kb[1..][at - 1] == kb[at] && kb[1..][at] == kb[at + 1];
      assert kb[at..][0] == kb[at] && kb[at..][1] == kb[at + 1];
    }
  }

  lemma NotASuffixOf(long: Text, a: seq<Registry>, short: Text, b: seq<Registry>)
    requires |short| < |long|
    ensures FullKey(long, a) != FullKey(short, b)
  {
    var ka, kb, p, at := CacheKey(a), CacheKey(b), |RESULT_CACHE_PREFIX|, |long| - |short|;
    assert FullKey(long, a)[p + |long| + 1..] == ka;
    assert FullKey(short, b)[p + |short| + 1..] == kb;
    if at < |kb| {
      NotASuffix(a, b, at);
      hide CacheKey, RESULT_CACHE_PREFIX;
      assert FullKey(short, b)[p + |long| + 1..] == kb[at..];
    } else {
      KeyShape(a);
      assert |FullKey(short, b)| <= p + |long| + 1;
    }
  }

  /**
   The DID-result cache key is a faithful name: two lookups share a key iff they
   are for the same DID in the same registries, counted as a multiset of type,
   name, url and multiset of accepted issuers.
   */
  lemma KeyIsFaithful(did1: Text, a: seq<Registry>, did2: Text, b: seq<Registry>)
    ensures FullKey(did1, a) == FullKey(did2, b) <==> did1 == did2 && SameRegistries(a, b)
  {
    ListKeyFaithful(a, b);
    hide CacheKey, SameRegistries;
    if |did1| < |did2| {
      NotASuffixOf(did2, b, did1, a);
    } else if |did2| < |did1| {
      NotASuffixOf(did1, a, did2, b);
    } else {
      var p := |RESULT_CACHE_PREFIX|;
      assert FullKey(did1, a)[p..p + |did1|] == did1 && FullKey(did1, a)[p + |did1| + 1..] == CacheKey(a);
      assert FullKey(did2, b)[p..p + |did2|] == did2 && FullKey(did2, b)[p + |did2| + 1..] == CacheKey(b);
    }
  }

  const OIDF_EC_PREFIX := Ascii("oidf:ec:")
  const OIDF_LOOKUP_PREFIX := Ascii("oidf:lookup:")
  const VC_RECOGNITION_PREFIX := Ascii("vc-recognition:")
  const DCC_LEGACY_PREFIX := Ascii("dcc-legacy:")

  /** The other namespaces that share the cache never collide with a result key. */
  lemma NamespacesDisjoint(did: Text, rs: seq<Registry>, other: Text)
    ensures FullKey(did, rs) != OIDF_EC_PREFIX + other
    ensures FullKey(did, rs) != OIDF_LOOKUP_PREFIX + other
    ensures FullKey(did, rs) != VC_RECOGNITION_PREFIX + other
    ensures FullKey(did, rs) != DCC_LEGACY_PREFIX + other
  {
    assert RESULT_CACHE_PREFIX[0] == 'r' as int;
    assert OIDF_EC_PREFIX[0] == OIDF_LOOKUP_PREFIX[0] == 'o' as int;
    assert VC_RECOGNITION_PREFIX[0] == 'v' as int && DCC_LEGACY_PREFIX[0] == 'd' as int;
    hide CacheKey, Ascii;
    assert FullKey(did, rs)[0] == RESULT_CACHE_PREFIX[0];
    assert (OIDF_EC_PREFIX + other)[0] == OIDF_EC_PREFIX[0];
    assert (OIDF_LOOKUP_PREFIX + other)[0] == OIDF_LOOKUP_PREFIX[0];
    assert (VC_RECOGNITION_PREFIX + other)[0] == VC_RECOGNITION_PREFIX[0];
    assert (DCC_LEGACY_PREFIX + other)[0] == DCC_LEGACY_PREFIX[0];
  }
}
