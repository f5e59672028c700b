/**
 The built-in HTTP service: a bounded redirect loop that checks every URL before
 it is requested, and a body read under a size cap, against any server at all.
 */
module HttpGet {
  import opened Options
  import opened JsonText
  import opened UrlPolicy

  // ----- UTF-8 length -----

  type Byte = x: int | 0 <= x < 0x100

  /** The code point at the front of a text; a surrogate on its own counts as the replacement character. */
  function CodePoint(t: Text): (cp: int)
    requires t != []
    ensures 0 <= cp < 0x11_0000
    ensures StartsWithPair(t) ==> cp >= 0x1_0000
    ensures !StartsWithPair(t) ==> cp == if t[0] / 0x800 == 0x1B then 0xFFFD else t[0]
  {
    if StartsWithPair(t) then 0x1_0000 + (t[0] as int - 0xD800) * 0x400 + (t[1] as int - 0xDC00)
    else if IsHigh(t[0]) || IsLow(t[0]) then 0xFFFD
    else t[0]
  }

  /** The UTF-8 bytes of one code point (section 3 of RFC 3629). */
  function Utf8(cp: int): seq<Byte>
    requires 0 <= cp < 0x11_0000
  {
    if cp < 0x80 then [cp]
    else if cp < 0x800 then [0xC0 + cp / 0x40, 0x80 + cp % 0x40]
    else if cp < 0x1_0000 then [0xE0 + cp / 0x1000, 0x80 + cp / 0x40 % 0x40, 0x80 + cp % 0x40]
    else [0xF0 + cp / 0x4_0000, 0x80 + cp / 0x1000 % 0x40, 0x80 + cp / 0x40 % 0x40, 0x80 + cp % 0x40]
  }

  ghost predicate Continuation(b: int) { 0x80 <= b < 0xC0 }

  /**
   The bytes stand for the code point by the table of RFC 3629: a lead byte that tells how many follow, each of
   those marked, no more of them than needed, and their payloads make up the code point.
   */
  ghost predicate StandsFor(u: seq<int>, cp: int) {
    match |u|
    case 1 => 0 <= u[0] < 0x80 && cp == u[0]
    case 2 => 0xC2 <= u[0] < 0xE0 && Continuation(u[1]) && cp == (u[0] - 0xC0) * 0x40 + (u[1] - 0x80)
    case 3 =>
      && 0xE0 <= u[0] < 0xF0 && Continuation(u[1]) && Continuation(u[2]) && (u[0] == 0xE0 ==> u[1] >= 0xA0)
      && cp == ((u[0] - 0xE0) * 0x40 + (u[1] - 0x80)) * 0x40 + (u[2] - 0x80)
    case 4 =>
      && 0xF0 <= u[0] < 0xF5 && Continuation(u[1]) && Continuation(u[2]) && Continuation(u[3]) && (u[0] == 0xF0 ==> u[1] >= 0x90)
      && cp == (((u[0] - 0xF0) * 0x40 + (u[1] - 0x80)) * 0x40 + (u[2] - 0x80)) * 0x40 + (u[3] - 0x80)
    case _ => false
  }

  lemma Sixes(cp: int)
    requires 0 <= cp < 0x11_0000
    ensures cp / 0x1000 == cp / 0x40 / 0x40 && cp / 0x4_0000 == cp / 0x40 / 0x40 / 0x40
    ensures cp / 0x1000 % 0x40 == cp / 0x40 / 0x40 % 0x40
  {
  }

  lemma Utf8StandsFor(cp: int)
    requires 0 <= cp < 0x11_0000
    ensures StandsFor(Utf8(cp), cp)
  {
    Sixes(cp);
    var a, b, c := cp / 0x40, cp / 0x40 / 0x40, cp / 0x40 / 0x40 / 0x40;
    assert cp == a * 0x40 + cp % 0x40 && a == b * 0x40 + a % 0x40 && b == c * 0x40 + b % 0x40;
    if cp < 0x80 {
      assert Utf8(cp) == [cp];
    } else if cp < 0x800 {
      assert Utf8(cp) == [0xC0 + a, 0x80 + cp % 0x40];
    } else if cp < 0x1_0000 {
      assert Utf8(cp) == [0xE0 + b, 0x80 + a % 0x40, 0x80 + cp % 0x40];
    } else {
      assert Utf8(cp) == [0xF0 + c, 0x80 + b % 0x40, 0x80 + a % 0x40, 0x80 + cp % 0x40];
    }
    hide Utf8;
  }

  /** What a text encoder makes of a text. */
  function Encode(t: Text): seq<Byte> {
    if t == [] then [] else Utf8(CodePoint(t)) + Encode(t[Width(t)..])
  }

  /** Each UTF-16 unit stands for one to three bytes, pairs and lone surrogates included. */
  lemma {:induction false} EncodedBounds(t: Text)
    ensures |t| <= |Encode(t)| <= 3 * |t|
  {
    if t != [] {
      EncodedBounds(t[Width(t)..]);
    }
  }

  lemma {:induction false} EncodeConcat(t: Text, i: nat)
    requires i < |t|
    ensures |Encode(t[i..])| == |Utf8(CodePoint(t[i..]))| + |Encode(t[i + Width(t[i..])..])|
  {
    assert t[i..][Width(t[i..])..] == t[i + Width(t[i..])..];
  }

  /** The bytes one step over `t` accounts for, and how far it goes. */
  lemma StepLength(t: Text)
    requires t != []
    ensures var cp: int := if StartsWithPair(t) then CodePoint(t) else t[0] as int;
            |Utf8(CodePoint(t))| == if cp < 0x80 then 1 else if cp < 0x800 then 2 else if cp < 0x1_0000 then 3 else 4
  {
  }

  /** The length counted by hand, code point by code point. */
  method ByteLength(text: Text) returns (bytes: nat)
    ensures bytes == |Encode(text)|
  {
    assert Encode([]) == [];
    hide Encode, Utf8;
    bytes := 0;
    var i := 0;
    while i < |text|
      invariant i <= |text|
      invariant bytes + |Encode(text[i..])| == |Encode(text)|
    {
      EncodeConcat(text, i);
      StepLength(text[i..]);
      var pair := i + 1 < |text| && IsHigh(text[i]) && IsLow(text[i + 1]);
      var codePoint: int :=
        if pair then 0x1_0000 + (text[i] as int - 0xD800) * 0x400 + (text[i + 1] as int - 0xDC00) else text[i];
      if codePoint < 0x80 {
        bytes := bytes + 1;
      } else if codePoint < 0x800 {
        bytes := bytes + 2;
      } else if codePoint < 0x1_0000 {
        bytes := bytes + 3;
      } else {
        bytes := bytes + 4;
      }
      i := if pair then i + 2 else i + 1;
    }
  }

  // ----- the capped body -----

  datatype Chunk = Chunk(byteLength: nat, text: Text)

  datatype Body = Whole(text: Text) | Stream(chunks: seq<Chunk>)

  function SumBytes(chunks: seq<Chunk>): nat {
    if chunks == [] then 0 else SumBytes(chunks[..|chunks| - 1]) + chunks[|chunks| - 1].byteLength
  }

  function JoinText(chunks: seq<Chunk>): Text {
    if chunks == [] then [] else JoinText(chunks[..|chunks| - 1]) + chunks[|chunks| - 1].text
  }

  /** Joining puts the chunks' texts one after the other, in the order they came, and their sizes add up. */
  lemma {:induction false} JoinsInOrder(first: Chunk, rest: seq<Chunk>)
    ensures JoinText([]) == [] && JoinText([first] + rest) == first.text + JoinText(rest)
    ensures SumBytes([]) == 0 && SumBytes([first] + rest) == first.byteLength + SumBytes(rest)
  {
    var all := [first] + rest;
    if rest == [] {
      assert all[..0] == [];
    } else {
      assert all[..|all| - 1] == [first] + rest[..|rest| - 1];
      JoinsInOrder(first, rest[..|rest| - 1]);
    }
  }

  lemma {:induction false} SumPrefix(chunks: seq<Chunk>, n: nat)
    requires n <= |chunks|
    ensures SumBytes(chunks[..n]) <= SumBytes(chunks)
    decreases |chunks| - n
  {
    if n < |chunks| {
      SumPrefix(chunks, n + 1);
      assert chunks[..n + 1][..n] == chunks[..n];
    } else {
      assert chunks[..n] == chunks;
    }
  }

  /** The size of a body in bytes, whichever way it arrives. */
  function BodySize(body: Body): nat {
    match body
    case Whole(text) => |Encode(text)|
    case Stream(chunks) => SumBytes(chunks)
  }

  function BodyText(body: Body): Text {
    match body
    case Whole(text) => text
    case Stream(chunks) => JoinText(chunks)
  }

  /**
   Read a body under the cap: it is delivered whole iff neither its declared
   length nor its actual size exceeds the cap. The shortcuts on the UTF-16 length never change that.
   */
  method ReadCapped(declared: Option<real>, body: Body, maxBytes: real) returns (r: Option<Text>)
    requires maxBytes > 0.0
    ensures r.Some? <==> (declared.Some? ==> declared.value <= maxBytes) && BodySize(body) as real <= maxBytes
    ensures r.Some? ==> r.value == BodyText(body)
  {
    if declared.Some? && declared.value > maxBytes {
      return None;
    }
    match body {
      case Whole(text) =>
        EncodedBounds(text);
        if |text| as real > maxBytes {
          return None;
        }
        if (|text| * 3) as real > maxBytes {
          var bytes := ByteLength(text);
          if bytes as real > maxBytes {
            return None;
          }
        }
        return Some(text);
      case Stream(chunks) =>
        var total, text := 0, [];
        var i := 0;
        while i < |chunks|
          invariant i <= |chunks|
          invariant total as real <= maxBytes
          invariant total == SumBytes(chunks[..i]) && text == JoinText(chunks[..i])
        {
          assert chunks[..i + 1][..i] == chunks[..i];
          total := total + chunks[i].byteLength;
          if total as real > maxBytes {
            SumPrefix(chunks, i + 1);
            return None;
          }
          text := text + chunks[i].text;
          i := i + 1;
        }
        assert chunks[..i] == chunks;
        return Some(text);
    }
  }

  // ----- the redirect loop -----

  const MAX_REDIRECTS := 5

  datatype Mode = Manual | FollowMode

  datatype Response = Response(
    opaqueRedirect: bool,
    status: int,
    location: Option<string>,
    url: string,
    contentLength: Option<real>,
    body: Body)

  /** Everything outside: the URL parser and resolver, and a server that answers its n-th request as it likes. */
  datatype World = World(
    parse: string -> Option<Url>,
    resolve: (string, string) -> Option<string>,
    respond: (nat, string, Mode) -> Option<Response>)

  predicate IsRedirect(status: int) { status in {301, 302, 303, 307, 308} }

  datatype Event = Fetched(url: string, mode: Mode, response: Option<Response>) | Discarded | BodyRead(url: string)

  datatype Failure =
    | UrlRefused(url: string)
    | NotAValidUrl(url: string)
    | RequestFailed(url: string)
    | TooManyRedirects(url: string)
    | TooLarge(url: string)

  datatype Result = Delivered(text: Text, status: int) | Error(failure: Failure)

  /** Where the loop stopped: with a response to read, or with an error. */
  datatype Stop = Reached(response: Response, current: string) | Failed(failure: Failure)

  /** Where one hop leads: on to another URL, or nowhere further. */
  datatype Step = Onward(next: string) | Halt(stop: Stop)

  /** What one hop does, where it leads, and whether redirects are known to be hidden after it. */
  datatype Hop = Hop(events: seq<Event>, step: Step, followsRedirects: bool)

  /** The rest of a call: what it does, where it stops, and whether redirects are known to be hidden after it. */
  datatype Tail = Tail(events: seq<Event>, stop: Stop, followsRedirects: bool)

  predicate UrlAllowed(w: World, allowInsecure: bool, url: string) {
    CheckUrl(w.parse(url), allowInsecure).Allowed?
  }

  function ModeOf(follows: bool): Mode { if follows then FollowMode else Manual }

  /** A redirect as a server that shows its redirects answers it: one of the five statuses, and where to go. */
  ghost predicate VisibleRedirect(r: Response) {
    r.location.Some? && (r.status == 301 || r.status == 302 || r.status == 303 || r.status == 307 || r.status == 308)
  }

  /** A response the loop does not follow further: not a visible redirect. */
  predicate Settled(follows: bool, r: Response) {
    follows || !IsRedirect(r.status) || r.location.None?
  }

  /** One hop: the request to `current`, asked again if redirects prove hidden, and what its response leads to. */
  function OneHop(w: World, allowInsecure: bool, current: string, redirects: nat, follows: bool, n: nat): Hop {
    if !UrlAllowed(w, allowInsecure, current) then Hop([], Halt(Failed(UrlRefused(current))), follows)
    else
      var first := w.respond(n, current, ModeOf(follows));
      var asked := [Fetched(current, ModeOf(follows), first)];
      if first.None? then Hop(asked, Halt(Failed(RequestFailed(current))), follows)
      else if first.value.opaqueRedirect then
        var second := w.respond(n + 1, current, FollowMode);
        Hop(asked + [Fetched(current, FollowMode, second)],
            Halt(if second.None? then Failed(RequestFailed(current)) else Reached(second.value, current)),
            true)
      else if Settled(follows, first.value) then Hop(asked, Halt(Reached(first.value, current)), follows)
      else if redirects == MAX_REDIRECTS then Hop(asked + [Discarded], Halt(Failed(TooManyRedirects(current))), follows)
      else
        match w.resolve(first.value.location.value, current)
        case None => Hop(asked + [Discarded], Halt(Failed(NotAValidUrl(current))), follows)
        case Some(next) => Hop(asked + [Discarded], Onward(next), follows)
  }

  /** What one call does from `current` on, having followed `redirects` redirects and made `n` requests. */
  function Follow(w: World, allowInsecure: bool, current: string, redirects: nat, follows: bool, n: nat): Tail
    requires redirects <= MAX_REDIRECTS
    decreases MAX_REDIRECTS - redirects
  {
    var hop := OneHop(w, allowInsecure, current, redirects, follows, n);
    match hop.step
    case Halt(stop) => Tail(hop.events, stop, hop.followsRedirects)
    case Onward(next) =>
      var rest := Follow(w, allowInsecure, next, redirects + 1, hop.followsRedirects, n + 1);
      Tail(hop.events + rest.events, rest.stop, rest.followsRedirects)
  }

  /** Requests among the events. */
  function Requests(events: seq<Event>): nat {
    if events == [] then 0 else Requests(events[..|events| - 1]) + if events[|events| - 1].Fetched? then 1 else 0
  }

  lemma {:induction false} RequestsConcat(a: seq<Event>, b: seq<Event>)
    ensures Requests(a + b) == Requests(a) + Requests(b)
    decreases |b|
  {
    if b == [] {
      assert a + b == a;
    } else {
      assert (a + b)[..|a + b| - 1] == a + b[..|b| - 1];
      RequestsConcat(a, b[..|b| - 1]);
    }
  }

  lemma RequestsOfPair(a: Event, b: Event)
    ensures Requests([a]) == if a.Fetched? then 1 else 0
    ensures Requests([a] + [b]) == (if a.Fetched? then 1 else 0) + if b.Fetched? then 1 else 0
  {
    assert [a][..0] == [] && ([a] + [b])[..1] == [a];
  }

  /** Every request in `events` was for a URL the policy allows. */
  ghost predicate OnlyAllowed(w: World, allowInsecure: bool, events: seq<Event>) {
    forall k :: 0 <= k < |events| && events[k].Fetched? ==> UrlAllowed(w, allowInsecure, events[k].url)
  }

  lemma HopShape(w: World, allowInsecure: bool, current: string, redirects: nat, follows: bool, n: nat)
    ensures var (hop, events) := (OneHop(w, allowInsecure, current, redirects, follows, n),
                                  OneHop(w, allowInsecure, current, redirects, follows, n).events);
            && |events| <= 2
            && (hop.step.Onward? ==> |events| == 2 && events[0].Fetched? && events[1].Discarded?)
            && (|events| == 2 && events[0].Fetched? && events[1].Fetched? ==> hop.followsRedirects)
  {
    hide UrlAllowed, Settled;
  }

  lemma RequestsUpToTwo(events: seq<Event>)
    requires |events| <= 2
    ensures Requests(events) ==
            (if |events| > 0 && events[0].Fetched? then 1 else 0) + if |events| > 1 && events[1].Fetched? then 1 else 0
  {
    if |events| == 1 {
      assert events == [events[0]];
      RequestsOfPair(events[0], Discarded);
    } else if |events| == 2 {
      assert events == [events[0]] + [events[1]];
      RequestsOfPair(events[0], events[1]);
    }
  }

  lemma HopRequests(w: World, allowInsecure: bool, current: string, redirects: nat, follows: bool, n: nat)
    ensures var hop := OneHop(w, allowInsecure, current, redirects, follows, n);
            && Requests(hop.events) <= 2
            && (hop.step.Onward? ==> Requests(hop.events) == 1)
            && (!hop.followsRedirects ==> Requests(hop.events) <= 1)
  {
    hide *;
    HopShape(w, allowInsecure, current, redirects, follows, n);
    RequestsUpToTwo(OneHop(w, allowInsecure, current, redirects, follows, n).events);
  }

  /** A hop onward makes one request; the last makes at most two, the second only to ask again without the probe. */
  lemma HopBounded(w: World, allowInsecure: bool, current: string, redirects: nat, follows: bool, n: nat)
    ensures var hop := OneHop(w, allowInsecure, current, redirects, follows, n);
            && OnlyAllowed(w, allowInsecure, hop.events)
            && Requests(hop.events) <= 2
            && (follows ==> hop.followsRedirects && hop.step.Halt?)
            && (hop.step.Onward? ==>
                  redirects != MAX_REDIRECTS && Requests(hop.events) == 1 && hop.followsRedirects == follows)
            && (!hop.followsRedirects ==> Requests(hop.events) <= 1)
            && (hop.step.Halt? && hop.step.stop.Reached? ==>
                  && hop.step.stop.current == current
                  && UrlAllowed(w, allowInsecure, current)
                  && (hop.followsRedirects || !VisibleRedirect(hop.step.stop.response)))
  {
    HopRequests(w, allowInsecure, current, redirects, follows, n);
    hide Requests, UrlAllowed;
  }

  /** The promises about a whole call, from `redirects` redirects on. */
  ghost predicate Bounded(w: World, allowInsecure: bool, redirects: nat, follows: bool, t: Tail) {
    && Requests(t.events) <= 7 - redirects
    && (!t.followsRedirects ==> Requests(t.events) <= 6 - redirects)
    && (follows ==> t.followsRedirects && Requests(t.events) <= 2)
    && OnlyAllowed(w, allowInsecure, t.events)
    && (t.stop.Reached? ==> UrlAllowed(w, allowInsecure, t.stop.current))
    && (t.stop.Reached? ==> t.followsRedirects || !VisibleRedirect(t.stop.response))
  }

  /**
   Against any server: at most one request for each redirect still allowed, one
   more for the first, and one extra when redirects prove hidden; every request was
   allowed first; and the knowledge that redirects are hidden is never lost.
   */
  lemma {:induction false} FollowBounded(w: World, allowInsecure: bool, current: string, redirects: nat, follows: bool, n: nat)
    requires redirects <= MAX_REDIRECTS
    ensures Bounded(w, allowInsecure, redirects, follows, Follow(w, allowInsecure, current, redirects, follows, n))
    decreases MAX_REDIRECTS - redirects
  {
    hide UrlAllowed, Settled, Requests, OneHop;
    HopBounded(w, allowInsecure, current, redirects, follows, n);
    var hop := OneHop(w, allowInsecure, current, redirects, follows, n);
    if hop.step.Onward? {
      FollowBounded(w, allowInsecure, hop.step.next, redirects + 1, hop.followsRedirects, n + 1);
      RequestsConcat(hop.events, Follow(w, allowInsecure, hop.step.next, redirects + 1, hop.followsRedirects, n + 1).events);
    }
  }

  // ----- why each request was made -----

  /**
   Why `b` was requested after `a`: `a` answered with a visible redirect whose
   location resolves to it, or its redirect was hidden and the same URL is asked again.
   */
  ghost predicate Linked(w: World, a: Event, b: Event) {
    && a.Fetched? && b.Fetched? && a.response.Some?
    && var r := a.response.value;
       if r.opaqueRedirect then b.mode == FollowMode && b.url == a.url
       else
         && a.mode == b.mode == Manual
         && VisibleRedirect(r) && w.resolve(r.location.value, a.url) == Some(b.url)
  }

  /** Event `k` has its reason in the request before; a redirect's body was discarded in between. */
  ghost predicate HasReason(w: World, events: seq<Event>, k: int)
    requires 0 < k < |events|
  {
    || Linked(w, events[k - 1], events[k])
    || (k > 1 && events[k - 1].Discarded? && Linked(w, events[k - 2], events[k]))
  }

  /** Every request but the first has its reason in the one before. */
  ghost predicate Chained(w: World, events: seq<Event>) {
    forall k :: 0 < k < |events| && events[k].Fetched? ==> HasReason(w, events, k)
  }

  ghost predicate StartsAt(events: seq<Event>, url: string, mode: Mode) {
    events != [] ==> events[0].Fetched? && events[0].url == url && events[0].mode == mode
  }

  lemma HopChained(w: World, allowInsecure: bool, current: string, redirects: nat, follows: bool, n: nat)
    ensures var hop := OneHop(w, allowInsecure, current, redirects, follows, n);
            && Chained(w, hop.events)
            && StartsAt(hop.events, current, if follows then FollowMode else Manual)
            && (hop.step.Onward? ==>
                  && !follows
                  && !hop.followsRedirects
                  && |hop.events| == 2
                  && hop.events[1].Discarded?
                  && forall b: Event :: b.Fetched? && b.url == hop.step.next && b.mode == Manual ==> Linked(w, hop.events[0], b))
  {
    hide UrlAllowed;
    var events := OneHop(w, allowInsecure, current, redirects, follows, n).events;
    assert |events| <= 2;
    assert |events| == 2 && events[1].Fetched? ==> Linked(w, events[0], events[1]);
  }

  lemma {:induction false} FollowChained(w: World, allowInsecure: bool, current: string, redirects: nat, follows: bool, n: nat)
    requires redirects <= MAX_REDIRECTS
    ensures var t := Follow(w, allowInsecure, current, redirects, follows, n);
            Chained(w, t.events) && StartsAt(t.events, current, if follows then FollowMode else Manual)
    decreases MAX_REDIRECTS - redirects
  {
    HopChained(w, allowInsecure, current, redirects, follows, n);
    HopBounded(w, allowInsecure, current, redirects, follows, n);
    hide OneHop, Chained, Linked, Requests, OnlyAllowed, UrlAllowed, Settled;
    var hop := OneHop(w, allowInsecure, current, redirects, follows, n);
    if hop.step.Onward? {
      FollowChained(w, allowInsecure, hop.step.next, redirects + 1, hop.followsRedirects, n + 1);
      ChainedPrepend(w, hop.events,
                     Follow(w, allowInsecure, hop.step.next, redirects + 1, hop.followsRedirects, n + 1).events);
    }
  }

  lemma ChainedPrepend(w: World, head: seq<Event>, rest: seq<Event>)
    requires |head| == 2 && head[1].Discarded? && Chained(w, rest)
    requires rest != [] ==> Linked(w, head[0], rest[0])
    ensures Chained(w, head + rest)
  {
    hide Linked;
    var all := head + rest;
    forall k | 0 < k < |all| && all[k].Fetched?
      ensures HasReason(w, all, k)
    {
      assert all[0] == head[0] && all[1] == head[1];
      if k == 2 {
        assert all[2] == rest[0];
      } else {
        var j := k - 2;
        assert all[k] == rest[j] && all[k - 1] == rest[j - 1];
        assert j > 1 ==> all[k - 2] == rest[j - 2];
        assert HasReason(w, rest, j);
      }
    }
  }

  // ----- why a call failed -----

  /** The last request was for `url`, and was answered with a visible redirect, whose body was discarded. */
  ghost predicate EndsInRedirect(events: seq<Event>, url: string) {
    && |events| >= 2 && events[|events| - 1].Discarded?
    && var e := events[|events| - 2];
       e.Fetched? && e.url == url && e.response.Some? && !e.response.value.opaqueRedirect && VisibleRedirect(e.response.value)
  }

  /** Each failure has its cause in the last thing that happened. */
  ghost predicate Justified(w: World, allowInsecure: bool, redirects: nat, t: Tail) {
    t.stop.Failed? ==>
      match t.stop.failure
      case UrlRefused(url) => !UrlAllowed(w, allowInsecure, url)
      case RequestFailed(url) => t.events != [] && var e := t.events[|t.events| - 1]; e.Fetched? && e.url == url && e.response.None?
      case NotAValidUrl(url) =>
        && EndsInRedirect(t.events, url)
        && w.resolve(t.events[|t.events| - 2].response.value.location.value, url).None?
      case TooManyRedirects(url) => Requests(t.events) == 6 - redirects && EndsInRedirect(t.events, url)
      case TooLarge(_) => false
  }

  lemma HopJustified(w: World, allowInsecure: bool, current: string, redirects: nat, follows: bool, n: nat)
    requires redirects <= MAX_REDIRECTS
    ensures var hop := OneHop(w, allowInsecure, current, redirects, follows, n);
            hop.step.Halt? ==> Justified(w, allowInsecure, redirects, Tail(hop.events, hop.step.stop, hop.followsRedirects))
  {
    RequestsOfPair(Fetched(current, ModeOf(follows), w.respond(n, current, ModeOf(follows))), Discarded);
    hide UrlAllowed, Requests;
  }

  lemma JustifiedLater(w: World, allowInsecure: bool, redirects: nat, head: seq<Event>, rest: Tail)
    requires Requests(head) == 1 && redirects < MAX_REDIRECTS && Justified(w, allowInsecure, redirects + 1, rest)
    ensures Justified(w, allowInsecure, redirects, Tail(head + rest.events, rest.stop, rest.followsRedirects))
  {
    RequestsConcat(head, rest.events);
    hide UrlAllowed, Requests, Settled;
    assert forall k :: 0 <= k < |rest.events| ==> (head + rest.events)[|head| + k] == rest.events[k];
    assert rest.events != [] ==> (head + rest.events)[|head| + |rest.events| - 1] == rest.events[|rest.events| - 1];
    assert |rest.events| > 1 ==> (head + rest.events)[|head| + |rest.events| - 2] == rest.events[|rest.events| - 2];
  }

  lemma OnwardUsesOne(w: World, allowInsecure: bool, current: string, redirects: nat, follows: bool, n: nat)
    ensures var hop := OneHop(w, allowInsecure, current, redirects, follows, n);
            hop.step.Onward? ==> redirects != MAX_REDIRECTS && Requests(hop.events) == 1
  {
    hide *;
    HopBounded(w, allowInsecure, current, redirects, follows, n);
  }

  /**
   The loop gives up only for cause: a URL the policy refuses, a request that got no
   answer, a location that does not resolve, or exactly one redirect more than allowed.
   */
  lemma {:induction false} FollowJustified(w: World, allowInsecure: bool, current: string, redirects: nat, follows: bool, n: nat)
    requires redirects <= MAX_REDIRECTS
    ensures Justified(w, allowInsecure, redirects, Follow(w, allowInsecure, current, redirects, follows, n))
    decreases MAX_REDIRECTS - redirects
  {
    hide OneHop, Requests, Settled, UrlAllowed, Justified;
    HopJustified(w, allowInsecure, current, redirects, follows, n);
    OnwardUsesOne(w, allowInsecure, current, redirects, follows, n);
    var hop := OneHop(w, allowInsecure, current, redirects, follows, n);
    if hop.step.Onward? {
      FollowJustified(w, allowInsecure, hop.step.next, redirects + 1, hop.followsRedirects, n + 1);
      JustifiedLater(w, allowInsecure, redirects, hop.events,
                     Follow(w, allowInsecure, hop.step.next, redirects + 1, hop.followsRedirects, n + 1));
    }
  }

  // ----- one call -----

  /** A tail after `done` has already happened. */
  function After(done: seq<Event>, t: Tail): Tail { Tail(done + t.events, t.stop, t.followsRedirects) }

  lemma FollowOnward(w: World, allowInsecure: bool, current: string, redirects: nat, follows: bool, n: nat, done: seq<Event>)
    requires redirects <= MAX_REDIRECTS
    requires OneHop(w, allowInsecure, current, redirects, follows, n).step.Onward?
    ensures redirects < MAX_REDIRECTS
    ensures var hop := OneHop(w, allowInsecure, current, redirects, follows, n);
            && Requests(done + hop.events) == Requests(done) + 1
            && After(done, Follow(w, allowInsecure, current, redirects, follows, n)) ==
               After(done + hop.events,
                     Follow(w, allowInsecure, hop.step.next, redirects + 1, hop.followsRedirects, n + 1))
  {
    hide OneHop, Requests, OnlyAllowed;
    HopBounded(w, allowInsecure, current, redirects, follows, n);
    var hop := OneHop(w, allowInsecure, current, redirects, follows, n);
    RequestsConcat(done, hop.events);
    var rest := Follow(w, allowInsecure, hop.step.next, redirects + 1, hop.followsRedirects, n + 1).events;
    assert done + (hop.events + rest) == done + hop.events + rest;
  }

  lemma FollowHalts(w: World, allowInsecure: bool, current: string, redirects: nat, follows: bool, n: nat, done: seq<Event>)
    requires redirects <= MAX_REDIRECTS
    requires OneHop(w, allowInsecure, current, redirects, follows, n).step.Halt?
    ensures var hop := OneHop(w, allowInsecure, current, redirects, follows, n);
            After(done, Follow(w, allowInsecure, current, redirects, follows, n)) ==
            Tail(done + hop.events, hop.step.stop, hop.followsRedirects)
  {
    hide OneHop;
  }

  /** The URL actually reached: the response's own when it gives one. */
  function ReachedUrl(response: Response, current: string): string {
    if response.url != "" then response.url else current
  }

  predicate DeclaredTooLarge(r: Response, maxBytes: real) { r.contentLength.Some? && r.contentLength.value > maxBytes }

  /** What a call does once the loop has stopped. */
  function Finish(w: World, allowInsecure: bool, maxBytes: real, stop: Stop): (seq<Event>, Result) {
    match stop
    case Failed(failure) => ([], Error(failure))
    case Reached(response, current) =>
      var reached := ReachedUrl(response, current);
      if reached != current && !UrlAllowed(w, allowInsecure, reached) then ([Discarded], Error(UrlRefused(reached)))
      else if DeclaredTooLarge(response, maxBytes) then ([Discarded], Error(TooLarge(reached)))
      else if BodySize(response.body) as real > maxBytes then ([BodyRead(reached)], Error(TooLarge(reached)))
      else ([BodyRead(reached)], Delivered(BodyText(response.body), response.status))
  }

  /** One call of the service: its events and its result, and whether redirects are known to be hidden after it. */
  function Call(w: World, allowInsecure: bool, maxBytes: real, url: string, follows: bool, n: nat): (seq<Event>, Result, bool) {
    var t := Follow(w, allowInsecure, url, 0, follows, n);
    var end := Finish(w, allowInsecure, maxBytes, t.stop);
    (t.events + end.0, end.1, t.followsRedirects)
  }

  /** Where the response came from: its own URL if it gives one. */
  ghost predicate ComesFrom(stop: Stop, reached: string) {
    stop.Reached? && (stop.response.url == reached != "" || (stop.response.url == "" && reached == stop.current))
  }

  /** The response's URL is the one asked for, or allowed. */
  ghost predicate MayBeRead(w: World, allowInsecure: bool, stop: Stop, reached: string)
    requires stop.Reached?
  {
    reached == stop.current || UrlAllowed(w, allowInsecure, reached)
  }

  ghost predicate FitsTheCap(r: Response, maxBytes: real) {
    (r.contentLength.None? || r.contentLength.value <= maxBytes) && BodySize(r.body) as real <= maxBytes
  }

  /**
   How a call ends once the loop has reached a response: it is delivered iff its URL may be read and it fits
   the cap as declared and as read; it is refused iff its URL may not be read, and then it is not read.
   */
  lemma EndsExactly(w: World, allowInsecure: bool, maxBytes: real, stop: Stop, reached: string)
    requires ComesFrom(stop, reached)
    ensures var (events, result) := Finish(w, allowInsecure, maxBytes, stop);
            && (result.Delivered? <==> MayBeRead(w, allowInsecure, stop, reached) && FitsTheCap(stop.response, maxBytes))
            && (result == Error(UrlRefused(reached)) <==> !MayBeRead(w, allowInsecure, stop, reached))
            && (result == Error(TooLarge(reached)) <==>
                MayBeRead(w, allowInsecure, stop, reached) && !FitsTheCap(stop.response, maxBytes))
            && (result.Delivered? ==> events == [BodyRead(reached)])
            && (!MayBeRead(w, allowInsecure, stop, reached) ==> events == [Discarded])
  {
    hide UrlAllowed, BodySize, BodyText;
  }

  class HttpGetService {
    const w: World
    const allowInsecure: bool
    const maxBytes: real
    /** Set once the runtime is seen to hide redirects. */
    var followsRedirects: bool
    /** Everything done so far, and how many requests that took. */
    var log: seq<Event>
    var requests: nat

    constructor (w: World, allowInsecure: bool, maxBytes: real)
      requires maxBytes > 0.0
      ensures this.w == w && this.allowInsecure == allowInsecure && this.maxBytes == maxBytes
      ensures !followsRedirects && log == [] && requests == 0
    {
      this.w := w;
      this.allowInsecure := allowInsecure;
      this.maxBytes := maxBytes;
      followsRedirects, log, requests := false, [], 0;
    }

    /** One request; None is a network failure. */
    method Fetch(url: string, mode: Mode) returns (response: Option<Response>)
      modifies `log, `requests
      ensures response == w.respond(old(requests), url, mode)
      ensures log == old(log) + [Fetched(url, mode, response)] && requests == old(requests) + 1
    {
      response := w.respond(requests, url, mode);
      log, requests := log + [Fetched(url, mode, response)], requests + 1;
    }

    method Discard()
      modifies `log
      ensures log == old(log) + [Discarded]
    {
      log := log + [Discarded];
    }

    /** One hop of the loop: the request to `current`, and what its response leads to. */
    method Ask(current: string, redirects: nat) returns (step: Step)
      modifies this
      ensures Hop(log, step, followsRedirects) ==
              var hop := OneHop(w, allowInsecure, current, redirects, old(followsRedirects), old(requests));
              Hop(old(log) + hop.events, hop.step, hop.followsRedirects)
      ensures step.Onward? ==> requests == old(requests) + 1
    {
      hide UrlAllowed, IsRedirect;
      if !UrlAllowed(w, allowInsecure, current) {
        return Halt(Failed(UrlRefused(current)));
      }
      var answer := Fetch(current, ModeOf(followsRedirects));
      if answer.None? {
        return Halt(Failed(RequestFailed(current)));
      }
      if answer.value.opaqueRedirect {
        followsRedirects := true;
        answer := Fetch(current, FollowMode);
        if answer.None? {
          return Halt(Failed(RequestFailed(current)));
        }
      }
      var response := answer.value;
      if Settled(followsRedirects, response) {
        return Halt(Reached(response, current));
      }
      Discard();
      if redirects == MAX_REDIRECTS {
        return Halt(Failed(TooManyRedirects(current)));
      }
      var next := w.resolve(response.location.value, current);
      return if next.None? then Halt(Failed(NotAValidUrl(current))) else Onward(next.value);
    }

    method FetchWithinPolicy(url: string) returns (result: Result)
      requires maxBytes > 0.0
      modifies this
      ensures (log, result, followsRedirects) ==
              var call := Call(w, allowInsecure, maxBytes, url, old(followsRedirects), old(requests));
              (old(log) + call.0, call.1, call.2)
      ensures old(followsRedirects) ==> followsRedirects
    {
      hide OneHop, Follow, Finish, UrlAllowed, Requests, BodySize, BodyText;
      CallIsBounded(w, allowInsecure, maxBytes, url, followsRedirects, requests);
      var current, redirects := url, 0;
      ghost var whole := Follow(w, allowInsecure, url, 0, followsRedirects, requests);
      while true
        invariant redirects <= MAX_REDIRECTS
        invariant After(log, Follow(w, allowInsecure, current, redirects, followsRedirects, requests)) == After(old(log), whole)
        decreases MAX_REDIRECTS - redirects
      {
        ghost var before, follows, n := log, followsRedirects, requests;
        var step := Ask(current, redirects);
        if step.Halt? {
          FollowHalts(w, allowInsecure, current, redirects, follows, n, before);
          result := Conclude(step.stop);
          ghost var end := Finish(w, allowInsecure, maxBytes, step.stop).0;
          assert old(log) + whole.events + end == old(log) + (whole.events + end);
          return;
        }
        FollowOnward(w, allowInsecure, current, redirects, follows, n, before);
        current, redirects := step.next, redirects + 1;
      }
    }

    /** After the loop: judge the URL actually reached, then read the body under the cap. */
    method Conclude(stop: Stop) returns (result: Result)
      requires maxBytes > 0.0
      modifies `log
      ensures (log, result) == var end := Finish(w, allowInsecure, maxBytes, stop); (old(log) + end.0, end.1)
    {
      hide UrlAllowed;
      if stop.Failed? {
        assert log + [] == log;
        return Error(stop.failure);
      }
      var response, reached := stop.response, ReachedUrl(stop.response, stop.current);
      if reached != stop.current && !UrlAllowed(w, allowInsecure, reached) {
        Discard();
        return Error(UrlRefused(reached));
      }
      var text := ReadCapped(response.contentLength, response.body, maxBytes);
      if DeclaredTooLarge(response, maxBytes) {
        Discard();
      } else {
        log := log + [BodyRead(reached)];
      }
      return if text.Some? then Delivered(text.value, response.status) else Error(TooLarge(reached));
    }
  }

  /** The body is read only at the very end, and only from a URL the policy allows. */
  ghost predicate ReadsOnlyAllowed(w: World, allowInsecure: bool, events: seq<Event>) {
    forall k :: 0 <= k < |events| && events[k].BodyRead? ==> k == |events| - 1 && UrlAllowed(w, allowInsecure, events[k].url)
  }

  /** The loop itself reads no body, and the response it ends with answers its last request. */
  ghost predicate EndsWithItsResponse(t: Tail) {
    && (forall k :: 0 <= k < |t.events| ==> !t.events[k].BodyRead?)
    && (t.stop.Reached? ==>
          && t.events != []
          && var last := t.events[|t.events| - 1];
             last.Fetched? && last.url == t.stop.current && last.response == Some(t.stop.response))
  }

  lemma HopEnds(w: World, allowInsecure: bool, current: string, redirects: nat, follows: bool, n: nat)
    ensures var hop := OneHop(w, allowInsecure, current, redirects, follows, n);
            && (forall k :: 0 <= k < |hop.events| ==> !hop.events[k].BodyRead?)
            && (hop.step.Halt? ==> EndsWithItsResponse(Tail(hop.events, hop.step.stop, hop.followsRedirects)))
  {
    hide UrlAllowed, IsRedirect;
  }

  lemma {:induction false} FollowEnds(w: World, allowInsecure: bool, current: string, redirects: nat, follows: bool, n: nat)
    requires redirects <= MAX_REDIRECTS
    ensures EndsWithItsResponse(Follow(w, allowInsecure, current, redirects, follows, n))
    decreases MAX_REDIRECTS - redirects
  {
    HopEnds(w, allowInsecure, current, redirects, follows, n);
    HopBounded(w, allowInsecure, current, redirects, follows, n);
    hide OneHop, Requests, OnlyAllowed, Settled, UrlAllowed;
    var hop := OneHop(w, allowInsecure, current, redirects, follows, n);
    if hop.step.Onward? {
      FollowEnds(w, allowInsecure, hop.step.next, redirects + 1, hop.followsRedirects, n + 1);
    }
  }

  /** What a call does after the loop: no request, at most one event, and a body read only from an allowed URL. */
  lemma FinishEvents(w: World, allowInsecure: bool, maxBytes: real, stop: Stop)
    requires stop.Reached? ==> UrlAllowed(w, allowInsecure, stop.current)
    ensures var end := Finish(w, allowInsecure, maxBytes, stop).0;
            && Requests(end) == 0
            && |end| <= (if stop.Reached? then 1 else 0)
            && (end != [] ==> !end[0].Fetched?)
            && (end != [] && end[0].BodyRead? ==> UrlAllowed(w, allowInsecure, end[0].url))
  {
    RequestsOfPair(Discarded, Discarded);
    if stop.Reached? {
      RequestsOfPair(BodyRead(ReachedUrl(stop.response, stop.current)), Discarded);
    }
    assert Requests([]) == 0;
    hide Requests, UrlAllowed, BodySize, BodyText;
  }

  lemma AppendLast(w: World, allowInsecure: bool, events: seq<Event>, end: seq<Event>)
    requires |end| <= 1 && (end != [] ==> !end[0].Fetched?)
    requires Chained(w, events) && OnlyAllowed(w, allowInsecure, events)
    ensures Chained(w, events + end) && OnlyAllowed(w, allowInsecure, events + end)
  {
    hide Linked, UrlAllowed;
    var all := events + end;
    forall k | 0 < k < |all| && all[k].Fetched?
      ensures HasReason(w, all, k)
    {
      assert HasReason(w, events, k);
      assert all[k] == events[k] && all[k - 1] == events[k - 1];
      assert k > 1 ==> all[k - 2] == events[k - 2];
    }
  }

  /** What is delivered: the body that answered the last request, within the cap both as declared and as read. */
  ghost predicate DeliversWithinCap(events: seq<Event>, result: Result, maxBytes: real) {
    result.Delivered? ==>
      && |events| >= 2
      && events[|events| - 1].BodyRead?
      && var last := events[|events| - 2];
         && last.Fetched?
         && last.response.Some?
         && (last.response.value.contentLength.Some? ==> last.response.value.contentLength.value <= maxBytes)
         && BodySize(last.response.value.body) as real <= maxBytes
         && result == Delivered(BodyText(last.response.value.body), last.response.value.status)
  }

  lemma CallIsBounded(w: World, allowInsecure: bool, maxBytes: real, url: string, follows: bool, n: nat)
    ensures var (events, result, followsAfter) := Call(w, allowInsecure, maxBytes, url, follows, n);
            && Requests(events) <= 7
            && (!followsAfter ==> Requests(events) <= 6)
            && (follows ==> followsAfter && Requests(events) <= 2)
  {
    hide Follow, Finish, UrlAllowed, Requests, OnlyAllowed, Settled;
    var t := Follow(w, allowInsecure, url, 0, follows, n);
    FollowBounded(w, allowInsecure, url, 0, follows, n);
    FinishEvents(w, allowInsecure, maxBytes, t.stop);
    RequestsConcat(t.events, Finish(w, allowInsecure, maxBytes, t.stop).0);
  }

  lemma CallIsChained(w: World, allowInsecure: bool, maxBytes: real, url: string, follows: bool, n: nat)
    ensures var (events, result, followsAfter) := Call(w, allowInsecure, maxBytes, url, follows, n);
            OnlyAllowed(w, allowInsecure, events) && Chained(w, events) && StartsAt(events, url, if follows then FollowMode else Manual)
  {
    hide Follow, Finish, UrlAllowed, Requests, OnlyAllowed, Chained, Settled;
    var t := Follow(w, allowInsecure, url, 0, follows, n);
    FollowBounded(w, allowInsecure, url, 0, follows, n);
    FollowChained(w, allowInsecure, url, 0, follows, n);
    FollowEnds(w, allowInsecure, url, 0, follows, n);
    FinishEvents(w, allowInsecure, maxBytes, t.stop);
    AppendLast(w, allowInsecure, t.events, Finish(w, allowInsecure, maxBytes, t.stop).0);
  }

  lemma FinishDelivers(w: World, allowInsecure: bool, maxBytes: real, stop: Stop)
    ensures var (end, result) := Finish(w, allowInsecure, maxBytes, stop);
            result.Delivered? ==>
              && stop.Reached?
              && |end| == 1 && end[0].BodyRead?
              && !DeclaredTooLarge(stop.response, maxBytes)
              && BodySize(stop.response.body) as real <= maxBytes
              && result == Delivered(BodyText(stop.response.body), stop.response.status)
  {
    hide UrlAllowed, BodySize, BodyText;
  }

  lemma ReadsInLast(w: World, allowInsecure: bool, events: seq<Event>, end: seq<Event>)
    requires forall k :: 0 <= k < |events| ==> !events[k].BodyRead?
    requires |end| <= 1 && (end != [] && end[0].BodyRead? ==> UrlAllowed(w, allowInsecure, end[0].url))
    ensures ReadsOnlyAllowed(w, allowInsecure, events + end)
  {
    hide UrlAllowed;
    assert end != [] ==> (events + end)[|events|] == end[0];
  }

  lemma CallReads(w: World, allowInsecure: bool, maxBytes: real, url: string, follows: bool, n: nat)
    ensures ReadsOnlyAllowed(w, allowInsecure, Call(w, allowInsecure, maxBytes, url, follows, n).0)
  {
    var t := Follow(w, allowInsecure, url, 0, follows, n);
    FollowBounded(w, allowInsecure, url, 0, follows, n);
    FollowEnds(w, allowInsecure, url, 0, follows, n);
    hide Follow, Finish, UrlAllowed, Requests, OnlyAllowed, Settled, ReadsOnlyAllowed;
    FinishEvents(w, allowInsecure, maxBytes, t.stop);
    ReadsInLast(w, allowInsecure, t.events, Finish(w, allowInsecure, maxBytes, t.stop).0);
  }

  lemma DeliveredLast(t: Tail, end: seq<Event>, result: Result, maxBytes: real)
    requires EndsWithItsResponse(t) && t.stop.Reached? && |end| == 1 && end[0].BodyRead?
    requires !DeclaredTooLarge(t.stop.response, maxBytes) && BodySize(t.stop.response.body) as real <= maxBytes
    requires result == Delivered(BodyText(t.stop.response.body), t.stop.response.status)
    ensures DeliversWithinCap(t.events + end, result, maxBytes)
  {
    hide BodySize, BodyText;
    var events := t.events + end;
    assert events[|events| - 2] == t.events[|t.events| - 1] && events[|events| - 1] == end[0];
  }

  lemma CallDelivers(w: World, allowInsecure: bool, maxBytes: real, url: string, follows: bool, n: nat)
    ensures var (events, result, followsAfter) := Call(w, allowInsecure, maxBytes, url, follows, n);
            DeliversWithinCap(events, result, maxBytes)
  {
    var t := Follow(w, allowInsecure, url, 0, follows, n);
    FollowEnds(w, allowInsecure, url, 0, follows, n);
    FinishDelivers(w, allowInsecure, maxBytes, t.stop);
    hide Follow, Finish, BodySize, BodyText, DeclaredTooLarge, EndsWithItsResponse;
    var (end, result) := Finish(w, allowInsecure, maxBytes, t.stop);
    if result.Delivered? {
      DeliveredLast(t, end, result, maxBytes);
    }
  }

  /**
   Whatever the server answers, a call makes at most seven requests,
   one fewer unless redirects prove hidden, each for a URL the policy allowed and each
   for a reason; it reads a body only from an allowed URL and delivers it only within
   the cap; and it never forgets that redirects are hidden.
   */
  lemma CallKeepsPolicy(w: World, allowInsecure: bool, maxBytes: real, url: string, follows: bool, n: nat)
    ensures var (events, result, followsAfter) := Call(w, allowInsecure, maxBytes, url, follows, n);
            && Requests(events) <= 7
            && (!followsAfter ==> Requests(events) <= 6)
            && (follows ==> followsAfter && Requests(events) <= 2)
            && OnlyAllowed(w, allowInsecure, events)
            && Chained(w, events)
            && StartsAt(events, url, if follows then FollowMode else Manual)
            && ReadsOnlyAllowed(w, allowInsecure, events)
            && DeliversWithinCap(events, result, maxBytes)
  {
    hide *;
    CallIsBounded(w, allowInsecure, maxBytes, url, follows, n);
    CallIsChained(w, allowInsecure, maxBytes, url, follows, n);
    CallReads(w, allowInsecure, maxBytes, url, follows, n);
    CallDelivers(w, allowInsecure, maxBytes, url, follows, n);
  }
}
