/**
 The address policy from the URL to the verdict, in terms of addresses and names alone, and what
 it means for the requests of a call.
 */
module UrlVerdicts {
  import opened Options
  import opened Strings
  import opened UrlPolicy
  import opened HttpGet

  // ----- the words of the policy -----

  /** The address lies in one of the refused ranges. */
  ghost predicate Blocked(address: Word) {
    exists k :: 0 <= k < |IPV4_RANGES| && IPV4_RANGES[k].0 <= address <= IPV4_RANGES[k].1
  }

  /** `b` is `a` in lower case. */
  ghost predicate Lowers(a: string, b: string) {
    && |a| == |b|
    && forall k :: 0 <= k < |a| ==> if 'A' <= a[k] <= 'Z' then b[k] as int == a[k] as int + 32 else b[k] == a[k]
  }

  /** The host is `name` in some case, with or without a dot after it. */
  ghost predicate Writes(host: string, name: string) {
    (Lowers(host, name) && !(name != "" && name[|name| - 1] == '.')) || Lowers(host, name + ".")
  }

  /** The local host's name, or a name below it. */
  ghost predicate Local(name: string) {
    name == "localhost" || exists below: string :: name == below + ".localhost"
  }

  ghost predicate ShortNumber(s: string) { 1 <= |s| <= 3 && forall c :: c in s ==> '0' <= c <= '9' }

  /** An address text of either version: four short numbers with dots between, or a literal in brackets. */
  ghost predicate IsAddressText(name: string) {
    || (name != "" && name[0] == '[')
    || exists a, b, c, d :: name == a + "." + b + "." + c + "." + d && ShortNumber(a) && ShortNumber(b) && ShortNumber(c) && ShortNumber(d)
  }

  /** The address an IPv6 address carries, if it is of a form that carries one. */
  ghost function Carried(groups: seq<Word>): Option<Word>
    requires |groups| == 8
  {
    if groups[..5] == [0, 0, 0, 0, 0] && (groups[5] == 0 || groups[5] == 0xffff) then Some(groups[6] * 0x1_0000 + groups[7])
    else if groups[..6] == [0x64, 0xff9b, 0, 0, 0, 0] then Some(groups[6] * 0x1_0000 + groups[7])
    else if groups[0] == 0x2002 then Some(groups[1] * 0x1_0000 + groups[2])
    else None
  }

  /** An IPv6 address the policy refuses: the one it carries is blocked, or it is not for public use itself. */
  ghost predicate Blocked6(groups: seq<Word>)
    requires |groups| == 8
  {
    if Carried(groups).Some? then Blocked(Carried(groups).value)
    else
      || 0xfc00 <= groups[0] <= 0xfdff || 0xfe80 <= groups[0] <= 0xffff
      || groups[..3] == [0x64, 0xff9b, 1]
  }

  /** The host writes an IPv6 address in brackets: its groups all written out, or with a run of zero groups elided. */
  ghost predicate Bracketed(host: string, groups: seq<Word>)
    requires |groups| == 8 && Groups16(groups)
  {
    || Writes(host, "[" + PrintPlain(groups) + "]")
    || exists i, j :: 0 <= i <= j <= 8 && (forall k :: i <= k < j ==> groups[k] == 0) && Writes(host, "[" + PrintElided(groups, i, j) + "]")
  }

  // ----- the host, as it is normalised -----

  lemma Normalised(host: string, name: string)
    requires Writes(host, name)
    ensures WithoutTrailingDot(ToLower(host)) == name
  {
    var lower := ToLower(host);
    if Lowers(host, name + ".") {
      assert lower == name + ".";
      assert (name + ".")[..|name|] == name;
    } else {
      assert lower == name;
    }
  }

  lemma LocalIs(name: string)
    ensures Local(name) <==> name == "localhost" || EndsWith(name, ".localhost")
  {
    if EndsWith(name, ".localhost") {
      assert name == name[..|name| - 10] + ".localhost";
    }
    if below: string :| name == below + ".localhost" {
      assert |".localhost"| == 10 && name[|name| - 10..] == ".localhost";
    }
  }

  lemma JoinFour(a: string, b: string, c: string, d: string)
    ensures Join([a, b, c, d], '.') == a + "." + b + "." + c + "." + d
  {
    var x, y, z := [b, c, d], [c, d], [d];
    assert [a, b, c, d][1..] == x && x[1..] == y && y[1..] == z;
    assert Join(y, '.') == c + "." + d;
    assert Join(x, '.') == b + "." + (c + "." + d);
    hide Join;
    assert a + "." + (b + "." + (c + "." + d)) == a + "." + b + "." + c + "." + d;
  }

  lemma LiteralIsAddressText(name: string)
    requires IsIpv4Literal(name)
    ensures IsAddressText(name)
  {
    var parts := Split(name, '.');
    JoinSplit(name, '.');
    assert parts == [parts[0], parts[1], parts[2], parts[3]];
    JoinFour(parts[0], parts[1], parts[2], parts[3]);
    assert forall k :: 0 <= k < 4 ==> ShortNumber(parts[k]);
    hide Join, Split, ShortNumber;
  }

  /** The verdict on a host, from the name it writes. */
  lemma HostVerdict(host: string, name: string)
    requires Writes(host, name)
    ensures Local(name) ==> CheckHost(host).Refused?
    ensures !Local(name) && !IsAddressText(name) ==> CheckHost(host).Allowed?
  {
    Normalised(host, name);
    LocalIs(name);
    if IsIpv4Literal(name) {
      LiteralIsAddressText(name);
    }
    hide IsIpv4Literal, EndsWith, WithoutTrailingDot, Local, CheckIpv4, CheckIpv6;
  }

  lemma AddressVerdict(address: Word)
    ensures CheckIpv4(address).Refused? <==> Blocked(address)
  {
    MaskTestIsRangeTest(address);
    assert forall k :: 0 <= k < |IPV4_RANGES| ==> InRange(address, IPV4_RANGES[k]) == (IPV4_RANGES[k].0 <= address <= IPV4_RANGES[k].1);
    hide CheckIpv4;
  }

  /** A host is judged as the name it writes, if that name is in normal form. */
  lemma JudgedAsWritten(host: string, name: string)
    requires Writes(host, name) && Plain(name)
    ensures CheckHost(host) == CheckHost(name)
  {
    Normalised(host, name);
    PlainUnchanged(name);
    hide IsIpv4Literal, EndsWith, WithoutTrailingDot, CheckIpv4, CheckIpv6, Plain, Writes;
  }

  lemma DottedIsRefusedIff(host: string, address: Word)
    requires Writes(host, Dotted(address))
    ensures CheckHost(host).Refused? <==> Blocked(address)
  {
    DottedChars(address);
    NumericHost(Dotted(address));
    hide *;
    JudgedAsWritten(host, Dotted(address));
    DottedVerdict(address);
    AddressVerdict(address);
  }

  lemma JoinHalves(high: Word, low: Word)
    requires high < 0x1_0000 && low < 0x1_0000
    ensures Embedded(high, low) == high * 0x1_0000 + low
  {
  }

  lemma OwnVerdict(groups: seq<Word>)
    requires |groups| == 8 && Groups16(groups) && !EmbedsIpv4(groups)
    ensures CheckIpv6Groups(groups).Refused? <==> Blocked6(groups)
  {
    OtherIpv6Verdict(groups);
    CarriedIff(groups);
    hide CheckIpv6Groups, CheckIpv4, Blocked, Embedded, EmbedsIpv4, Carried;
    assert groups[..3] == [0x64, 0xff9b, 1] <==> groups[0] == 0x64 && groups[1] == 0xff9b && groups[2] == 1;
  }

  lemma GroupsVerdict(groups: seq<Word>)
    requires |groups| == 8 && Groups16(groups)
    ensures CheckIpv6Groups(groups).Refused? <==> Blocked6(groups)
  {
    hide CheckIpv6Groups, CheckIpv4, Blocked, EmbedsIpv4, Carried, Groups16;
    CarriedIff(groups);
    if EmbedsIpv4(groups) {
      CarriedVerdict(groups);
      AddressVerdict(Carried(groups).value);
    } else {
      OwnVerdict(groups);
    }
  }

  lemma CarriedIff(groups: seq<Word>)
    requires |groups| == 8
    ensures Carried(groups).Some? <==> EmbedsIpv4(groups)
    ensures groups[..5] == [0, 0, 0, 0, 0] <==> ZerosUpTo(groups, 5)
    ensures groups[..6] == [0x64, 0xff9b, 0, 0, 0, 0] <==>
            groups[0] == 0x64 && groups[1] == 0xff9b && groups[2] == 0 && groups[3] == 0 && groups[4] == 0 && groups[5] == 0
  {
  }

  /** A form that carries an address is judged by it; the two special addresses carry blocked ones. */
  lemma CarriedVerdict(groups: seq<Word>)
    requires |groups| == 8 && Groups16(groups) && EmbedsIpv4(groups)
    ensures CheckIpv6Groups(groups).Refused? <==> CheckIpv4(Carried(groups).value).Refused?
  {
    CarriedIff(groups);
    JoinHalves(groups[6], groups[7]);
    JoinHalves(groups[1], groups[2]);
    ZeroAndOneRefused();
    SpecialGroups(groups);
    hide CheckIpv4, Embedded;
  }

  lemma SpecialGroups(groups: seq<Word>)
    requires |groups| == 8
    ensures ZerosUpTo(groups, 8) ==> Carried(groups) == Some(0)
    ensures ZerosUpTo(groups, 7) && groups[7] == 1 ==> Carried(groups) == Some(1)
  {
    CarriedIff(groups);
  }

  lemma InBracketsIsPlain(text: string)
    requires forall c :: c in text ==> LowerChar(c) == c
    ensures Plain("[" + text + "]")
  {
  }

  lemma BracketedIsRefusedIff(host: string, groups: seq<Word>)
    requires |groups| == 8 && Groups16(groups) && Bracketed(host, groups)
    ensures CheckHost(host).Refused? <==> Blocked6(groups)
  {
    GroupsVerdict(groups);
    hide CheckHost, CheckIpv6Groups, PrintPlain, PrintElided, Blocked6, Writes, Plain;
    var plain := "[" + PrintPlain(groups) + "]";
    if Writes(host, plain) {
      PlainVerdict(groups);
      PrintedPlain(groups);
      InBracketsIsPlain(PrintPlain(groups));
      JudgedAsWritten(host, plain);
    } else {
      var i, j :| 0 <= i <= j <= 8 && (forall k :: i <= k < j ==> groups[k] == 0) && Writes(host, "[" + PrintElided(groups, i, j) + "]");
      ElidedVerdict(groups, i, j);
      ElidedIsLower(groups, i, j);
      InBracketsIsPlain(PrintElided(groups, i, j));
      JudgedAsWritten(host, "[" + PrintElided(groups, i, j) + "]");
    }
  }

  // ----- URLs -----

  ghost predicate Refuses(parsed: Option<Url>, allowInsecure: bool) { CheckUrl(parsed, allowInsecure).Refused? }

  /**
   The policy with its defaults: no URL that does not parse or is not https; no dotted address in
   the refused ranges, and no IPv6 address that carries one or is not for public use, however it is written; no name
   of the local host, in any case, with or without a dot at the end. Every other address and name is allowed.
   */
  lemma SecureVerdict(host: string, protocol: string)
    ensures Refuses(None, false)
    ensures protocol != "https:" ==> Refuses(Some(Url(protocol, host)), false)
    ensures forall address :: Writes(host, Dotted(address)) ==> (Refuses(Some(Url("https:", host)), false) <==> Blocked(address))
    ensures forall groups :: |groups| == 8 && Groups16(groups) && Bracketed(host, groups) ==>
              (Refuses(Some(Url("https:", host)), false) <==> Blocked6(groups))
    ensures forall name :: Writes(host, name) && Local(name) ==> Refuses(Some(Url("https:", host)), false)
    ensures forall name :: Writes(host, name) && !Local(name) && !IsAddressText(name) ==> !Refuses(Some(Url("https:", host)), false)
  {
    forall address | Writes(host, Dotted(address)) ensures CheckHost(host).Refused? <==> Blocked(address) {
      DottedIsRefusedIff(host, address);
    }
    forall groups | |groups| == 8 && Groups16(groups) && Bracketed(host, groups) ensures CheckHost(host).Refused? <==> Blocked6(groups) {
      BracketedIsRefusedIff(host, groups);
    }
    forall name | Writes(host, name)
      ensures Local(name) ==> CheckHost(host).Refused?
      ensures !Local(name) && !IsAddressText(name) ==> CheckHost(host).Allowed?
    {
      HostVerdict(host, name);
    }
    hide CheckHost, Dotted, Bracketed, Blocked, Blocked6, Writes, Local, IsAddressText;
  }

  /** With `allowInsecure`, only the scheme is judged. */
  lemma InsecureVerdict(parsed: Option<Url>)
    ensures !Refuses(parsed, true) <==> parsed.Some? && (parsed.value.protocol == "http:" || parsed.value.protocol == "https:")
  {
  }

  // ----- requests -----

  /** A host the policy keeps every request away from. */
  ghost predicate Forbidden(host: string) {
    || (exists address :: Writes(host, Dotted(address)) && Blocked(address))
    || (exists groups :: |groups| == 8 && Groups16(groups) && Bracketed(host, groups) && Blocked6(groups))
    || (exists name :: Writes(host, name) && Local(name))
  }

  lemma ForbiddenIsRefused(url: Url)
    requires Forbidden(url.hostname)
    ensures Refuses(Some(url), false)
  {
    SecureVerdict(url.hostname, url.protocol);
    hide Refuses, Dotted, Bracketed, Blocked, Blocked6, Writes, Local;
    assert url == Url(url.protocol, url.hostname);
  }

  /** The event's URL parses as an https URL to a host that is not forbidden, if it asks for one or reads from it. */
  ghost predicate SafeEvent(w: HttpGet.World, e: Event) {
    e.Fetched? || e.BodyRead? ==>
      && w.parse(e.url).Some?
      && w.parse(e.url).value.protocol == "https:"
      && !Forbidden(w.parse(e.url).value.hostname)
  }

  /** Against any server, a call with the defaults requests and reads nothing but https URLs of hosts that are not forbidden. */
  lemma CallStaysOutside(w: HttpGet.World, maxBytes: real, url: string, follows: bool, n: nat)
    ensures forall e :: e in Call(w, false, maxBytes, url, follows, n).0 ==> SafeEvent(w, e)
  {
    CallKeepsPolicy(w, false, maxBytes, url, follows, n);
    var events := Call(w, false, maxBytes, url, follows, n).0;
    hide Call, Requests, Chained, DeliversWithinCap, Forbidden;
    forall e | e in events ensures SafeEvent(w, e) {
      var k :| 0 <= k < |events| && events[k] == e;
      if e.Fetched? || e.BodyRead? {
        assert UrlAllowed(w, false, e.url);
        var parsed := w.parse(e.url);
        if Forbidden(parsed.value.hostname) {
          ForbiddenIsRefused(parsed.value);
        }
      }
    }
  }
}
