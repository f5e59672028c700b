/**
 The address policy: which hosts the built-in HTTP service may fetch from.
 Addresses are 32-bit words; JavaScript's bitwise operators followed by `>>> 0`
 are the operators of bv32, and a sum reduced at the end by `>>> 0` is reduced at every step here.
 */
module UrlPolicy {
  import opened Options
  import opened Strings

  type Word = bv32

  datatype UrlCheck = Allowed | Refused(reason: string)

  // ----- IPv4 -----

  datatype Block = Block(network: Word, mask: Word, reason: string)

  function AppendOctet(acc: Word, octet: Word): Word { acc * 256 + octet }

  function Ipv4FromOctets(octets: seq<Word>): Word {
    if octets == [] then 0 else AppendOctet(Ipv4FromOctets(octets[..|octets| - 1]), octets[|octets| - 1])
  }

  function Mask(prefix: nat): Word
    requires 1 <= prefix <= 32
  {
    0xffff_ffff << (32 - prefix)
  }

  function Cidr(a: Word, b: Word, c: Word, d: Word, prefix: nat, reason: string): Block
    requires 1 <= prefix <= 32
  {
    var mask := Mask(prefix);
    Block((((a * 256 + b) * 256 + c) * 256 + d) & mask, mask, reason)
  }

  const IPV4_BLOCKED := [
    Cidr(0, 0, 0, 0, 8, "host is an unspecified address"),
    Cidr(127, 0, 0, 0, 8, "host is a loopback address"),
    Cidr(10, 0, 0, 0, 8, "host is a private address"),
    Cidr(172, 16, 0, 0, 12, "host is a private address"),
    Cidr(192, 168, 0, 0, 16, "host is a private address"),
    Cidr(100, 64, 0, 0, 10, "host is a private address"),
    Cidr(168, 63, 129, 16, 32, "host is a private address"),
    Cidr(192, 0, 0, 0, 24, "host is a reserved address"),
    Cidr(169, 254, 0, 0, 16, "host is a link-local address"),
    Cidr(224, 0, 0, 0, 4, "host is a multicast address"),
    Cidr(240, 0, 0, 0, 4, "host is a reserved address")
  ]

  predicate InBlock(address: Word, b: Block) { (address & b.mask) == b.network }

  function FirstBlock(address: Word, blocks: seq<Block>): UrlCheck {
    if blocks == [] then Allowed
    else if InBlock(address, blocks[0]) then Refused(blocks[0].reason)
    else FirstBlock(address, blocks[1..])
  }

  function CheckIpv4(address: Word): UrlCheck { FirstBlock(address, IPV4_BLOCKED) }

  /** The eleven refused ranges, as the first and last address of each. */
  const IPV4_RANGES: seq<(Word, Word)> := [
    (0x0000_0000, 0x00ff_ffff),
    (0x7f00_0000, 0x7fff_ffff),
    (0x0a00_0000, 0x0aff_ffff),
    (0xac10_0000, 0xac1f_ffff),
    (0xc0a8_0000, 0xc0a8_ffff),
    (0x6440_0000, 0x647f_ffff),
    (0xa83f_8110, 0xa83f_8110),
    (0xc000_0000, 0xc000_00ff),
    (0xa9fe_0000, 0xa9fe_ffff),
    (0xe000_0000, 0xefff_ffff),
    (0xf000_0000, 0xffff_ffff)
  ]

  predicate InRange(address: Word, range: (Word, Word)) { range.0 <= address <= range.1 }

  /** The blocks as the CIDR notation spells them out. */
  lemma BlockValues()
    ensures IPV4_BLOCKED[0].network == 0x0000_0000 && IPV4_BLOCKED[0].mask == 0xff00_0000
    ensures IPV4_BLOCKED[1].network == 0x7f00_0000 && IPV4_BLOCKED[1].mask == 0xff00_0000
    ensures IPV4_BLOCKED[2].network == 0x0a00_0000 && IPV4_BLOCKED[2].mask == 0xff00_0000
    ensures IPV4_BLOCKED[3].network == 0xac10_0000 && IPV4_BLOCKED[3].mask == 0xfff0_0000
    ensures IPV4_BLOCKED[4].network == 0xc0a8_0000 && IPV4_BLOCKED[4].mask == 0xffff_0000
    ensures IPV4_BLOCKED[5].network == 0x6440_0000 && IPV4_BLOCKED[5].mask == 0xffc0_0000
    ensures IPV4_BLOCKED[6].network == 0xa83f_8110 && IPV4_BLOCKED[6].mask == 0xffff_ffff
    ensures IPV4_BLOCKED[7].network == 0xc000_0000 && IPV4_BLOCKED[7].mask == 0xffff_ff00
    ensures IPV4_BLOCKED[8].network == 0xa9fe_0000 && IPV4_BLOCKED[8].mask == 0xffff_0000
    ensures IPV4_BLOCKED[9].network == 0xe000_0000 && IPV4_BLOCKED[9].mask == 0xf000_0000
    ensures IPV4_BLOCKED[10].network == 0xf000_0000 && IPV4_BLOCKED[10].mask == 0xf000_0000
  {
  }

  lemma MaskedPrefixes(address: Word)
    ensures (address & 0xff00_0000) == 0x0000_0000 <==> 0x0000_0000 <= address <= 0x00ff_ffff
    ensures (address & 0xff00_0000) == 0x7f00_0000 <==> 0x7f00_0000 <= address <= 0x7fff_ffff
    ensures (address & 0xff00_0000) == 0x0a00_0000 <==> 0x0a00_0000 <= address <= 0x0aff_ffff
    ensures (address & 0xfff0_0000) == 0xac10_0000 <==> 0xac10_0000 <= address <= 0xac1f_ffff
    ensures (address & 0xffff_0000) == 0xc0a8_0000 <==> 0xc0a8_0000 <= address <= 0xc0a8_ffff
    ensures (address & 0xffc0_0000) == 0x6440_0000 <==> 0x6440_0000 <= address <= 0x647f_ffff
    ensures (address & 0xffff_ffff) == 0xa83f_8110 <==> address == 0xa83f_8110
    ensures (address & 0xffff_ff00) == 0xc000_0000 <==> 0xc000_0000 <= address <= 0xc000_00ff
    ensures (address & 0xffff_0000) == 0xa9fe_0000 <==> 0xa9fe_0000 <= address <= 0xa9fe_ffff
    ensures (address & 0xf000_0000) == 0xe000_0000 <==> 0xe000_0000 <= address <= 0xefff_ffff
    ensures (address & 0xf000_0000) == 0xf000_0000 <==> 0xf000_0000 <= address <= 0xffff_ffff
  {
  }

  lemma BlockIsRange(address: Word, k: nat)
    requires k < 11
    ensures InBlock(address, IPV4_BLOCKED[k]) <==> InRange(address, IPV4_RANGES[k])
  {
    BlockValues();
    MaskedPrefixes(address);
    hide IPV4_BLOCKED;
    if
    case k == 0 => assert IPV4_RANGES[k] == (0x0000_0000, 0x00ff_ffff);
    case k == 1 => assert IPV4_RANGES[k] == (0x7f00_0000, 0x7fff_ffff);
    case k == 2 => assert IPV4_RANGES[k] == (0x0a00_0000, 0x0aff_ffff);
    case k == 3 => assert IPV4_RANGES[k] == (0xac10_0000, 0xac1f_ffff);
    case k == 4 => assert IPV4_RANGES[k] == (0xc0a8_0000, 0xc0a8_ffff);
    case k == 5 => assert IPV4_RANGES[k] == (0x6440_0000, 0x647f_ffff);
    case k == 6 => assert IPV4_RANGES[k] == (0xa83f_8110, 0xa83f_8110);
    case k == 7 => assert IPV4_RANGES[k] == (0xc000_0000, 0xc000_00ff);
    case k == 8 => assert IPV4_RANGES[k] == (0xa9fe_0000, 0xa9fe_ffff);
    case k == 9 => assert IPV4_RANGES[k] == (0xe000_0000, 0xefff_ffff);
    case k == 10 => assert IPV4_RANGES[k] == (0xf000_0000, 0xffff_ffff);
  }

  lemma {:induction false} FirstBlockRefuses(address: Word, blocks: seq<Block>)
    ensures FirstBlock(address, blocks).Refused? <==> exists k :: 0 <= k < |blocks| && InBlock(address, blocks[k])
    ensures FirstBlock(address, blocks).Refused? ==>
              exists k :: 0 <= k < |blocks| && InBlock(address, blocks[k]) && FirstBlock(address, blocks).reason == blocks[k].reason
                          && forall m :: 0 <= m < k ==> !InBlock(address, blocks[m])
  {
    if blocks != [] {
      FirstBlockRefuses(address, blocks[1..]);
      if InBlock(address, blocks[0]) {
      } else if FirstBlock(address, blocks[1..]).Refused? {
        var k :| 0 <= k < |blocks[1..]| && InBlock(address, blocks[1..][k]) && FirstBlock(address, blocks[1..]).reason == blocks[1..][k].reason
                          && forall m :: 0 <= m < k ==> !InBlock(address, blocks[1..][m]);
        assert blocks[k + 1] == blocks[1..][k];
        assert forall m :: 0 < m < k + 1 ==> blocks[m] == blocks[1..][m - 1];
      } else {
        forall k | 0 <= k < |blocks| ensures !InBlock(address, blocks[k]) {
          if k > 0 { assert blocks[k] == blocks[1..][k - 1]; }
        }
      }
    }
  }

  /** The mask test refuses an address iff it lies in one of the eleven ranges. */
  lemma MaskTestIsRangeTest(address: Word)
    ensures CheckIpv4(address).Refused? <==> exists k :: 0 <= k < |IPV4_RANGES| && InRange(address, IPV4_RANGES[k])
  {
    FirstBlockRefuses(address, IPV4_BLOCKED);
    forall k | 0 <= k < 11 ensures InBlock(address, IPV4_BLOCKED[k]) <==> InRange(address, IPV4_RANGES[k]) {
      BlockIsRange(address, k);
    }
    hide InBlock, InRange, FirstBlock;
  }

  // ----- IPv6 -----

  predicate ZerosUpTo(groups: seq<Word>, end: nat)
    requires end <= |groups|
  {
    forall k :: 0 <= k < end ==> groups[k] == 0
  }

  function Embedded(high: Word, low: Word): Word { (high << 16) | low }

  function CheckIpv6Groups(groups: seq<Word>): UrlCheck
    requires |groups| == 8
  {
    if ZerosUpTo(groups, 8) then Refused("host is an unspecified address")
    else if ZerosUpTo(groups, 7) && groups[7] == 1 then Refused("host is a loopback address")
    else
      var nat64 := groups[0] == 0x0064 && groups[1] == 0xff9b;
      var mapped := ZerosUpTo(groups, 5) && (groups[5] == 0xffff || groups[5] == 0);
      if mapped || (nat64 && groups[2] == 0 && groups[3] == 0 && groups[4] == 0 && groups[5] == 0) then
        CheckIpv4(Embedded(groups[6], groups[7]))
      else if groups[0] == 0x2002 then CheckIpv4(Embedded(groups[1], groups[2]))
      else if (nat64 && groups[2] == 1) || (groups[0] & 0xfe00) == 0xfc00 || (groups[0] & 0xffc0) == 0xfec0 then
        Refused("host is a private address")
      else if (groups[0] & 0xffc0) == 0xfe80 then Refused("host is a link-local address")
      else if (groups[0] & 0xff00) == 0xff00 then Refused("host is a multicast address")
      else Allowed
  }

  /** The forms that embed an IPv4 address, which is judged in their place. */
  ghost predicate EmbedsIpv4(groups: seq<Word>)
    requires |groups| == 8
  {
    || (ZerosUpTo(groups, 5) && (groups[5] == 0xffff || groups[5] == 0))
    || (groups[0] == 0x0064 && groups[1] == 0xff9b && forall k :: 2 <= k < 6 ==> groups[k] == 0)
    || groups[0] == 0x2002
  }

  lemma Ipv6Masks(g: Word)
    requires g < 0x1_0000
    ensures (g & 0xfe00) == 0xfc00 <==> 0xfc00 <= g <= 0xfdff
    ensures (g & 0xffc0) == 0xfec0 <==> 0xfec0 <= g <= 0xfeff
    ensures (g & 0xffc0) == 0xfe80 <==> 0xfe80 <= g <= 0xfebf
    ensures (g & 0xff00) == 0xff00 <==> 0xff00 <= g <= 0xffff
  {
  }

  /**
   Any other IPv6 address is refused iff it is unique local, link-local,
   site-local, multicast, or local-use NAT64: from fc00 to fdff, or from fe80 up, or 64:ff9b:1.
   */
  lemma OtherIpv6Verdict(groups: seq<Word>)
    requires |groups| == 8 && groups[0] < 0x1_0000 && !EmbedsIpv4(groups)
    ensures CheckIpv6Groups(groups).Refused? <==>
            || 0xfc00 <= groups[0] <= 0xfdff
            || 0xfe80 <= groups[0] <= 0xffff
            || (groups[0] == 0x64 && groups[1] == 0xff9b && groups[2] == 1)
  {
    Ipv6Masks(groups[0]);
    hide CheckIpv4;
    assert !ZerosUpTo(groups, 7) && !ZerosUpTo(groups, 8);
  }

  function High(address: Word): Word { address >> 16 }
  function Low(address: Word): Word { address & 0xffff }

  lemma HalvesRejoin(address: Word)
    ensures Embedded(High(address), Low(address)) == address
    ensures High(address) < 0x1_0000 && Low(address) < 0x1_0000
    ensures address == 0 <==> High(address) == 0 && Low(address) == 0
  {
  }

  function Ipv4Mapped(address: Word): seq<Word> { [0, 0, 0, 0, 0, 0xffff, High(address), Low(address)] }
  function Ipv4Compatible(address: Word): seq<Word> { [0, 0, 0, 0, 0, 0, High(address), Low(address)] }
  function Nat64(address: Word): seq<Word> { [0x64, 0xff9b, 0, 0, 0, 0, High(address), Low(address)] }
  function SixToFour(address: Word, rest: seq<Word>): seq<Word>
    requires |rest| == 5
  {
    [0x2002, High(address), Low(address)] + rest
  }

  lemma CompatibleAgrees(address: Word)
    ensures CheckIpv6Groups(Ipv4Compatible(address)).Allowed? <==> CheckIpv4(address).Allowed?
  {
    HalvesRejoin(address);
    ZeroAndOneRefused();
    if High(address) == 0 && Low(address) == 1 {
      assert address == 1;
    }
    hide CheckIpv4, Embedded, High, Low;
    var c := Ipv4Compatible(address);
    assert c[5] == 0 && c[6] == High(address) && c[7] == Low(address);
    assert ZerosUpTo(c, 5);
    assert ZerosUpTo(c, 7) <==> High(address) == 0;
    assert ZerosUpTo(c, 8) <==> High(address) == 0 && Low(address) == 0;
  }

  lemma MappedAgrees(address: Word)
    ensures CheckIpv6Groups(Ipv4Mapped(address)) == CheckIpv4(address)
  {
    HalvesRejoin(address);
    hide CheckIpv4, Embedded, High, Low;
    assert Ipv4Mapped(address)[5] != 0;
  }

  lemma Nat64Agrees(address: Word)
    ensures CheckIpv6Groups(Nat64(address)) == CheckIpv4(address)
  {
    HalvesRejoin(address);
    hide CheckIpv4, Embedded, High, Low;
    assert Nat64(address)[0] != 0;
  }

  lemma SixToFourAgrees(address: Word, rest: seq<Word>)
    requires |rest| == 5
    ensures CheckIpv6Groups(SixToFour(address, rest)) == CheckIpv4(address)
  {
    HalvesRejoin(address);
    hide CheckIpv4, Embedded, High, Low;
    assert SixToFour(address, rest)[0] == 0x2002;
    assert SixToFour(address, rest)[1] == High(address) && SixToFour(address, rest)[2] == Low(address);
  }

  /** An IPv4 address is allowed or refused alike in its own form and in each form that embeds it. */
  lemma EmbeddedFormsAgree(address: Word, rest: seq<Word>)
    requires |rest| == 5
    ensures CheckIpv6Groups(Ipv4Mapped(address)).Allowed? <==> CheckIpv4(address).Allowed?
    ensures CheckIpv6Groups(Ipv4Compatible(address)).Allowed? <==> CheckIpv4(address).Allowed?
    ensures CheckIpv6Groups(Nat64(address)).Allowed? <==> CheckIpv4(address).Allowed?
    ensures CheckIpv6Groups(SixToFour(address, rest)).Allowed? <==> CheckIpv4(address).Allowed?
  {
    hide *;
    MappedAgrees(address);
    CompatibleAgrees(address);
    Nat64Agrees(address);
    SixToFourAgrees(address, rest);
  }

  lemma ZeroAndOneRefused()
    ensures CheckIpv4(0).Refused? && CheckIpv4(1).Refused?
  {
    MaskTestIsRangeTest(0);
    MaskTestIsRangeTest(1);
    assert InRange(0, IPV4_RANGES[0]) && InRange(1, IPV4_RANGES[0]);
    hide CheckIpv4;
  }

  // ----- digits -----

  function DigitChar(d: Word): char
    requires d < 16
  {
    if d == 0 then '0' else if d == 1 then '1' else if d == 2 then '2' else if d == 3 then '3'
    else if d == 4 then '4' else if d == 5 then '5' else if d == 6 then '6' else if d == 7 then '7'
    else if d == 8 then '8' else if d == 9 then '9' else if d == 10 then 'a' else if d == 11 then 'b'
    else if d == 12 then 'c' else if d == 13 then 'd' else if d == 14 then 'e' else 'f'
  }

  /** The value of a digit; the URL parser has already seen to it that nothing else appears. */
  function DigitValue(c: char): Word {
    if c == '0' then 0 else if c == '1' then 1 else if c == '2' then 2 else if c == '3' then 3
    else if c == '4' then 4 else if c == '5' then 5 else if c == '6' then 6 else if c == '7' then 7
    else if c == '8' then 8 else if c == '9' then 9
    else if c == 'a' || c == 'A' then 10 else if c == 'b' || c == 'B' then 11 else if c == 'c' || c == 'C' then 12
    else if c == 'd' || c == 'D' then 13 else if c == 'e' || c == 'E' then 14 else 15
  }

  function AppendHex(acc: Word, digit: Word): Word { acc * 16 + digit }

  function ParseHex(s: string): Word {
    if s == "" then 0 else AppendHex(ParseHex(s[..|s| - 1]), DigitValue(s[|s| - 1]))
  }

  function AppendDecimal(acc: Word, digit: Word): Word { acc * 10 + digit }

  function ParseDecimal(s: string): Word {
    if s == "" then 0 else AppendDecimal(ParseDecimal(s[..|s| - 1]), DigitValue(s[|s| - 1]))
  }

  lemma DigitRoundTrip(d: Word)
    requires d < 16
    ensures DigitValue(DigitChar(d)) == d
    ensures DigitChar(d) != ':' && DigitChar(d) != '.'
    ensures d < 10 ==> IsDigit(DigitChar(d))
  {
  }

  lemma ParseStep(s: string, c: char)
    ensures ParseHex(s + [c]) == AppendHex(ParseHex(s), DigitValue(c))
    ensures ParseDecimal(s + [c]) == AppendDecimal(ParseDecimal(s), DigitValue(c))
  {
    hide DigitValue, AppendHex, AppendDecimal;
    assert (s + [c])[..|s|] == s;
  }

  // ----- IPv6 text -----

  /** The parts between double colons, read from the left. */
  function SplitDoubleColon(s: string): (parts: seq<string>)
    ensures parts != []
  {
    if |s| < 2 then [s]
    else if s[0] == ':' && s[1] == ':' then [""] + SplitDoubleColon(s[2..])
    else
      var rest := SplitDoubleColon(s[1..]);
      [[s[0]] + rest[0]] + rest[1..]
  }

  function GroupsOf(part: string): seq<string> { if part == "" then [] else Split(part, ':') }

  function Words(groups: seq<string>): (r: seq<Word>)
    ensures |r| == |groups| && forall k :: 0 <= k < |r| ==> r[k] == ParseHex(groups[k])
  {
    seq(|groups|, k requires 0 <= k < |groups| => ParseHex(groups[k]))
  }

  function ZeroGroups(n: nat): (r: seq<string>)
    ensures |r| == n && forall k :: 0 <= k < n ==> r[k] == "0"
  {
    seq(n, _ => "0")
  }

  /** The eight groups, or nothing when there are too many to fill up to eight (the array constructor throws). */
  function ExpandIpv6(literal: string): (r: Option<seq<Word>>)
    ensures r.Some? ==> |r.value| == 8
  {
    var parts := SplitDoubleColon(literal);
    var head, tail := GroupsOf(parts[0]), GroupsOf(if |parts| > 1 then parts[1] else "");
    if |head| + |tail| > 8 then None
    else Some(Words(head + ZeroGroups(8 - |head| - |tail|) + tail))
  }

  /** A group in lowercase hexadecimal without leading zeros (section 4 of RFC 5952). */
  function PrintGroup(g: Word): string
    requires g < 0x1_0000
  {
    if g < 0x10 then [DigitChar(g)]
    else if g < 0x100 then [DigitChar(g >> 4), DigitChar(g & 0xf)]
    else if g < 0x1000 then [DigitChar(g >> 8), DigitChar((g >> 4) & 0xf), DigitChar(g & 0xf)]
    else [DigitChar(g >> 12), DigitChar((g >> 8) & 0xf), DigitChar((g >> 4) & 0xf), DigitChar(g & 0xf)]
  }

  ghost predicate Groups16(groups: seq<Word>) {
    forall k :: 0 <= k < |groups| ==> groups[k] < 0x1_0000
  }

  function PrintAll(groups: seq<Word>): (r: seq<string>)
    requires Groups16(groups)
    ensures |r| == |groups| && forall k :: 0 <= k < |r| ==> r[k] == PrintGroup(groups[k])
  {
    seq(|groups|, k requires 0 <= k < |groups| => PrintGroup(groups[k]))
  }

  /** All eight groups written out. */
  function PrintPlain(groups: seq<Word>): string
    requires Groups16(groups)
  {
    Join(PrintAll(groups), ':')
  }

  /** The groups with positions `i` to `j` elided as a double colon. */
  function PrintElided(groups: seq<Word>, i: nat, j: nat): string
    requires Groups16(groups) && i <= j <= |groups|
  {
    PrintPlain(groups[..i]) + "::" + PrintPlain(groups[j..])
  }

  lemma HexDigitsRejoin(g: Word)
    requires g < 0x1_0000
    ensures AppendHex(AppendHex(AppendHex(AppendHex(0, g >> 12), (g >> 8) & 0xf), (g >> 4) & 0xf), g & 0xf) == g
    ensures AppendHex(0, 0) == 0
    ensures g < 0x1000 ==> g >> 12 == 0 && (g >> 8) & 0xf == g >> 8
    ensures g < 0x100 ==> (g >> 8) & 0xf == 0 && (g >> 4) & 0xf == g >> 4
    ensures g < 0x10 ==> (g >> 4) & 0xf == 0 && g & 0xf == g
  {
  }

  lemma ParsePrinted(g: Word)
    requires g < 0x1_0000
    ensures ParseHex(PrintGroup(g)) == g
    ensures PrintGroup(g) != "" && ':' !in PrintGroup(g)
  {
    var a, b, c, d := g >> 12, (g >> 8) & 0xf, (g >> 4) & 0xf, g & 0xf;
    DigitRoundTrip(a);
    DigitRoundTrip(b);
    DigitRoundTrip(c);
    DigitRoundTrip(d);
    HexDigitsRejoin(g);
    var A, B, C, D := DigitChar(a), DigitChar(b), DigitChar(c), DigitChar(d);
    hide DigitChar, DigitValue, AppendHex, ParseHex;
    FourDigits(A, B, C, D);
  }

  lemma EmptyParse()
    ensures ParseHex("") == 0 && ParseDecimal("") == 0
  {
  }

  /** The value of one to four hexadecimal digits. */
  lemma FourDigits(a: char, b: char, c: char, d: char)
    ensures ParseHex([d]) == AppendHex(0, DigitValue(d))
    ensures ParseHex([c, d]) == AppendHex(AppendHex(0, DigitValue(c)), DigitValue(d))
    ensures ParseHex([b, c, d]) == AppendHex(AppendHex(AppendHex(0, DigitValue(b)), DigitValue(c)), DigitValue(d))
    ensures ParseHex([a, b, c, d]) ==
            AppendHex(AppendHex(AppendHex(AppendHex(0, DigitValue(a)), DigitValue(b)), DigitValue(c)), DigitValue(d))
  {
    EmptyParse();
    hide *;
    ParseStep("", d);
    ParseStep("", c);
    ParseStep("", b);
    ParseStep("", a);
    ParseStep([c], d);
    ParseStep([b], c);
    ParseStep([b, c], d);
    ParseStep([a], b);
    ParseStep([a, b], c);
    ParseStep([a, b, c], d);
    assert "" + [a] == [a] && "" + [b] == [b] && "" + [c] == [c] && "" + [d] == [d];
    assert [c] + [d] == [c, d] && [b] + [c] == [b, c] && [b, c] + [d] == [b, c, d];
    assert [a] + [b] == [a, b] && [a, b] + [c] == [a, b, c] && [a, b, c] + [d] == [a, b, c, d];
  }

  /** No two colons side by side, and none at the end. */
  ghost predicate Single(s: string) {
    && (s != "" ==> s[|s| - 1] != ':')
    && forall k :: 0 <= k < |s| - 1 ==> !(s[k] == ':' && s[k + 1] == ':')
  }

  lemma {:induction false} SplitSingle(s: string)
    requires Single(s)
    ensures SplitDoubleColon(s) == [s]
  {
    if |s| >= 2 {
      SplitSingle(s[1..]);
      assert s == [s[0]] + s[1..];
    }
  }

  lemma {:induction false} SplitAtDouble(head: string, tail: string)
    requires Single(head)
    ensures SplitDoubleColon(head + "::" + tail) == [head] + SplitDoubleColon(tail)
  {
    var s := head + "::" + tail;
    if head == "" {
      assert s[2..] == tail;
    } else {
      assert s[1..] == head[1..] + "::" + tail;
      SplitAtDouble(head[1..], tail);
      assert s[0] == head[0] && (|head| > 1 ==> s[1] == head[1]);
      assert head == [head[0]] + head[1..];
      assert ([head[1..]] + SplitDoubleColon(tail))[1..] == SplitDoubleColon(tail);
    }
  }

  lemma {:induction false} PrintedSingle(groups: seq<Word>)
    requires Groups16(groups)
    ensures Single(PrintPlain(groups))
    ensures PrintPlain(groups) == "" <==> groups == []
  {
    if groups != [] {
      ParsePrinted(groups[0]);
      var first := PrintGroup(groups[0]);
      hide PrintGroup;
      if |groups| > 1 {
        PrintedSingle(groups[1..]);
        var rest := PrintPlain(groups[1..]);
        assert PrintAll(groups)[1..] == PrintAll(groups[1..]);
        assert PrintPlain(groups) == first + ":" + rest;
        ParsePrinted(groups[1]);
        PrintedFirst(groups[1..]);
        hide PrintPlain;
        forall k | 0 <= k < |first + ":" + rest| - 1
          ensures !((first + ":" + rest)[k] == ':' && (first + ":" + rest)[k + 1] == ':')
        {
          if k < |first| {
            assert (first + ":" + rest)[k] == first[k];
            assert first[k] in first;
          } else if k > |first| {
            assert (first + ":" + rest)[k] == rest[k - |first| - 1] && (first + ":" + rest)[k + 1] == rest[k - |first|];
          }
        }
      } else {
        assert PrintPlain(groups) == first;
      }
    }
  }

  lemma PrintedFirst(groups: seq<Word>)
    requires Groups16(groups) && groups != []
    ensures PrintPlain(groups) != "" && PrintPlain(groups)[0] != ':'
  {
    ParsePrinted(groups[0]);
    var first := PrintGroup(groups[0]);
    assert first[0] in first;
    assert PrintPlain(groups)[0] == first[0];
  }

  lemma GroupsOfPrinted(groups: seq<Word>)
    requires Groups16(groups)
    ensures GroupsOf(PrintPlain(groups)) == PrintAll(groups)
  {
    PrintedSingle(groups);
    if groups != [] {
      forall p | p in PrintAll(groups) ensures ':' !in p {
        var k :| 0 <= k < |groups| && PrintAll(groups)[k] == p;
        ParsePrinted(groups[k]);
      }
      SplitJoin(PrintAll(groups), ':');
    }
  }

  lemma WordsOfPrinted(groups: seq<Word>)
    requires Groups16(groups)
    ensures Words(PrintAll(groups)) == groups
  {
    forall k | 0 <= k < |groups| ensures Words(PrintAll(groups))[k] == groups[k] {
      ParsePrinted(groups[k]);
    }
  }

  lemma WordsConcat(a: seq<string>, b: seq<string>, c: seq<string>)
    ensures Words(a + b + c) == Words(a) + Words(b) + Words(c)
  {
    hide ParseHex;
  }

  /** Expanding a fully written address gives back its groups. */
  lemma ExpandPlain(groups: seq<Word>)
    requires |groups| == 8 && Groups16(groups)
    ensures ExpandIpv6(PrintPlain(groups)) == Some(groups)
  {
    PrintedSingle(groups);
    SplitSingle(PrintPlain(groups));
    GroupsOfPrinted(groups);
    WordsOfPrinted(groups);
    hide PrintPlain, SplitDoubleColon, Words, GroupsOf;
    assert GroupsOf("") == [] by { EmptyGroups(); }
    assert PrintAll(groups) + ZeroGroups(0) + [] == PrintAll(groups);
  }

  lemma EmptyGroups()
    ensures GroupsOf("") == []
  {
  }

  lemma ExpandParts(literal: string, h: string, t: string)
    requires SplitDoubleColon(literal) == [h, t] && |GroupsOf(h)| + |GroupsOf(t)| <= 8
    ensures ExpandIpv6(literal) ==
            Some(Words(GroupsOf(h) + ZeroGroups(8 - |GroupsOf(h)| - |GroupsOf(t)|) + GroupsOf(t)))
  {
    hide GroupsOf, SplitDoubleColon;
  }

  lemma WordsOfZeros(n: nat, k: nat)
    requires k < n
    ensures Words(ZeroGroups(n))[k] == 0
  {
    ZeroGroup();
  }

  lemma FillWords(groups: seq<Word>, i: nat, j: nat)
    requires Groups16(groups) && i <= j <= |groups|
    requires forall k :: i <= k < j ==> groups[k] == 0
    ensures Words(PrintAll(groups[..i]) + ZeroGroups(j - i) + PrintAll(groups[j..])) == groups
  {
    WordsOfPrinted(groups[..i]);
    WordsOfPrinted(groups[j..]);
    WordsConcat(PrintAll(groups[..i]), ZeroGroups(j - i), PrintAll(groups[j..]));
    forall k | 0 <= k < j - i ensures Words(ZeroGroups(j - i))[k] == groups[i..j][k] {
      WordsOfZeros(j - i, k);
    }
    hide ParseHex, PrintGroup, Groups16;
    assert Words(ZeroGroups(j - i)) == groups[i..j];
    assert groups[..i] + groups[i..j] + groups[j..] == groups;
  }

  /**
   Expanding an address written with any run of zero groups elided, leading,
   trailing, in the middle, or the whole address, gives back its groups.
   */
  lemma ExpandElided(groups: seq<Word>, i: nat, j: nat)
    requires |groups| == 8 && Groups16(groups) && i <= j <= 8
    requires forall k :: i <= k < j ==> groups[k] == 0
    ensures ExpandIpv6(PrintElided(groups, i, j)) == Some(groups)
  {
    var head, tail := groups[..i], groups[j..];
    var h, t := PrintPlain(head), PrintPlain(tail);
    assert PrintElided(groups, i, j) == h + "::" + t;
    PrintedSingle(head);
    PrintedSingle(tail);
    FillWords(groups, i, j);
    GroupsOfPrinted(head);
    GroupsOfPrinted(tail);
    hide *;
    SplitAtDouble(h, t);
    SplitSingle(t);
    assert [h] + [t] == [h, t];
    ExpandParts(h + "::" + t, h, t);
  }

  lemma ZeroGroup()
    ensures ParseHex("0") == 0
  {
    FourDigits('0', '0', '0', '0');
    hide ParseHex;
  }

  // ----- hosts and URLs -----

  datatype Url = Url(protocol: string, hostname: string)

  function LowerChar(c: char): char {
    if 'A' <= c <= 'Z' then ((c as int) + 32) as char else c
  }

  function ToLower(s: string): (r: string)
    ensures |r| == |s| && forall k :: 0 <= k < |s| ==> r[k] == LowerChar(s[k])
  {
    seq(|s|, k requires 0 <= k < |s| => LowerChar(s[k]))
  }

  function WithoutTrailingDot(s: string): string {
    if s != "" && s[|s| - 1] == '.' then s[..|s| - 1] else s
  }

  predicate EndsWith(s: string, suffix: string) {
    |suffix| <= |s| && s[|s| - |suffix|..] == suffix
  }

  /** Four runs of one to three digits. */
  predicate IsIpv4Literal(host: string) {
    var parts := Split(host, '.');
    |parts| == 4 && forall k :: 0 <= k < 4 ==> 1 <= |parts[k]| <= 3 && forall c :: c in parts[k] ==> IsDigit(c)
  }

  function Octets(parts: seq<string>): (r: seq<Word>)
    ensures |r| == |parts| && forall k :: 0 <= k < |r| ==> r[k] == ParseDecimal(parts[k])
  {
    seq(|parts|, k requires 0 <= k < |parts| => ParseDecimal(parts[k]))
  }

  function Ipv4ToInt(dotted: string): Word { Ipv4FromOctets(Octets(Split(dotted, '.'))) }

  /** The verdict on an IPv6 literal; too many groups make the expansion throw, and a throw fetches nothing. */
  function CheckIpv6(literal: string): UrlCheck {
    match ExpandIpv6(literal)
    case None => Refused("invalid array length")
    case Some(groups) => CheckIpv6Groups(groups)
  }

  function CheckHost(hostname: string): UrlCheck {
    var host := WithoutTrailingDot(ToLower(hostname));
    if host == "localhost" || EndsWith(host, ".localhost") then Refused("host is localhost")
    else if IsIpv4Literal(host) then CheckIpv4(Ipv4ToInt(host))
    else if host != "" && host[0] == '[' then CheckIpv6(host[1..if |host| > 1 then |host| - 1 else 1])
    else Allowed
  }

  /** The policy on a parsed URL; None is a text the URL parser rejected. */
  function CheckUrl(parsed: Option<Url>, allowInsecure: bool): UrlCheck {
    if parsed.None? then Refused("not a valid URL")
    else if allowInsecure then
      if parsed.value.protocol == "https:" || parsed.value.protocol == "http:" then Allowed
      else Refused("scheme is not http or https")
    else if parsed.value.protocol != "https:" then Refused("scheme is not https")
    else CheckHost(parsed.value.hostname)
  }

  function FourOctets(a: Word, b: Word, c: Word, d: Word): Word {
    AppendOctet(AppendOctet(AppendOctet(AppendOctet(0, a), b), c), d)
  }

  lemma OctetsRejoin(a: Word, b: Word, c: Word, d: Word)
    ensures Ipv4FromOctets([a, b, c, d]) == FourOctets(a, b, c, d)
  {
    hide AppendOctet;
    assert [a, b, c, d][..3] == [a, b, c] && [a, b, c][..2] == [a, b] && [a, b][..1] == [a] && [a][..0] == [];
    assert Ipv4FromOctets([a]) == AppendOctet(0, a);
    assert Ipv4FromOctets([a, b]) == AppendOctet(AppendOctet(0, a), b);
    assert Ipv4FromOctets([a, b, c]) == AppendOctet(AppendOctet(AppendOctet(0, a), b), c);
  }

  lemma ShiftedOctets(a: Word, b: Word, c: Word, d: Word)
    requires a < 256 && b < 256 && c < 256 && d < 256
    ensures var x := FourOctets(a, b, c, d);
            x >> 24 == a && (x >> 16) & 0xff == b && (x >> 8) & 0xff == c && x & 0xff == d
  {
  }

  /** The integer of an address determines its octets, for octets up to 255. */
  lemma Ipv4Injective(x: seq<Word>, y: seq<Word>)
    requires |x| == |y| == 4 && (forall k :: 0 <= k < 4 ==> x[k] < 256 && y[k] < 256)
    ensures Ipv4FromOctets(x) == Ipv4FromOctets(y) <==> x == y
  {
    assert x == [x[0], x[1], x[2], x[3]] && y == [y[0], y[1], y[2], y[3]];
    OctetsRejoin(x[0], x[1], x[2], x[3]);
    OctetsRejoin(y[0], y[1], y[2], y[3]);
    ShiftedOctets(x[0], x[1], x[2], x[3]);
    ShiftedOctets(y[0], y[1], y[2], y[3]);
    hide Ipv4FromOctets, FourOctets;
  }

  /** An octet in decimal without leading zeros. */
  function PrintOctet(o: Word): string
    requires o < 256
  {
    if o < 10 then [DigitChar(o)]
    else if o < 100 then [DigitChar(o / 10), DigitChar(o % 10)]
    else [DigitChar(o / 100), DigitChar(o / 10 % 10), DigitChar(o % 10)]
  }

  function Octet(address: Word, shift: nat): (o: Word)
    requires shift <= 24
    ensures o < 256
  {
    (address >> shift) & 0xff
  }

  function AddressOctets(address: Word): (r: seq<Word>)
    ensures |r| == 4 && forall k :: 0 <= k < 4 ==> r[k] < 256
  {
    [Octet(address, 24), Octet(address, 16), Octet(address, 8), Octet(address, 0)]
  }

  function PrintOctets(octets: seq<Word>): (r: seq<string>)
    requires forall k :: 0 <= k < |octets| ==> octets[k] < 256
    ensures |r| == |octets| && forall k :: 0 <= k < |r| ==> r[k] == PrintOctet(octets[k])
  {
    seq(|octets|, k requires 0 <= k < |octets| => PrintOctet(octets[k]))
  }

  /** An address in dotted decimal, as the URL parser writes it. */
  function Dotted(address: Word): string { Join(PrintOctets(AddressOctets(address)), '.') }

  lemma DecimalRejoin(o: Word)
    requires o < 256
    ensures AppendDecimal(AppendDecimal(AppendDecimal(0, o / 100), o / 10 % 10), o % 10) == o
    ensures o < 100 ==> AppendDecimal(AppendDecimal(0, o / 10), o % 10) == o && o / 10 < 10
    ensures o < 10 ==> AppendDecimal(0, o) == o
    ensures o / 100 < 10 && o / 10 % 10 < 10 && o % 10 < 10
  {
  }

  lemma ThreeDigits(b: char, c: char, d: char)
    ensures ParseDecimal([d]) == AppendDecimal(0, DigitValue(d))
    ensures ParseDecimal([c, d]) == AppendDecimal(AppendDecimal(0, DigitValue(c)), DigitValue(d))
    ensures ParseDecimal([b, c, d]) == AppendDecimal(AppendDecimal(AppendDecimal(0, DigitValue(b)), DigitValue(c)), DigitValue(d))
  {
    EmptyParse();
    hide *;
    ParseStep("", d);
    ParseStep("", c);
    ParseStep("", b);
    ParseStep([c], d);
    ParseStep([b], c);
    ParseStep([b, c], d);
    assert "" + [b] == [b] && "" + [c] == [c] && "" + [d] == [d];
    assert [c] + [d] == [c, d] && [b] + [c] == [b, c] && [b, c] + [d] == [b, c, d];
  }

  lemma ParsePrintedOctet(o: Word)
    requires o < 256
    ensures ParseDecimal(PrintOctet(o)) == o
    ensures 1 <= |PrintOctet(o)| <= 3 && forall c :: c in PrintOctet(o) ==> IsDigit(c)
  {
    DecimalRejoin(o);
    if o < 10 {
      DigitRoundTrip(o);
      ThreeDigits('0', '0', DigitChar(o));
    } else if o < 100 {
      DigitRoundTrip(o / 10);
      DigitRoundTrip(o % 10);
      ThreeDigits('0', DigitChar(o / 10), DigitChar(o % 10));
    } else {
      DigitRoundTrip(o / 100);
      DigitRoundTrip(o / 10 % 10);
      DigitRoundTrip(o % 10);
      ThreeDigits(DigitChar(o / 100), DigitChar(o / 10 % 10), DigitChar(o % 10));
    }
    hide DigitChar, DigitValue, AppendDecimal, ParseDecimal;
  }

  lemma LastOctet(x: Word)
    ensures AppendOctet(x >> 8, x & 0xff) == x
  {
  }

  lemma OctetsAreShifts(address: Word)
    ensures Octet(address, 0) == address & 0xff
    ensures Octet(address, 8) == (address >> 8) & 0xff
    ensures Octet(address, 16) == ((address >> 8) >> 8) & 0xff
    ensures Octet(address, 24) == ((address >> 8) >> 8) >> 8
  {
  }

  lemma FirstOctet(x: Word)
    ensures AppendOctet(0, x) == x
  {
  }

  lemma OctetsOf(address: Word)
    ensures FourOctets(Octet(address, 24), Octet(address, 16), Octet(address, 8), Octet(address, 0)) == address
  {
    OctetsAreShifts(address);
    LastOctet(address);
    LastOctet(address >> 8);
    LastOctet((address >> 8) >> 8);
    FirstOctet(((address >> 8) >> 8) >> 8);
    hide AppendOctet, Octet;
  }

  /** Text that the host's normalisation leaves alone: nothing upper-case, no dot at the end. */
  ghost predicate Plain(s: string) {
    (forall c :: c in s ==> LowerChar(c) == c) && (s != "" ==> s[|s| - 1] != '.')
  }

  lemma PlainUnchanged(s: string)
    requires Plain(s)
    ensures WithoutTrailingDot(ToLower(s)) == s
  {
    assert ToLower(s) == s by {
      forall k | 0 <= k < |s| ensures ToLower(s)[k] == s[k] { assert s[k] in s; }
    }
  }

  /** What every character of a joined text is, and what its last character is. */
  lemma {:induction false} JoinChars(parts: seq<string>, sep: char)
    requires parts != [] && parts[|parts| - 1] != ""
    ensures forall c :: c in Join(parts, sep) ==> c == sep || exists p :: p in parts && c in p
    ensures var last := parts[|parts| - 1];
            Join(parts, sep) != "" && Join(parts, sep)[|Join(parts, sep)| - 1] == last[|last| - 1]
  {
    if |parts| > 1 {
      JoinChars(parts[1..], sep);
      assert Join(parts, sep) == parts[0] + [sep] + Join(parts[1..], sep);
      assert forall p :: p in parts[1..] ==> p in parts;
      assert parts[0] in parts;
    } else {
      assert parts[0] in parts;
    }
  }

  lemma SplitOctets(octets: seq<Word>)
    requires |octets| == 4 && forall k :: 0 <= k < 4 ==> octets[k] < 256
    ensures var text := Join(PrintOctets(octets), '.');
            Split(text, '.') == PrintOctets(octets) && Octets(PrintOctets(octets)) == octets && IsIpv4Literal(text)
  {
    var parts := PrintOctets(octets);
    forall k | 0 <= k < 4
      ensures ParseDecimal(parts[k]) == octets[k] && 1 <= |parts[k]| <= 3 && forall c :: c in parts[k] ==> IsDigit(c)
    {
      ParsePrintedOctet(octets[k]);
    }
    hide PrintOctet, ParseDecimal, Join;
    forall p | p in parts ensures '.' !in p {
      var k :| 0 <= k < 4 && parts[k] == p;
    }
    SplitJoin(parts, '.');
  }

  /** Text made of digits and dots that ends in a digit is plain, and no name of the local host. */
  lemma NumericHost(host: string)
    requires host != "" && IsDigit(host[|host| - 1]) && forall c :: c in host ==> c == '.' || IsDigit(c)
    ensures Plain(host) && host != "localhost" && !EndsWith(host, ".localhost")
  {
    assert ".localhost"[9] == 't' && "localhost"[8] == 't';
  }

  lemma JoinedDigits(parts: seq<string>)
    requires parts != [] && forall k :: 0 <= k < |parts| ==> parts[k] != "" && forall c :: c in parts[k] ==> IsDigit(c)
    ensures var host := Join(parts, '.');
            host != "" && IsDigit(host[|host| - 1]) && forall c :: c in host ==> c == '.' || IsDigit(c)
  {
    hide Join, IsDigit;
    var last := parts[|parts| - 1];
    assert last[|last| - 1] in last;
    JoinChars(parts, '.');
    forall c | c in Join(parts, '.') ensures c == '.' || IsDigit(c) {
      if p :| p in parts && c in p {
        var k :| 0 <= k < |parts| && parts[k] == p;
      }
    }
  }

  lemma DottedChars(address: Word)
    ensures var host := Dotted(address);
            host != "" && IsDigit(host[|host| - 1]) && forall c :: c in host ==> c == '.' || IsDigit(c)
  {
    var octets := AddressOctets(address);
    var parts := PrintOctets(octets);
    assert Dotted(address) == Join(parts, '.');
    hide AddressOctets, PrintOctet, Join, IsDigit;
    forall k | 0 <= k < 4 ensures parts[k] != "" && forall c :: c in parts[k] ==> IsDigit(c) {
      ParsePrintedOctet(octets[k]);
    }
    JoinedDigits(parts);
  }

  lemma DottedToInt(address: Word)
    ensures Ipv4ToInt(Dotted(address)) == address && IsIpv4Literal(Dotted(address))
  {
    var o := AddressOctets(address);
    OctetsOf(address);
    OctetsRejoin(o[0], o[1], o[2], o[3]);
    hide Octet;
    SplitOctets(o);
    hide Ipv4FromOctets, Octets, PrintOctets, IsIpv4Literal, FourOctets;
    assert o == [o[0], o[1], o[2], o[3]];
  }

  /** A dotted address is judged as the address it names. */
  lemma DottedVerdict(address: Word)
    ensures CheckHost(Dotted(address)) == CheckIpv4(address)
  {
    DottedToInt(address);
    DottedChars(address);
    NumericHost(Dotted(address));
    PlainUnchanged(Dotted(address));
    hide Dotted, Ipv4ToInt, IsIpv4Literal, CheckIpv4, Plain, EndsWith, WithoutTrailingDot;
  }

  lemma GroupLower(g: Word)
    requires g < 0x1_0000
    ensures forall c :: c in PrintGroup(g) ==> LowerChar(c) == c
  {
    forall d: Word | d < 16 ensures LowerChar(DigitChar(d)) == DigitChar(d) {
    }
    hide DigitChar, LowerChar;
    HexDigitsRejoin(g);
  }

  lemma PrintedPlain(groups: seq<Word>)
    requires Groups16(groups)
    ensures forall c :: c in PrintPlain(groups) ==> LowerChar(c) == c
  {
    if groups != [] {
      var parts := PrintAll(groups);
      ParsePrinted(groups[|groups| - 1]);
      JoinChars(parts, ':');
      hide PrintGroup, Join;
      forall p, c | p in parts && c in p ensures LowerChar(c) == c {
        var k :| 0 <= k < |groups| && parts[k] == p;
        GroupLower(groups[k]);
      }
    }
  }

  /** A bracketed literal is judged as the literal. */
  lemma BracketedVerdict(literal: string)
    requires forall c :: c in literal ==> LowerChar(c) == c
    ensures CheckHost("[" + literal + "]") == CheckIpv6(literal)
  {
    var host := "[" + literal + "]";
    PlainUnchanged(host);
    hide CheckIpv6, CheckIpv4;
    assert host[0] == '[' && host[1..|host| - 1] == literal;
    assert !EndsWith(host, ".localhost") && host != "localhost" by {
      assert ".localhost"[9] == 't' && "localhost"[8] == 't' && host[|host| - 1] == ']';
    }
    NotAnIpv4Literal(host);
  }

  lemma NotAnIpv4Literal(host: string)
    requires host != "" && host[0] == '['
    ensures !IsIpv4Literal(host)
  {
    assert Split(host, '.')[0][0] == '[';
    assert '[' in Split(host, '.')[0];
  }

  /** `groups` is one of the forms that embed the IPv4 address. */
  ghost predicate Embeds(groups: seq<Word>, address: Word) {
    || groups == Ipv4Mapped(address)
    || groups == Ipv4Compatible(address)
    || groups == Nat64(address)
    || exists rest :: |rest| == 5 && groups == SixToFour(address, rest)
  }

  lemma PlainVerdict(groups: seq<Word>)
    requires |groups| == 8 && Groups16(groups)
    ensures CheckHost("[" + PrintPlain(groups) + "]") == CheckIpv6Groups(groups)
  {
    ExpandPlain(groups);
    PrintedPlain(groups);
    hide CheckHost, CheckIpv6Groups, ExpandIpv6, PrintPlain;
    BracketedVerdict(PrintPlain(groups));
  }

  lemma ElidedIsLower(groups: seq<Word>, i: nat, j: nat)
    requires |groups| == 8 && Groups16(groups) && i <= j <= 8
    ensures forall c :: c in PrintElided(groups, i, j) ==> LowerChar(c) == c
  {
    PrintedPlain(groups[..i]);
    PrintedPlain(groups[j..]);
    hide PrintPlain, LowerChar;
    assert LowerChar(':') == ':' by { LowerColon(); }
  }

  lemma LowerColon()
    ensures LowerChar(':') == ':'
  {
  }

  lemma ElidedVerdict(groups: seq<Word>, i: nat, j: nat)
    requires |groups| == 8 && Groups16(groups)
    requires i <= j <= 8 && forall k :: i <= k < j ==> groups[k] == 0
    ensures CheckHost("[" + PrintElided(groups, i, j) + "]") == CheckIpv6Groups(groups)
  {
    ExpandElided(groups, i, j);
    ElidedIsLower(groups, i, j);
    BracketedVerdict(PrintElided(groups, i, j));
    hide CheckHost, CheckIpv6Groups, ExpandIpv6, PrintElided, LowerChar;
  }

  /**
   From host text to verdict: an IPv4 address and every IPv6 form that embeds it
   get the same answer, however the zero groups of the form are written.
   */
  lemma HostFormsAgree(address: Word, groups: seq<Word>, i: nat, j: nat)
    requires |groups| == 8 && Groups16(groups) && Embeds(groups, address)
    requires i <= j <= 8 && forall k :: i <= k < j ==> groups[k] == 0
    ensures CheckHost("[" + PrintElided(groups, i, j) + "]").Allowed? <==> CheckHost(Dotted(address)).Allowed?
    ensures CheckHost("[" + PrintPlain(groups) + "]").Allowed? <==> CheckHost(Dotted(address)).Allowed?
  {
    EmbedsAgree(groups, address);
    DottedVerdict(address);
    ElidedVerdict(groups, i, j);
    PlainVerdict(groups);
    hide *;
  }

  lemma EmbedsAgree(groups: seq<Word>, address: Word)
    requires |groups| == 8 && Embeds(groups, address)
    ensures CheckIpv6Groups(groups).Allowed? <==> CheckIpv4(address).Allowed?
  {
    var zeros: seq<Word> := [0, 0, 0, 0, 0];
    EmbeddedFormsAgree(address, zeros);
    hide CheckIpv6Groups, CheckIpv4;
    if rest :| |rest| == 5 && groups == SixToFour(address, rest) {
      EmbeddedFormsAgree(address, rest);
    }
  }
}
