/**
 JSON text of strings and arrays over UTF-16 code units, as JSON.stringify
 writes it: short escapes, \u escapes for other control characters and for lone
 surrogates, surrogate pairs as they are (section 7 of RFC 8259).
 */
module JsonText {

  /** A UTF-16 code unit. */
  type Unit = x: int | 0 <= x < 0x1_0000
  type Text = seq<Unit>

  const QUOTE: Unit := 0x22
  const BACKSLASH: Unit := 0x5C
  const COMMA: Unit := 0x2C
  const COLON: Unit := 0x3A
  const OPEN: Unit := 0x5B
  const CLOSE: Unit := 0x5D

  import opened Options

  datatype Json = JString(text: Text) | JArray(items: seq<Json>)

  predicate IsHigh(c: Unit) { 0xD800 <= c < 0xDC00 }
  predicate IsLow(c: Unit) { 0xDC00 <= c < 0xE000 }

  function HexDigit(d: int): Unit
    requires 0 <= d < 16
  {
    if d < 10 then 0x30 + d else 0x57 + d
  }

  function UnicodeEscape(c: Unit): Text {
    [BACKSLASH, 0x75, HexDigit(c / 16 / 16 / 16), HexDigit(c / 16 / 16 % 16), HexDigit(c / 16 % 16), HexDigit(c % 16)]
  }

  /** One code unit that is not the start of a surrogate pair. */
  function Escaped(c: Unit): (t: Text) {
    if c == 0x08 then [BACKSLASH, 0x62]
    else if c == 0x09 then [BACKSLASH, 0x74]
    else if c == 0x0A then [BACKSLASH, 0x6E]
    else if c == 0x0C then [BACKSLASH, 0x66]
    else if c == 0x0D then [BACKSLASH, 0x72]
    else if c == QUOTE then [BACKSLASH, QUOTE]
    else if c == BACKSLASH then [BACKSLASH, BACKSLASH]
    else if c < 0x20 || IsHigh(c) || IsLow(c) then UnicodeEscape(c)
    else [c]
  }

  predicate StartsWithPair(s: Text) {
    |s| >= 2 && IsHigh(s[0]) && IsLow(s[1])
  }

  /** How many units the text's next character takes: two for a surrogate pair. */
  function Width(s: Text): nat { if StartsWithPair(s) then 2 else 1 }

  /** What the text's next character is written as. */
  function Head(s: Text): Text
    requires s != []
  {
    if StartsWithPair(s) then [s[0], s[1]] else Escaped(s[0])
  }

  function Body(s: Text): Text {
    if s == [] then [] else Head(s) + Body(s[Width(s)..])
  }

  function Quoted(s: Text): Text { [QUOTE] + Body(s) + [QUOTE] }

  function Stringify(j: Json): Text
    decreases j, 1
  {
    match j
    case JString(s) => Quoted(s)
    case JArray(items) => [OPEN] + Elements(items) + [CLOSE]
  }

  function Elements(items: seq<Json>): Text
    decreases items, 0
  {
    if items == [] then []
    else if |items| == 1 then Stringify(items[0])
    else Stringify(items[0]) + [COMMA] + Elements(items[1..])
  }

  // ----- what is written, in the standard's characters -----

  ghost predicate InHex(c: Unit) { '0' as int <= c <= '9' as int || 'a' as int <= c <= 'f' as int }

  /** A code unit that is half of a pair, whichever half. */
  ghost predicate Surrogate(c: Unit) { c / 0x800 == 0x1B }

  /**
   A unit is written as itself unless it is a quotation mark, a reverse solidus, a control character or a surrogate;
   those are escaped: by one character where there is a short escape, otherwise by four hexadecimal digits in lower case.
   */
  lemma EscapedExactly(c: Unit)
    ensures Escaped(c) == [c] <==> c >= 0x20 && c != '"' as int && c != '\\' as int && !Surrogate(c)
    ensures Escaped(c) != [c] ==> |Escaped(c)| in {2, 6} && Escaped(c)[0] == '\\' as int
    ensures |Escaped(c)| == 2 <==> c in {0x08, 0x09, 0x0A, 0x0C, 0x0D, '"' as int, '\\' as int}
    ensures |Escaped(c)| == 6 ==> Escaped(c)[1] == 'u' as int && forall k :: 2 <= k < 6 ==> InHex(Escaped(c)[k])
  {
  }

  /** A high half followed by a low half is written as it is; every other unit by itself. */
  lemma BodyExactly(s: Text)
    requires s != []
    ensures Body(s) == if |s| >= 2 && s[0] / 0x400 == 0x36 && s[1] / 0x400 == 0x37 then s[..2] + Body(s[2..])
                       else Escaped(s[0]) + Body(s[1..])
  {
    assert Body(s) == Head(s) + Body(s[Width(s)..]);
    hide Body, Escaped;
    PairIs(s);
    if StartsWithPair(s) {
      assert s[..2] == [s[0], s[1]];
    }
  }

  lemma PairIs(s: Text)
    ensures StartsWithPair(s) <==> |s| >= 2 && s[0] / 0x400 == 0x36 && s[1] / 0x400 == 0x37
  {
  }

  /** Strings stand in quotation marks; arrays in brackets, with commas between. */
  lemma StringifyExactly(s: Text, items: seq<Json>, item: Json)
    ensures Stringify(JString(s)) == ['"' as int] + Body(s) + ['"' as int]
    ensures Stringify(JArray([])) == ['[' as int, ']' as int]
    ensures Stringify(JArray([item])) == ['[' as int] + Stringify(item) + [']' as int]
    ensures items != [] ==>
              Stringify(JArray([item] + items)) == ['[' as int] + Stringify(item) + [',' as int] + Stringify(JArray(items))[1..]
  {
    hide Body;
    if items != [] {
      assert ([item] + items)[1..] == items;
    }
  }

  // ----- unique readability -----

  lemma Regroup(a: Text, b: Text, c: Text, d: Text)
    ensures (a + b) + c + d == a + (b + c + d)
    ensures a + b + c == a + (b + c)
  {
  }

  lemma Cancel(a: Unit, b: Unit, x: Text, y: Text)
    requires [a] + x == [b] + y
    ensures a == b && x == y
  {
    var t := [a] + x;
    assert t[0] == a && t[0] == b;
    assert x == t[1..] == y;
  }

  /** The value of a hexadecimal digit, either case. */
  function HexValue(c: Unit): (v: int)
    ensures -1 <= v < 16
  {
    if 0x30 <= c <= 0x39 then c - 0x30
    else if 0x61 <= c <= 0x66 then c - 0x57
    else if 0x41 <= c <= 0x46 then c - 0x37
    else -1
  }

  /** What one escape or plain unit stands for by section 7 of RFC 8259, and how long it is. */
  function ReadUnit(t: Text): (r: Option<(Unit, nat)>)
    requires t != []
    ensures r.Some? ==> 0 < r.value.1 <= |t|
  {
    if t[0] != BACKSLASH then (if t[0] < 0x20 then None else Some((t[0], 1)))
    else if |t| < 2 then None
    else if t[1] == QUOTE || t[1] == BACKSLASH || t[1] == 0x2F then Some((t[1], 2))
    else if t[1] == 0x62 then Some((0x08, 2))
    else if t[1] == 0x66 then Some((0x0C, 2))
    else if t[1] == 0x6E then Some((0x0A, 2))
    else if t[1] == 0x72 then Some((0x0D, 2))
    else if t[1] == 0x74 then Some((0x09, 2))
    else if t[1] != 0x75 || |t| < 6 then None
    else
      var a, b, c, d := HexValue(t[2]), HexValue(t[3]), HexValue(t[4]), HexValue(t[5]);
      if a < 0 || b < 0 || c < 0 || d < 0 then None else Some((((a * 16 + b) * 16 + c) * 16 + d, 6))
  }

  /** Read a string up to its closing quotation mark: what it says, and what follows. */
  function ReadString(t: Text): Option<(Text, Text)>
    decreases |t|
  {
    if t == [] then None
    else if t[0] == QUOTE then Some(([], t[1..]))
    else
      match ReadUnit(t)
      case None => None
      case Some((c, n)) =>
        match ReadString(t[n..])
        case None => None
        case Some((s, rest)) => Some(([c] + s, rest))
  }

  lemma ReadHex(d: int)
    requires 0 <= d < 16
    ensures HexValue(HexDigit(d)) == d
  {
  }

  lemma ReadUnicodeEscape(c: Unit, r: Text)
    ensures ReadUnit(UnicodeEscape(c) + r) == Some((c, 6))
  {
    var t := UnicodeEscape(c) + r;
    assert t[0] == BACKSLASH && t[1] == 0x75;
    assert t[2] == UnicodeEscape(c)[2] && t[3] == UnicodeEscape(c)[3];
    assert t[4] == UnicodeEscape(c)[4] && t[5] == UnicodeEscape(c)[5];
    ReadHex(c / 16 / 16 / 16);
    ReadHex(c / 16 / 16 % 16);
    ReadHex(c / 16 % 16);
    ReadHex(c % 16);
  }

  lemma ReadEscaped(c: Unit, r: Text)
    ensures ReadUnit(Escaped(c) + r) == Some((c, |Escaped(c)|))
    ensures Escaped(c)[0] != QUOTE
  {
    ReadUnicodeEscape(c, r);
    assert UnicodeEscape(c)[0] == BACKSLASH && |UnicodeEscape(c)| == 6;
    hide UnicodeEscape;
  }

  lemma HeadFirst(s: Text)
    requires s != []
    ensures Head(s) != [] && Head(s)[0] != QUOTE
  {
  }

  /** A body followed by its closing quote, opened up by one character. */
  lemma BodyStep(s: Text, r: Text)
    ensures s == [] ==> Body(s) + [QUOTE] + r == [QUOTE] + r
    ensures s != [] ==> Body(s) + [QUOTE] + r == Head(s) + (Body(s[Width(s)..]) + [QUOTE] + r)
    ensures (Body(s) + [QUOTE] + r)[0] == QUOTE <==> s == []
  {
    if s == [] {
      assert Body(s) + [QUOTE] == [QUOTE];
    } else {
      HeadFirst(s);
      Regroup(Head(s), Body(s[Width(s)..]), [QUOTE], r);
    }
  }

  /** Reading one written character, then the rest. */
  lemma ReadHead(s: Text, x: Text, r: Text)
    requires s != [] && ReadString(x) == Some((s[Width(s)..], r)) && (Head(s) + x)[0] != QUOTE
    ensures ReadString(Head(s) + x) == Some((s, r))
  {
    var t := Head(s) + x;
    if Width(s) == 2 {
      ReadUnescapedPair(s[0], s[1], x);
      assert [s[0]] + ([s[1]] + s[2..]) == s;
    } else {
      ReadEscaped(s[0], x);
      assert t[|Escaped(s[0])|..] == x;
      hide Escaped;
      assert [s[0]] + s[1..] == s;
    }
  }

  /** A surrogate pair is written as it is, and read back one unit at a time. */
  lemma ReadUnescapedPair(high: Unit, low: Unit, x: Text)
    requires IsHigh(high) && IsLow(low)
    ensures ReadString([high, low] + x) ==
            match ReadString(x) case None => None case Some((s, r)) => Some(([high] + ([low] + s), r))
  {
    assert ([high, low] + x)[1..] == [low] + x;
    assert ([low] + x)[1..] == x;
  }

  /** A reader that knows only the standard's escapes reads back exactly the string that was written. */
  lemma {:induction false} ReadBack(s: Text, r: Text)
    ensures ReadString(Body(s) + [QUOTE] + r) == Some((s, r))
    decreases |s|
  {
    BodyStep(s, r);
    if s == [] {
      assert ([QUOTE] + r)[1..] == r;
    } else {
      ReadBack(s[Width(s)..], r);
      hide Body, Head, ReadString;
      ReadHead(s, Body(s[Width(s)..]) + [QUOTE] + r, r);
    }
  }

  lemma BodyReadable(s1: Text, s2: Text, r1: Text, r2: Text)
    requires Body(s1) + [QUOTE] + r1 == Body(s2) + [QUOTE] + r2
    ensures s1 == s2 && r1 == r2
  {
    ReadBack(s1, r1);
    ReadBack(s2, r2);
  }

  lemma FirstUnit(j: Json)
    ensures |Stringify(j)| >= 2
    ensures Stringify(j)[0] == if j.JString? then QUOTE else OPEN
  {
  }

  /**
   JSON text is uniquely readable: where one value's text ends and what follows
   begins is decided by the text alone, however strings and arrays nest.
   */
  lemma {:induction false} StringifyReadable(j1: Json, j2: Json, r1: Text, r2: Text)
    requires Stringify(j1) + r1 == Stringify(j2) + r2
    ensures j1 == j2 && r1 == r2
    decreases j1, 1
  {
    FirstUnit(j1);
    FirstUnit(j2);
    assert (Stringify(j1) + r1)[0] == Stringify(j1)[0] == Stringify(j2)[0];
    hide Elements, Body;
    match j1 {
      case JString(s1) =>
        Regroup([QUOTE], Body(s1), [QUOTE], r1);
        Regroup([QUOTE], Body(j2.text), [QUOTE], r2);
        Cancel(QUOTE, QUOTE, Body(s1) + [QUOTE] + r1, Body(j2.text) + [QUOTE] + r2);
        BodyReadable(s1, j2.text, r1, r2);
      case JArray(items1) =>
        Regroup([OPEN], Elements(items1), [CLOSE], r1);
        Regroup([OPEN], Elements(j2.items), [CLOSE], r2);
        Cancel(OPEN, OPEN, Elements(items1) + [CLOSE] + r1, Elements(j2.items) + [CLOSE] + r2);
        ElementsReadable(items1, j2.items, r1, r2);
    }
  }

  /** What follows the first element: the closing bracket, or a comma and the rest. */
  function AfterFirst(a: seq<Json>, r: Text): Text
    requires a != []
  {
    if |a| == 1 then [CLOSE] + r else [COMMA] + (Elements(a[1..]) + [CLOSE] + r)
  }

  lemma SplitFirst(a: seq<Json>, r: Text)
    ensures a == [] ==> Elements(a) + [CLOSE] + r == [CLOSE] + r
    ensures a != [] ==> Elements(a) + [CLOSE] + r == Stringify(a[0]) + AfterFirst(a, r)
    ensures (Elements(a) + [CLOSE] + r)[0] == CLOSE <==> a == []
  {
    if a == [] {
      assert Elements(a) + [CLOSE] == [CLOSE];
    } else {
      FirstUnit(a[0]);
      var s := Stringify(a[0]);
      hide Stringify;
      if |a| == 1 {
        Regroup(s, [CLOSE], r, []);
      } else {
        Regroup(s, [COMMA], Elements(a[1..]), []);
        Regroup(s, [COMMA] + Elements(a[1..]), [CLOSE], r);
        Regroup([COMMA], Elements(a[1..]), [CLOSE], r);
      }
    }
  }

  lemma {:induction false} ElementsReadable(a: seq<Json>, b: seq<Json>, r1: Text, r2: Text)
    requires Elements(a) + [CLOSE] + r1 == Elements(b) + [CLOSE] + r2
    ensures a == b && r1 == r2
    decreases a, 0
  {
    SplitFirst(a, r1);
    SplitFirst(b, r2);
    hide Stringify, Elements;
    if a == [] {
      Cancel(CLOSE, CLOSE, r1, r2);
    } else {
      var x1, x2 := AfterFirst(a, r1), AfterFirst(b, r2);
      StringifyReadable(a[0], b[0], x1, x2);
      if |a| == 1 || |b| == 1 {
        Cancel(if |a| == 1 then CLOSE else COMMA, if |b| == 1 then CLOSE else COMMA, x1[1..], x2[1..]);
        assert r1 == x1[1..] && r2 == x2[1..];
        assert a == [a[0]] && b == [b[0]];
      } else {
        Cancel(COMMA, COMMA, Elements(a[1..]) + [CLOSE] + r1, Elements(b[1..]) + [CLOSE] + r2);
        ElementsReadable(a[1..], b[1..], r1, r2);
        assert a == [a[0]] + a[1..] && b == [b[0]] + b[1..];
      }
    }
  }

  /** Two values with the same text are the same value. */
  lemma StringifyInjective(j1: Json, j2: Json)
    requires Stringify(j1) == Stringify(j2)
    ensures j1 == j2
  {
    assert Stringify(j1) + [] == Stringify(j2) + [];
    StringifyReadable(j1, j2, [], []);
  }

  // ----- where a quote may stand -----

  /** Inside a quoted body, a quotation mark only ever follows a reverse solidus. */
  ghost predicate QuotesEscaped(t: Text) {
    && (t != [] ==> t[0] != QUOTE)
    && forall k :: 0 < k < |t| && t[k] == QUOTE ==> t[k - 1] == BACKSLASH
  }

  lemma {:induction false} BodyQuotesEscaped(s: Text)
    ensures QuotesEscaped(Body(s))
    ensures s != [] && s[|s| - 1] == CLOSE ==> Body(s) != [] && Body(s)[|Body(s)| - 1] == CLOSE
  {
    if s != [] {
      var n, head := Width(s), Head(s);
      BodyQuotesEscaped(s[n..]);
      HeadQuotesEscaped(s);
      hide Head;
      var tail := Body(s[n..]);
      QuotesEscapedConcat(head, tail);
      if s[|s| - 1] == CLOSE && n < |s| {
        assert s[n..][|s[n..]| - 1] == CLOSE;
      }
    }
  }

  lemma HeadQuotesEscaped(s: Text)
    requires s != []
    ensures Head(s) != [] && QuotesEscaped(Head(s))
    ensures Width(s) == |s| && s[|s| - 1] == CLOSE ==> Head(s) == [CLOSE]
  {
  }

  lemma QuotesEscapedConcat(a: Text, b: Text)
    requires QuotesEscaped(a) && QuotesEscaped(b)
    ensures QuotesEscaped(a + b)
  {
    forall k | 0 < k < |a + b| && (a + b)[k] == QUOTE ensures (a + b)[k - 1] == BACKSLASH {
      if k > |a| {
        assert (a + b)[k] == b[k - |a|];
      }
    }
  }
}
