/** JSON Pointers (RFC 6901): the printer the checks use, the standard's reader, and evaluation in a document. */
module JsonPointer {
  import opened Options
  import opened Strings
  import opened JsonValues

  datatype Segment = Name(name: string) | Index(index: nat)

  type Pointer = seq<Segment>

  function Text(s: Segment): string {
    match s
    case Name(name) => name
    case Index(index) => Numeral(index)
  }

  function Texts(p: Pointer): (r: seq<string>)
    ensures |r| == |p| && forall k :: 0 <= k < |p| ==> r[k] == Text(p[k])
  {
    seq(|p|, k requires 0 <= k < |p| => Text(p[k]))
  }

  // ----- printing -----

  function ReplaceChar(s: string, c: char, with: string): string {
    if s == "" then "" else (if s[0] == c then with else [s[0]]) + ReplaceChar(s[1..], c, with)
  }

  function Escape(s: string): string { ReplaceChar(ReplaceChar(s, '~', "~0"), '/', "~1") }

  function EscapeAll(tokens: seq<string>): (r: seq<string>)
    ensures |r| == |tokens| && forall k :: 0 <= k < |r| ==> r[k] == Escape(tokens[k])
  {
    seq(|tokens|, k requires 0 <= k < |tokens| => Escape(tokens[k]))
  }

  function FormatJsonPointer(p: Pointer): string {
    if p == [] then "" else "/" + Join(EscapeAll(Texts(p)), '/')
  }

  // ----- reading (sections 3 and 4 of RFC 6901) -----

  /** Every occurrence of the two characters `a`, `b` replaced, from the left. */
  function ReplacePair(s: string, a: char, b: char, with: char): string {
    if s == "" then ""
    else if |s| > 1 && s[0] == a && s[1] == b then [with] + ReplacePair(s[2..], a, b, with)
    else [s[0]] + ReplacePair(s[1..], a, b, with)
  }

  function Unescape(token: string): string { ReplacePair(ReplacePair(token, '~', '1', '/'), '~', '0', '~') }

  function UnescapeAll(tokens: seq<string>): (r: seq<string>)
    ensures |r| == |tokens| && forall k :: 0 <= k < |r| ==> r[k] == Unescape(tokens[k])
  {
    seq(|tokens|, k requires 0 <= k < |tokens| => Unescape(tokens[k]))
  }

  function Parse(text: string): Option<seq<string>> {
    if text == "" then Some([])
    else if text[0] == '/' then Some(UnescapeAll(Split(text[1..], '/')))
    else None
  }

  // ----- reading undoes printing -----

  /** What escaping makes of one character. */
  function EscapedChar(c: char): string {
    if c == '~' then "~0" else if c == '/' then "~1" else [c]
  }

  lemma ReplaceCharStep(head: string, rest: string, c: char, with: string)
    requires 1 <= |head| <= 2
    ensures ReplaceChar(head + rest, c, with) == ReplaceChar(head, c, with) + ReplaceChar(rest, c, with)
  {
    assert (head + rest)[1..] == head[1..] + rest;
    if |head| == 2 {
      assert (head[1..] + rest)[1..] == rest;
      assert head[1..][1..] == "";
    }
  }

  lemma EscapeStep(s: string)
    requires s != ""
    ensures Escape(s) == EscapedChar(s[0]) + Escape(s[1..])
  {
    var head := if s[0] == '~' then "~0" else [s[0]];
    ReplaceCharStep(head, ReplaceChar(s[1..], '~', "~0"), '/', "~1");
    assert head[1..] == if s[0] == '~' then "0" else "";
    assert "0"[1..] == "";
  }

  lemma {:induction false} EscapeHasNoSlash(s: string)
    ensures '/' !in Escape(s)
  {
    if s != "" {
      EscapeStep(s);
      EscapeHasNoSlash(s[1..]);
      hide Escape;
    }
  }

  lemma PairMissed(c: char, rest: string, a: char, b: char, with: char)
    requires c != a
    ensures ReplacePair([c] + rest, a, b, with) == [c] + ReplacePair(rest, a, b, with)
  {
    assert ([c] + rest)[1..] == rest;
  }

  lemma PairHit(rest: string, a: char, b: char, with: char)
    ensures ReplacePair([a, b] + rest, a, b, with) == [with] + ReplacePair(rest, a, b, with)
  {
    assert ([a, b] + rest)[2..] == rest;
  }

  lemma PairElse(c: char, rest: string, a: char, b: char, with: char)
    requires c != b && c != a
    ensures ReplacePair([a, c] + rest, a, b, with) == [a, c] + ReplacePair(rest, a, b, with)
  {
    assert ([a, c] + rest)[1..] == [c] + rest;
    PairMissed(c, rest, a, b, with);
  }

  /** Undoing `~1` first leaves exactly what escaping `~` alone gives. */
  lemma {:induction false} UnescapeSlashes(s: string)
    ensures ReplacePair(Escape(s), '~', '1', '/') == ReplaceChar(s, '~', "~0")
  {
    if s != "" {
      EscapeStep(s);
      UnescapeSlashes(s[1..]);
      hide Escape, ReplacePair;
      var rest := Escape(s[1..]);
      if s[0] == '~' {
        PairElse('0', rest, '~', '1', '/');
      } else if s[0] == '/' {
        PairHit(rest, '~', '1', '/');
      } else {
        PairMissed(s[0], rest, '~', '1', '/');
      }
    }
  }

  lemma {:induction false} UnescapeTildes(s: string)
    ensures ReplacePair(ReplaceChar(s, '~', "~0"), '~', '0', '~') == s
  {
    if s != "" {
      hide ReplacePair;
      var rest := ReplaceChar(s[1..], '~', "~0");
      UnescapeTildes(s[1..]);
      if s[0] == '~' {
        PairHit(rest, '~', '0', '~');
      } else {
        PairMissed(s[0], rest, '~', '0', '~');
      }
      assert s == [s[0]] + s[1..];
    }
  }

  lemma UnescapeEscape(s: string)
    ensures Unescape(Escape(s)) == s
  {
    UnescapeSlashes(s);
    UnescapeTildes(s);
  }

  /** A printed pointer reads back as its segments' texts, whatever characters they hold. */
  lemma ParseFormat(p: Pointer)
    ensures Parse(FormatJsonPointer(p)) == Some(Texts(p))
  {
    hide Escape, Unescape;
    if p != [] {
      var tokens := EscapeAll(Texts(p));
      forall k | 0 <= k < |tokens| ensures '/' !in tokens[k] && Unescape(tokens[k]) == Texts(p)[k] {
        EscapeHasNoSlash(Texts(p)[k]);
        UnescapeEscape(Texts(p)[k]);
      }
      SplitJoin(tokens, '/');
      assert FormatJsonPointer(p)[1..] == Join(tokens, '/');
      assert UnescapeAll(tokens) == Texts(p);
    }
  }

  /** Two pointers print alike iff their segments' texts are the same: for names, iff they are the same pointer. */
  lemma FormatFaithful(p: Pointer, q: Pointer)
    ensures FormatJsonPointer(p) == FormatJsonPointer(q) <==> Texts(p) == Texts(q)
    ensures (forall s :: s in p + q ==> s.Name?) && FormatJsonPointer(p) == FormatJsonPointer(q) ==> p == q
  {
    ParseFormat(p);
    ParseFormat(q);
    hide FormatJsonPointer;
    if Texts(p) == Texts(q) {
      SameTextsPrintAlike(p, q);
      forall k | 0 <= k < |p| && p[k].Name? && q[k].Name? ensures p[k] == q[k] {
        assert Texts(p)[k] == Texts(q)[k];
      }
      assert forall k :: 0 <= k < |p| ==> p[k] in p + q && q[k] in p + q;
    }
  }

  lemma SameTextsPrintAlike(p: Pointer, q: Pointer)
    requires Texts(p) == Texts(q)
    ensures FormatJsonPointer(p) == FormatJsonPointer(q)
  {
    assert |p| == |Texts(p)| == |q|;
  }

  /** Names and indexes share one notation, so between them printing is not injective. */
  lemma AnIndexPrintsLikeAName()
    ensures FormatJsonPointer([Index(0)]) == FormatJsonPointer([Name("0")]) && [Index(0)] != [Name("0")]
  {
    assert Texts([Index(0)]) == ["0"] == Texts([Name("0")]);
    SameTextsPrintAlike([Index(0)], [Name("0")]);
  }

  // ----- evaluation -----

  datatype Place = Found(v: Value) | MissingMember | Nowhere

  /** An array index as the standard wants it: decimal, without leading zeros. */
  predicate IsArrayIndex(token: string) { IsNumeral(token) && (|token| > 1 ==> token[0] != '0') }

  /** The array indices are the numerals: each number is written in one way. */
  lemma {:induction false} IndexIsNumeral(token: string)
    ensures IsArrayIndex(token) <==> exists n :: token == Numeral(n)
  {
    if IsArrayIndex(token) {
      NumeralOfValue(token);
    }
  }

  lemma {:induction false} NumeralOfValue(token: string)
    requires IsNumeral(token) && (|token| > 1 ==> token[0] != '0')
    ensures token == Numeral(NumeralValue(token))
    ensures token[0] != '0' ==> NumeralValue(token) > 0
  {
    var init, last := token[..|token| - 1], token[|token| - 1];
    assert IsDigit(last);
    if init != "" {
      NumeralOfValue(init);
      var n := NumeralValue(init);
      assert NumeralValue(token) == n * 10 + (last as int - '0' as int);
      assert NumeralValue(token) / 10 == n;
      assert token == init + [last];
    } else {
      assert token == [last];
    }
  }

  /** What a pointer refers to; `MissingMember` is an absent member of an object that exists. */
  function Evaluate(v: Value, tokens: seq<string>): Place
    decreases |tokens|
  {
    if tokens == [] then Found(v)
    else
      match v
      case VObject(fields) =>
        if tokens[0] in fields then Evaluate(fields[tokens[0]], tokens[1..])
        else if |tokens| == 1 then MissingMember
        else Nowhere
      case VArray(items) =>
        if IsArrayIndex(tokens[0]) && NumeralValue(tokens[0]) < |items|
        then Evaluate(items[NumeralValue(tokens[0])], tokens[1..])
        else Nowhere
      case _ => Nowhere
  }

  lemma {:induction false} EvaluateConcat(v: Value, a: seq<string>, b: seq<string>)
    requires Evaluate(v, a).Found?
    ensures Evaluate(v, a + b) == Evaluate(Evaluate(v, a).v, b)
    decreases |a|
  {
    if a == [] {
      assert a + b == b;
    } else {
      assert (a + b)[1..] == a[1..] + b;
      match v {
        case VObject(fields) => EvaluateConcat(fields[a[0]], a[1..], b);
        case VArray(items) => EvaluateConcat(items[NumeralValue(a[0])], a[1..], b);
      }
    }
  }

  /** Where a printed pointer leads in a document: nowhere for text that is no pointer. */
  function Locate(v: Value, text: string): Place {
    match Parse(text)
    case None => Nowhere
    case Some(tokens) => Evaluate(v, tokens)
  }
}
