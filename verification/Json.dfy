/** JSON text as `JSON.stringify` and `jsonEncode` write it, and its exact UTF-8
    length. Objects keep the order of their members; the only values the
    telemetry events use are strings and one flat object of strings. */
module Json {
  import opened Utf16

  const QUOTE: Unit := 0x22
  const BACKSLASH: Unit := 0x5C
  const COMMA: Unit := 0x2C
  const COLON: Unit := 0x3A

  datatype Value = Str(s: Text) | Map(entries: seq<(Text, Text)>)

  type Member = (Text, Value)

  // ---- UTF-8 length of a text (TextEncoder, utf8.encode) ---------------------

  /** Bytes of one unit that is not half of a pair; a lone surrogate is encoded
      as U+FFFD. */
  function UnitUtf8(u: Unit): nat
  {
    if u < 0x80 then 1 else if u < 0x800 then 2 else 3
  }

  function Utf8Len(s: Text): nat
  {
    if s == [] then 0
    else if Pair(s) then 4 + Utf8Len(s[2..])
    else UnitUtf8(s[0]) + Utf8Len(s[1..])
  }

  lemma {:induction false} Utf8Concat(a: Text, b: Text)
    requires a == [] || b == [] || !High(a[|a| - 1]) || !Low(b[0])
    ensures Utf8Len(a + b) == Utf8Len(a) + Utf8Len(b)
  {
    if a == [] {
      assert a + b == b;
    } else if b == [] {
      assert a + b == a;
    } else if Pair(a) {
      Utf8Concat(a[2..], b);
      assert (a + b)[2..] == a[2..] + b;
    } else {
      Utf8Concat(a[1..], b);
      assert (a + b)[1..] == a[1..] + b;
    }
  }

  lemma {:induction false} Utf8Ascii(s: Text)
    requires Ascii(s)
    ensures Utf8Len(s) == |s|
  {
    if s == [] {
    } else {
      Utf8Ascii(s[1..]);
    }
  }

  // ---- string escaping -------------------------------------------------------

  /** A lowercase hexadecimal digit. */
  predicate HexUnit(u: int) { 0x30 <= u <= 0x39 || 0x61 <= u <= 0x66 }

  function HexDigit(d: nat): (u: Unit)
    requires d < 16
    ensures HexUnit(u) && (u == 0x30 <==> d == 0)
  {
    if d < 10 then 0x30 + d else 0x57 + d
  }

  function HexOf(u: int): (d: nat)
    requires HexUnit(u)
    ensures d < 16
  {
    if u <= 0x39 then u - 0x30 else u - 0x57
  }

  function EscapeUnit(u: Unit): Text
  {
    if u == 0x08 then [BACKSLASH, 0x62]
    else if u == 0x09 then [BACKSLASH, 0x74]
    else if u == 0x0A then [BACKSLASH, 0x6E]
    else if u == 0x0C then [BACKSLASH, 0x66]
    else if u == 0x0D then [BACKSLASH, 0x72]
    else if u == QUOTE || u == BACKSLASH then [BACKSLASH, u]
    else if u < 0x20 || High(u) || Low(u) then
      [BACKSLASH, 0x75, HexDigit(u / 0x1000), HexDigit(u / 0x100 % 16), HexDigit(u / 0x10 % 16), HexDigit(u % 16)]
    else [u]
  }

  function Escape(s: Text): Text
  {
    if s == [] then []
    else if Pair(s) then s[..2] + Escape(s[2..])
    else EscapeUnit(s[0]) + Escape(s[1..])
  }

  function Quote(s: Text): Text { [QUOTE] + Escape(s) + [QUOTE] }

  lemma EscapeUnitUtf8(u: Unit)
    ensures EscapeUnit(u) != [] && !High(EscapeUnit(u)[|EscapeUnit(u)| - 1])
    ensures Utf8Len(EscapeUnit(u)) == UnitBytes(u)
  {
    var e := EscapeUnit(u);
    if |e| > 1 {
      Utf8Ascii(e);
    } else {
      assert e[1..] == [];
    }
  }

  /** The size table is the UTF-8 length of the escaped text. */
  lemma {:induction false} EscapeUtf8(s: Text)
    ensures Utf8Len(Escape(s)) == JsonBytes(s)
  {
    if s == [] {
    } else if Pair(s) {
      EscapeUtf8(s[2..]);
      assert Escape(s)[2..] == Escape(s[2..]);
    } else {
      EscapeUtf8(s[1..]);
      EscapeUnitUtf8(s[0]);
      Utf8Concat(EscapeUnit(s[0]), Escape(s[1..]));
    }
  }

  lemma QuoteUtf8(s: Text)
    ensures Utf8Len(Quote(s)) == JsonBytes(s) + 2
  {
    EscapeUtf8(s);
    Utf8Concat([QUOTE], Escape(s));
    Utf8Concat([QUOTE] + Escape(s), [QUOTE]);
    Utf8Ascii([QUOTE]);
  }

  // ---- joining ---------------------------------------------------------------

  /** `parts.join(',')` */
  function Join(parts: seq<Text>): Text
  {
    if parts == [] then []
    else if |parts| == 1 then parts[0]
    else parts[0] + ([COMMA] + Join(parts[1..]))
  }

  /** UTF-8 length of every part, each with one separator. */
  function PartBytes(parts: seq<Text>): nat
  {
    if parts == [] then 0 else Utf8Len(parts[0]) + 1 + PartBytes(parts[1..])
  }

  lemma {:induction false} JoinUtf8(parts: seq<Text>)
    requires parts != []
    ensures Utf8Len(Join(parts)) + 1 == PartBytes(parts)
  {
    if |parts| > 1 {
      var rest := Join(parts[1..]);
      JoinUtf8(parts[1..]);
      Utf8Concat([COMMA], rest);
      Utf8Ascii([COMMA]);
      Utf8Concat(parts[0], [COMMA] + rest);
    }
  }

  /** A text between two ASCII brackets. */
  lemma WrapUtf8(open: Text, inner: Text, close: Text)
    requires Ascii(open) && Ascii(close)
    ensures Utf8Len(open + inner + close) == |open| + Utf8Len(inner) + |close|
  {
    Utf8Ascii(open);
    Utf8Ascii(close);
    Utf8Concat(open, inner);
    Utf8Concat(open + inner, close);
  }

  // ---- objects ---------------------------------------------------------------

  function EntryText(e: (Text, Text)): Text { Quote(e.0) + ([COLON] + Quote(e.1)) }

  function EntryTexts(es: seq<(Text, Text)>): seq<Text>
  {
    if es == [] then [] else [EntryText(es[0])] + EntryTexts(es[1..])
  }

  function Object(parts: seq<Text>): Text { [0x7B] + Join(parts) + [0x7D] }

  function ValueText(v: Value): Text
  {
    match v
    case Str(s) => Quote(s)
    case Map(entries) => Object(EntryTexts(entries))
  }

  function MemberTexts(ms: seq<Member>): seq<Text>
  {
    if ms == [] then [] else [Quote(ms[0].0) + ([COLON] + ValueText(ms[0].1))] + MemberTexts(ms[1..])
  }

  /** `JSON.stringify` of an object with these members. */
  function Stringify(ms: seq<Member>): Text { Object(MemberTexts(ms)) }

  // ---- their exact size ------------------------------------------------------

  /** Bytes of the entries of a flat object, each with one separator. */
  function EntryCost(es: seq<(Text, Text)>): nat
  {
    if es == [] then 0 else JsonBytes(es[0].0) + JsonBytes(es[0].1) + 6 + EntryCost(es[1..])
  }

  function ValueBytes(v: Value): nat
  {
    match v
    case Str(s) => JsonBytes(s) + 2
    case Map(entries) => if entries == [] then 2 else 1 + EntryCost(entries)
  }

  function MemberCost(m: Member): nat { JsonBytes(m.0) + 4 + ValueBytes(m.1) }

  function Cost(ms: seq<Member>): nat
  {
    if ms == [] then 0 else MemberCost(ms[0]) + Cost(ms[1..])
  }

  lemma {:induction false} CostConcat(a: seq<Member>, b: seq<Member>)
    ensures Cost(a + b) == Cost(a) + Cost(b)
  {
    if a == [] {
      assert a + b == b;
    } else {
      CostConcat(a[1..], b);
      assert (a + b)[1..] == a[1..] + b;
    }
  }

  lemma PairUtf8(key: Text, value: Text)
    ensures Utf8Len(Quote(key) + ([COLON] + value)) == JsonBytes(key) + 3 + Utf8Len(value)
  {
    QuoteUtf8(key);
    Utf8Ascii([COLON]);
    Utf8Concat([COLON], value);
    Utf8Concat(Quote(key), [COLON] + value);
  }

  lemma {:induction false} EntriesUtf8(es: seq<(Text, Text)>)
    ensures PartBytes(EntryTexts(es)) == EntryCost(es)
  {
    if es == [] {
    } else {
      EntriesUtf8(es[1..]);
      QuoteUtf8(es[0].1);
      PairUtf8(es[0].0, Quote(es[0].1));
    }
  }

  lemma ObjectUtf8(parts: seq<Text>)
    ensures Utf8Len(Object(parts)) == if parts == [] then 2 else 1 + PartBytes(parts)
  {
    WrapUtf8([0x7B], Join(parts), [0x7D]);
    if parts != [] { JoinUtf8(parts); }
  }

  lemma ValueUtf8(v: Value)
    ensures Utf8Len(ValueText(v)) == ValueBytes(v)
  {
    match v
    case Str(s) => QuoteUtf8(s);
    case Map(entries) =>
      EntriesUtf8(entries);
      ObjectUtf8(EntryTexts(entries));
  }

  lemma {:induction false} MembersUtf8(ms: seq<Member>)
    ensures PartBytes(MemberTexts(ms)) == Cost(ms)
  {
    if ms == [] {
    } else {
      MembersUtf8(ms[1..]);
      ValueUtf8(ms[0].1);
      PairUtf8(ms[0].0, ValueText(ms[0].1));
    }
  }

  /** The byte length of a stringified object is the sum of its members' costs. */
  lemma StringifyUtf8(ms: seq<Member>)
    ensures Utf8Len(Stringify(ms)) == if ms == [] then 2 else 1 + Cost(ms)
  {
    MembersUtf8(ms);
    ObjectUtf8(MemberTexts(ms));
  }
}
