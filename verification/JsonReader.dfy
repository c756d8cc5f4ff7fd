/** A reader for the JSON that the clients write: compact objects whose values are
    strings or flat objects of strings, and the request body around them. Every text
    that `Json` writes is read back to what was written. */
module JsonReader {
  import opened Wrappers
  import opened Utf16
  import opened Json
  import opened Chunking

  const OPEN: Unit := 0x7B
  const CLOSE: Unit := 0x7D
  const END: Unit := 0x5D

  // ---- strings -----------------------------------------------------------------

  /** The unit a two-character escape stands for. */
  function ShortOf(u: Unit): Option<Unit>
  {
    if u == 0x62 then Some(0x08) else if u == 0x74 then Some(0x09) else if u == 0x6E then Some(0x0A)
    else if u == 0x66 then Some(0x0C) else if u == 0x72 then Some(0x0D)
    else if u == QUOTE || u == BACKSLASH || u == 0x2F then Some(u) else None
  }

  /** A JSON reader's view of a string whose opening quote has been consumed: its
      content and what follows the closing quote. */
  function ReadString(t: Text): (r: Option<(Text, Text)>)
    ensures r.Some? ==> |r.value.1| < |t|
    decreases |t|
  {
    if t == [] || (t[0] < 0x20) then None
    else if t[0] == QUOTE then Some(([], t[1..]))
    else if t[0] != BACKSLASH then Prefixed(t[0], ReadString(t[1..]))
    else if |t| < 2 then None
    else if t[1] != 0x75 then
      if ShortOf(t[1]).Some? then Prefixed(ShortOf(t[1]).value, ReadString(t[2..])) else None
    else if |t| < 6 || !HexUnit(t[2]) || !HexUnit(t[3]) || !HexUnit(t[4]) || !HexUnit(t[5]) then None
    else
      Prefixed(HexOf(t[2]) * 0x1000 + HexOf(t[3]) * 0x100 + HexOf(t[4]) * 0x10 + HexOf(t[5]), ReadString(t[6..]))
  }

  function Prefixed(u: Unit, r: Option<(Text, Text)>): Option<(Text, Text)>
  {
    if r.Some? then Some(([u] + r.value.0, r.value.1)) else None
  }

  lemma ReadRaw(u: Unit, t: Text)
    requires u >= 0x20 && u != QUOTE && u != BACKSLASH
    ensures ReadString([u] + t) == Prefixed(u, ReadString(t))
  {
    assert ([u] + t)[1..] == t;
  }

  lemma ReadShort(u: Unit, code: Unit, t: Text)
    requires code != 0x75 && ShortOf(code) == Some(u)
    ensures ReadString([BACKSLASH, code] + t) == Prefixed(u, ReadString(t))
  {
    assert ([BACKSLASH, code] + t)[2..] == t;
  }

  lemma ReadLong(a: nat, b: nat, c: nat, d: nat, t: Text)
    requires a < 16 && b < 16 && c < 16 && d < 16
    ensures ReadString([BACKSLASH, 0x75, HexDigit(a), HexDigit(b), HexDigit(c), HexDigit(d)] + t)
         == Prefixed(a * 0x1000 + b * 0x100 + c * 0x10 + d, ReadString(t))
  {
    assert ([BACKSLASH, 0x75, HexDigit(a), HexDigit(b), HexDigit(c), HexDigit(d)] + t)[6..] == t;
  }

  lemma HexSum(u: Unit)
    ensures u == u / 0x1000 * 0x1000 + u / 0x100 % 16 * 0x100 + u / 0x10 % 16 * 0x10 + u % 16
  {
    assert u / 0x100 == u / 0x10 / 0x10 && u / 0x1000 == u / 0x100 / 0x10;
  }

  lemma ReadUnit(u: Unit, t: Text)
    ensures ReadString(EscapeUnit(u) + t) == Prefixed(u, ReadString(t))
  {
    hide ReadString, HexDigit;
    var e := EscapeUnit(u);
    if |e| == 6 {
      HexSum(u);
      ReadLong(u / 0x1000, u / 0x100 % 16, u / 0x10 % 16, u % 16, t);
    } else if |e| == 2 {
      ReadShort(u, e[1], t);
    } else {
      ReadRaw(u, t);
    }
  }

  lemma Regroup(a: Text, b: Text, c: Text)
    ensures (a + b) + c == a + (b + c)
  {
  }

  lemma PairRoundTrip(s: Text, t: Text)
    requires Pair(s)
    ensures var r := ReadString(t);
            r.Some? ==> ReadString(s[..2] + t) == Some((s[..2] + r.value.0, r.value.1))
  {
    hide ReadString;
    ReadRaw(s[0], [s[1]] + t);
    ReadRaw(s[1], t);
    assert s[..2] == [s[0]] + [s[1]];
    Regroup([s[0]], [s[1]], t);
    if ReadString(t).Some? { Regroup([s[0]], [s[1]], ReadString(t).value.0); }
  }

  /** What is written between quotes is read back unit for unit, and the reader
      stops at the closing quote, whatever the text contains and whatever follows. */
  lemma {:induction false} StringRoundTrip(s: Text, rest: Text)
    ensures ReadString(Escape(s) + ([QUOTE] + rest)) == Some((s, rest))
  {
    var tail := [QUOTE] + rest;
    if s == [] {
      assert Escape(s) + tail == tail && tail[1..] == rest;
    } else if Pair(s) {
      hide ReadString, EscapeUnit;
      StringRoundTrip(s[2..], rest);
      var t := Escape(s[2..]) + tail;
      Regroup(s[..2], Escape(s[2..]), tail);
      hide Escape;
      PairRoundTrip(s, t);
      assert s[..2] + s[2..] == s;
    } else {
      hide ReadString, EscapeUnit;
      StringRoundTrip(s[1..], rest);
      ReadUnit(s[0], Escape(s[1..]) + tail);
      Regroup(EscapeUnit(s[0]), Escape(s[1..]), tail);
      hide Escape;
      assert [s[0]] + s[1..] == s;
    }
  }

  /** A quoted string. */
  function ReadText(t: Text): (r: Option<(Text, Text)>)
    ensures r.Some? ==> |r.value.1| < |t|
  {
    if t != [] && t[0] == QUOTE then ReadString(t[1..]) else None
  }

  lemma TextRoundTrip(s: Text, rest: Text)
    ensures ReadText(Quote(s) + rest) == Some((s, rest))
  {
    StringRoundTrip(s, rest);
    hide ReadString, Escape;
    assert (Quote(s) + rest)[1..] == Escape(s) + ([QUOTE] + rest);
  }

  // ---- objects -----------------------------------------------------------------

  /** The next unit is `u`; what follows it. */
  function Skip(u: Unit, t: Text): (r: Option<Text>)
    ensures r.Some? ==> |r.value| < |t|
  {
    if t != [] && t[0] == u then Some(t[1..]) else None
  }

  /** A quoted key and a colon. */
  function ReadKey(t: Text): (r: Option<(Text, Text)>)
    ensures r.Some? ==> |r.value.1| < |t|
  {
    var k := ReadText(t);
    if k.None? || Skip(COLON, k.value.1).None? then None else Some((k.value.0, Skip(COLON, k.value.1).value))
  }

  /** The entries of a flat object, up to its closing brace. */
  function ReadEntries(t: Text): (r: Option<(seq<(Text, Text)>, Text)>)
    ensures r.Some? ==> |r.value.1| < |t|
    decreases |t|
  {
    var k := ReadKey(t);
    if k.None? then None
    else
      var v := ReadText(k.value.1);
      if v.None? then None
      else if Skip(CLOSE, v.value.1).Some? then Some(([(k.value.0, v.value.0)], Skip(CLOSE, v.value.1).value))
      else if Skip(COMMA, v.value.1).None? then None
      else
        var more := ReadEntries(Skip(COMMA, v.value.1).value);
        if more.None? then None else Some(([(k.value.0, v.value.0)] + more.value.0, more.value.1))
  }

  /** A string, or a flat object of strings. */
  function ReadValue(t: Text): (r: Option<(Value, Text)>)
    ensures r.Some? ==> |r.value.1| < |t|
  {
    if Skip(OPEN, t).None? then
      var s := ReadText(t);
      if s.None? then None else Some((Str(s.value.0), s.value.1))
    else
      var t1 := Skip(OPEN, t).value;
      if Skip(CLOSE, t1).Some? then Some((Map([]), Skip(CLOSE, t1).value))
      else
        var es := ReadEntries(t1);
        if es.None? then None else Some((Map(es.value.0), es.value.1))
  }

  function ReadMembers(t: Text): (r: Option<(seq<Member>, Text)>)
    ensures r.Some? ==> |r.value.1| < |t|
    decreases |t|
  {
    var k := ReadKey(t);
    if k.None? then None
    else
      var v := ReadValue(k.value.1);
      if v.None? then None
      else if Skip(CLOSE, v.value.1).Some? then Some(([(k.value.0, v.value.0)], Skip(CLOSE, v.value.1).value))
      else if Skip(COMMA, v.value.1).None? then None
      else
        var more := ReadMembers(Skip(COMMA, v.value.1).value);
        if more.None? then None else Some(([(k.value.0, v.value.0)] + more.value.0, more.value.1))
  }

  function ReadObject(t: Text): (r: Option<(seq<Member>, Text)>)
    ensures r.Some? ==> |r.value.1| < |t|
  {
    if Skip(OPEN, t).None? then None
    else
      var t1 := Skip(OPEN, t).value;
      if Skip(CLOSE, t1).Some? then Some(([], Skip(CLOSE, t1).value)) else ReadMembers(t1)
  }

  lemma SkipOne(u: Unit, t: Text)
    ensures Skip(u, [u] + t) == Some(t)
    ensures forall v: Unit :: v != u ==> Skip(v, [u] + t).None?
  {
  }

  lemma KeyRoundTrip(k: Text, rest: Text)
    ensures ReadKey(Quote(k) + ([COLON] + rest)) == Some((k, rest))
  {
    TextRoundTrip(k, [COLON] + rest);
    SkipOne(COLON, rest);
    hide ReadText, Quote, Skip;
  }

  lemma EntriesStep(k: Text, v: Text, after: Text)
    ensures var t := Quote(k) + ([COLON] + (Quote(v) + after));
            && (Skip(CLOSE, after).Some? ==> ReadEntries(t) == Some(([(k, v)], Skip(CLOSE, after).value)))
            && (Skip(CLOSE, after).None? && Skip(COMMA, after).Some? ==>
                  var more := ReadEntries(Skip(COMMA, after).value);
                  more.Some? ==> ReadEntries(t) == Some(([(k, v)] + more.value.0, more.value.1)))
  {
    KeyRoundTrip(k, Quote(v) + after);
    TextRoundTrip(v, after);
    hide Quote, ReadText, ReadKey, Skip;
  }

  lemma EntriesFirst(es: seq<(Text, Text)>, tail: Text)
    requires es != []
    ensures var k, v := es[0].0, es[0].1;
            var after := if es[1..] == [] then tail else [COMMA] + (Join(EntryTexts(es[1..])) + tail);
            Join(EntryTexts(es)) + tail == Quote(k) + ([COLON] + (Quote(v) + after))
  {
    hide Quote;
    var k, v := es[0].0, es[0].1;
    var after := if es[1..] == [] then tail else [COMMA] + (Join(EntryTexts(es[1..])) + tail);
    JoinText(EntryText(es[0]), EntryTexts(es[1..]), tail);
    Regroup(Quote(k), [COLON] + Quote(v), after);
    Regroup([COLON], Quote(v), after);
  }

  lemma {:induction false} EntriesRoundTrip(es: seq<(Text, Text)>, rest: Text)
    requires es != []
    ensures ReadEntries(Join(EntryTexts(es)) + ([CLOSE] + rest)) == Some((es, rest))
    decreases |es|
  {
    hide ReadEntries, Quote, Join, EntryTexts;
    var k, v := es[0].0, es[0].1;
    assert es == [(k, v)] + es[1..];
    EntriesFirst(es, [CLOSE] + rest);
    if es[1..] == [] {
      assert es == [(k, v)];
      EntriesStep(k, v, [CLOSE] + rest);
      SkipOne(CLOSE, rest);
    } else {
      var more := Join(EntryTexts(es[1..])) + ([CLOSE] + rest);
      EntriesRoundTrip(es[1..], rest);
      EntriesStep(k, v, [COMMA] + more);
      SkipOne(COMMA, more);
    }
  }

  lemma JoinText(part: Text, parts: seq<Text>, rest: Text)
    ensures Join([part] + parts) + rest == part + (if parts == [] then rest else [COMMA] + (Join(parts) + rest))
  {
    assert ([part] + parts)[1..] == parts;
  }

  lemma JoinFirst(parts: seq<Text>)
    requires parts != [] && parts[0] != []
    ensures Join(parts) != [] && Join(parts)[0] == parts[0][0]
  {
  }

  lemma ValueRoundTrip(v: Value, rest: Text)
    ensures ReadValue(ValueText(v) + rest) == Some((v, rest))
  {
    match v
    case Str(s) =>
      TextRoundTrip(s, rest);
      hide ReadText;
    case Map(es) =>
      var inner := Join(EntryTexts(es));
      assert ValueText(v) + rest == [OPEN] + (inner + ([CLOSE] + rest));
      SkipOne(OPEN, inner + ([CLOSE] + rest));
      if es == [] {
        assert inner + ([CLOSE] + rest) == [CLOSE] + rest;
        SkipOne(CLOSE, rest);
      } else {
        EntriesRoundTrip(es, rest);
        EntriesQuoted(es);
        assert Skip(CLOSE, inner + ([CLOSE] + rest)).None?;
      }
  }

  lemma EntriesQuoted(es: seq<(Text, Text)>)
    requires es != []
    ensures var t := Join(EntryTexts(es)); t != [] && t[0] == QUOTE
  {
    assert EntryText(es[0])[0] == QUOTE by { hide Escape; }
    JoinFirst(EntryTexts(es));
  }

  lemma MembersStep(k: Text, v: Value, after: Text)
    ensures var t := Quote(k) + ([COLON] + (ValueText(v) + after));
            && (Skip(CLOSE, after).Some? ==> ReadMembers(t) == Some(([(k, v)], Skip(CLOSE, after).value)))
            && (Skip(CLOSE, after).None? && Skip(COMMA, after).Some? ==>
                  var more := ReadMembers(Skip(COMMA, after).value);
                  more.Some? ==> ReadMembers(t) == Some(([(k, v)] + more.value.0, more.value.1)))
  {
    KeyRoundTrip(k, ValueText(v) + after);
    ValueRoundTrip(v, after);
    hide Quote, ReadText, ReadKey, Skip, ReadValue, ValueText;
  }

  lemma MembersFirst(ms: seq<Member>, tail: Text)
    requires ms != []
    ensures var k, v := ms[0].0, ms[0].1;
            var after := if ms[1..] == [] then tail else [COMMA] + (Join(MemberTexts(ms[1..])) + tail);
            Join(MemberTexts(ms)) + tail == Quote(k) + ([COLON] + (ValueText(v) + after))
  {
    hide Quote, ValueText;
    var k, v := ms[0].0, ms[0].1;
    var after := if ms[1..] == [] then tail else [COMMA] + (Join(MemberTexts(ms[1..])) + tail);
    JoinText(Quote(ms[0].0) + ([COLON] + ValueText(ms[0].1)), MemberTexts(ms[1..]), tail);
    Regroup(Quote(k), [COLON] + ValueText(v), after);
    Regroup([COLON], ValueText(v), after);
  }

  lemma {:induction false} MembersRoundTrip(ms: seq<Member>, rest: Text)
    requires ms != []
    ensures ReadMembers(Join(MemberTexts(ms)) + ([CLOSE] + rest)) == Some((ms, rest))
    decreases |ms|
  {
    hide ReadMembers, Quote, Join, MemberTexts, ValueText;
    var k, v := ms[0].0, ms[0].1;
    assert ms == [(k, v)] + ms[1..];
    MembersFirst(ms, [CLOSE] + rest);
    if ms[1..] == [] {
      assert ms == [(k, v)];
      MembersStep(k, v, [CLOSE] + rest);
      SkipOne(CLOSE, rest);
    } else {
      var more := Join(MemberTexts(ms[1..])) + ([CLOSE] + rest);
      MembersRoundTrip(ms[1..], rest);
      MembersStep(k, v, [COMMA] + more);
      SkipOne(COMMA, more);
    }
  }

  /** A written object is read back member for member, whatever follows it. */
  lemma ObjectRoundTrip(ms: seq<Member>, rest: Text)
    ensures ReadObject(Stringify(ms) + rest) == Some((ms, rest))
  {
    var inner := Join(MemberTexts(ms));
    assert Stringify(ms) + rest == [OPEN] + (inner + ([CLOSE] + rest));
    SkipOne(OPEN, inner + ([CLOSE] + rest));
    if ms == [] {
      assert inner + ([CLOSE] + rest) == [CLOSE] + rest;
      SkipOne(CLOSE, rest);
    } else {
      MembersRoundTrip(ms, rest);
      MembersQuoted(ms);
      assert Skip(CLOSE, inner + ([CLOSE] + rest)).None?;
    }
  }

  lemma MembersQuoted(ms: seq<Member>)
    requires ms != []
    ensures var t := Join(MemberTexts(ms)); t != [] && t[0] == QUOTE
  {
    assert Quote(ms[0].0)[0] == QUOTE by { hide Escape; }
    hide Quote, ValueText;
    JoinFirst(MemberTexts(ms));
  }

  // ---- the request body ----------------------------------------------------------

  /** Objects separated by commas, up to the closing bracket of their array. */
  function ReadEvents(t: Text): (r: Option<(seq<seq<Member>>, Text)>)
    ensures r.Some? ==> |r.value.1| < |t|
    decreases |t|
  {
    var e := ReadObject(t);
    if e.None? then None
    else if Skip(END, e.value.1).Some? then Some(([e.value.0], Skip(END, e.value.1).value))
    else if Skip(COMMA, e.value.1).None? then None
    else
      var more := ReadEvents(Skip(COMMA, e.value.1).value);
      if more.None? then None else Some(([e.value.0] + more.value.0, more.value.1))
  }

  /** How a request body starts: its one member, a list. */
  const BODY_HEAD: Text := Lit("{\"events\":[")

  /** The events of a request body. */
  function ReadBody(t: Text): Option<seq<seq<Member>>>
  {
    if !(BODY_HEAD <= t) then None
    else
      var t1 := t[|BODY_HEAD|..];
      var events := if Skip(END, t1).Some? then Some(([], Skip(END, t1).value)) else ReadEvents(t1);
      if events.Some? && events.value.1 == [CLOSE] then Some(events.value.0) else None
  }

  function Stringified(es: seq<seq<Member>>): seq<Text>
  {
    if es == [] then [] else [Stringify(es[0])] + Stringified(es[1..])
  }

  lemma {:induction false} EventsRoundTrip(es: seq<seq<Member>>, rest: Text)
    requires es != []
    ensures ReadEvents(Join(Stringified(es)) + ([END] + rest)) == Some((es, rest))
    decreases |es|
  {
    hide Stringify, ReadObject;
    var more := Join(Stringified(es[1..])) + ([END] + rest);
    var after := if |es| == 1 then [END] + rest else [COMMA] + more;
    JoinText(Stringify(es[0]), Stringified(es[1..]), [END] + rest);
    if |es| > 1 { EventsRoundTrip(es[1..], rest); } else { assert es == [es[0]]; }
    hide Join, Skip, Stringified;
    assert Join(Stringified(es)) + ([END] + rest) == Stringify(es[0]) + after;
    ObjectRoundTrip(es[0], after);
    SkipOne(END, rest);
    SkipOne(COMMA, more);
    assert es == [es[0]] + es[1..];
  }

  /** A body built from written objects is read back event for event. */
  lemma BodyRoundTrip(chunk: Chunk, es: seq<seq<Member>>)
    requires Jsons(chunk) == Stringified(es)
    ensures ReadBody(BuildBody(chunk)) == Some(es)
  {
    var inner := Join(Stringified(es));
    var body := BuildBody(chunk);
    SuffixUnits();
    assert body == BODY_PREFIX + (inner + ([END] + [CLOSE])) && BODY_PREFIX == BODY_HEAD;
    var t := body[|BODY_HEAD|..];
    assert t == inner + ([END] + [CLOSE]);
    if es == [] {
      assert t == [END] + [CLOSE];
      SkipOne(END, [CLOSE]);
    } else {
      EventsRoundTrip(es, [CLOSE]);
      EventsOpened(es);
      assert Skip(END, t).None?;
    }
  }

  lemma SuffixUnits()
    ensures BODY_SUFFIX == [END] + [CLOSE]
  {
  }

  lemma EventsOpened(es: seq<seq<Member>>)
    requires es != []
    ensures var t := Join(Stringified(es)); t != [] && t[0] == OPEN
  {
    hide MemberTexts;
  }
}
