/** The React client's event model (models.ts): conversion of an event to the wire
    shape with every gateway cap applied, and the shrink loop that brings the
    serialized event under the byte limit. */
module Wire {
  import opened Wrappers
  import opened Utf16
  import opened Json

  const MAX_EVENTS_PER_REQUEST := 100
  const MAX_EVENT_BYTES := 16384
  const MAX_REQUEST_BYTES := MAX_EVENTS_PER_REQUEST * MAX_EVENT_BYTES

  const MAX_MESSAGE := 2000
  const MAX_ERROR := 2000
  const MAX_STACK := 8000
  const MAX_URL := 2000
  const MAX_APP := 64
  const MAX_APP_VERSION := 64
  const MAX_CONTEXT_ENTRIES := 32
  const MAX_CONTEXT_KEY := 128
  const MAX_CONTEXT_VALUE := 1024

  datatype EventType = LogType | ErrorType | EventType | PerfType {
    function Name(): Text
    {
      match this
      case LogType => Lit("log")
      case ErrorType => Lit("error")
      case EventType => Lit("event")
      case PerfType => Lit("perf")
    }

    function NameLength(): nat { if ErrorType? || EventType? then 5 else if LogType? then 3 else 4 }

    lemma NameBytes()
      ensures JsonBytes(Name()) == NameLength()
    {
      match this
      case LogType => PlainBytes("log");
      case ErrorType => PlainBytes("error");
      case EventType => PlainBytes("event");
      case PerfType => PlainBytes("perf");
    }
  }

  datatype Level = Trace | Debug | Info | Warning | Error | Critical {
    function Name(): Text
    {
      match this
      case Trace => Lit("trace")
      case Debug => Lit("debug")
      case Info => Lit("info")
      case Warning => Lit("warning")
      case Error => Lit("error")
      case Critical => Lit("critical")
    }

    function NameLength(): nat
    {
      match this
      case Info => 4
      case Warning => 7
      case Critical => 8
      case _ => 5
    }

    lemma NameBytes()
      ensures JsonBytes(Name()) == NameLength()
    {
      match this
      case Trace => PlainBytes("trace");
      case Debug => PlainBytes("debug");
      case Info => PlainBytes("info");
      case Warning => PlainBytes("warning");
      case Error => PlainBytes("error");
      case Critical => PlainBytes("critical");
    }
  }

  type Entries = seq<(Text, Text)>

  /** An event as application code hands it to the client. `context` lists the
      properties of the context object in enumeration order. */
  datatype Event = Event(
    kind: EventType, level: Option<Level>, message: Option<Text>, error: Option<Text>, stack: Option<Text>,
    url: Option<Text>, traceId: Option<Text>, spanId: Option<Text>, context: Option<Entries>)

  datatype WireEvent = WireEvent(
    kind: EventType, level: Level, message: Text, app: Text, error: Option<Text>, stack: Option<Text>,
    url: Option<Text>, appVersion: Option<Text>, traceId: Option<Text>, spanId: Option<Text>,
    context: Option<Entries>)

  // ---- field rules -----------------------------------------------------------

  predicate AppChar(u: int)
  {
    0x30 <= u <= 0x39 || 0x41 <= u <= 0x5A || 0x61 <= u <= 0x7A || u in [0x2E, 0x5F, 0x2D]
  }

  /** `sanitizeApp`: characters outside the alphabet become `_`, and no name `web`. */
  function SanitizeApp(app: Text): (r: Text)
    ensures 0 < |r| <= MAX_APP
    ensures forall i :: 0 <= i < |r| ==> AppChar(r[i])
    ensures 0 < |app| <= MAX_APP && (forall i :: 0 <= i < |app| ==> AppChar(app[i])) ==> r == app
  {
    var cleaned := Cap(seq(|app|, i requires 0 <= i < |app| => if AppChar(app[i]) then app[i] else 0x5F), MAX_APP);
    if cleaned == [] then Lit("web") else cleaned
  }

  /** `toLowerCase`. Only the ASCII letters matter: no other character lowers to a
      hexadecimal digit. */
  function Lower(s: Text): Text
  {
    seq(|s|, i requires 0 <= i < |s| => if 0x41 <= s[i] <= 0x5A then s[i] + 0x20 else s[i])
  }

  /** `length` lowercase hexadecimal digits that are not all zero. */
  predicate HexId(s: seq<int>, length: nat)
  {
    |s| == length && (forall i :: 0 <= i < |s| ==> HexUnit(s[i])) && exists i :: 0 <= i < |s| && s[i] != 0x30
  }

  function ValidId(value: Option<Text>, length: nat): (r: Option<Text>)
    ensures r.Some? ==> HexId(r.value, length)
    ensures value.Some? && HexId(value.value, length) ==> r == value
  {
    if value.None? then None
    else
      assert HexId(value.value, length) ==> Lower(value.value) == value.value;
      if HexId(Lower(value.value), length) then Some(Lower(value.value)) else None
  }

  function CapOption(value: Option<Text>, max: nat): Option<Text>
  {
    if value.Some? then Some(Cap(value.value, max)) else None
  }

  // ---- context ---------------------------------------------------------------

  /** Assigning property `k` of an object: an existing property keeps its place. */
  function Put(es: Entries, k: Text, v: Text): Entries
  {
    if es == [] then [(k, v)]
    else if es[0].0 == k then [(k, v)] + es[1..]
    else [es[0]] + Put(es[1..], k, v)
  }

  /** `Object.fromEntries` applied on top of `acc`: truncation may merge keys. */
  function FromEntries(acc: Entries, es: Entries): Entries
    decreases es
  {
    if es == [] then acc else FromEntries(Put(acc, es[0].0, es[0].1), es[1..])
  }

  function NonemptyKeys(es: Entries): Entries
  {
    if es == [] then []
    else (if es[0].0 != [] then [es[0]] else []) + NonemptyKeys(es[1..])
  }

  function CapEntries(es: Entries): Entries
  {
    seq(|es|, i requires 0 <= i < |es| => (Cap(es[i].0, MAX_CONTEXT_KEY), Cap(es[i].1, MAX_CONTEXT_VALUE)))
  }

  function ShapeContext(context: Option<Entries>): Option<Entries>
  {
    if context.None? then None
    else
      var entries := FirstEntries(context.value);
      if entries == [] then None else Some(FromEntries([], CapEntries(entries)))
  }

  predicate EntryWithin(e: (Text, Text))
  {
    0 < |e.0| <= MAX_CONTEXT_KEY && |e.1| <= MAX_CONTEXT_VALUE
  }

  predicate EntryWellFormed(e: (Text, Text)) { WellFormed(e.0) && WellFormed(e.1) }

  predicate DistinctKeys(es: Entries)
  {
    forall i, j :: 0 <= i < j < |es| ==> es[i].0 != es[j].0
  }

  lemma {:induction false} PutProperties(es: Entries, k: Text, v: Text)
    ensures var r := Put(es, k, v);
            && |es| <= |r| <= |es| + 1 && r != []
            && (forall e :: e in r ==> e in es || e == (k, v))
            && (k, v) in r
            && (DistinctKeys(es) ==> DistinctKeys(r))
  {
    if es != [] && es[0].0 != k {
      PutProperties(es[1..], k, v);
      var r := Put(es, k, v);
      assert forall e :: e in es[1..] ==> e in es;
      if DistinctKeys(es) {
        assert DistinctKeys(es[1..]);
        forall i, j | 0 <= i < j < |r| ensures r[i].0 != r[j].0 {
          if i > 0 {
            assert r[i] == Put(es[1..], k, v)[i - 1] && r[j] == Put(es[1..], k, v)[j - 1];
          } else {
            assert r[j] in Put(es[1..], k, v);
          }
        }
      }
    }
  }

  lemma {:induction false} FromEntriesProperties(acc: Entries, es: Entries)
    requires DistinctKeys(acc)
    ensures var r := FromEntries(acc, es);
            && |acc| <= |r| <= |acc| + |es|
            && (forall e :: e in r ==> e in acc || e in es)
            && DistinctKeys(r)
            && (es != [] ==> r != [])
    decreases es
  {
    if es == [] {
    } else {
      PutProperties(acc, es[0].0, es[0].1);
      FromEntriesProperties(Put(acc, es[0].0, es[0].1), es[1..]);
      assert es[0] == (es[0].0, es[0].1) && es[0] in es;
      assert forall e :: e in es[1..] ==> e in es;
    }
  }

  lemma {:induction false} NonemptyKeysProperties(es: Entries)
    ensures forall e :: e in NonemptyKeys(es) <==> e in es && e.0 != []
  {
    if es == [] {
    } else {
      NonemptyKeysProperties(es[1..]);
      assert es == [es[0]] + es[1..];
    }
  }

  /** The shaped context satisfies the gateway's entry, key and value caps, keeps
      keys unique, and stays well formed. */
  lemma ShapedContext(context: Option<Entries>)
    ensures var r := ShapeContext(context);
            r.Some? ==>
              && context.Some?
              && 0 < |r.value| <= MAX_CONTEXT_ENTRIES
              && DistinctKeys(r.value)
              && (forall e :: e in r.value ==> EntryWithin(e))
              && ((forall e :: e in context.value ==> EntryWellFormed(e)) ==>
                    forall e :: e in r.value ==> EntryWellFormed(e))
  {
    if context.Some? {
      NonemptyKeysProperties(context.value);
      var kept := NonemptyKeys(context.value);
      var entries := if |kept| > MAX_CONTEXT_ENTRIES then kept[..MAX_CONTEXT_ENTRIES] else kept;
      assert forall e :: e in entries ==> e in kept;
      var capped := CapEntries(entries);
      FromEntriesProperties([], capped);
      forall e | e in capped
        ensures EntryWithin(e)
        ensures (forall x :: x in context.value ==> EntryWellFormed(x)) ==> EntryWellFormed(e)
      {
        var i :| 0 <= i < |entries| && capped[i] == e;
        assert entries[i] in entries;
        CapCut(entries[i].0, MAX_CONTEXT_KEY);
        CapCut(entries[i].1, MAX_CONTEXT_VALUE);
      }
    }
  }

  // ---- which entries a context holds -------------------------------------------

  /** No later entry has the same key after truncation. */
  predicate Survives(es: Entries, i: nat)
    requires i < |es|
  {
    forall j :: i < j < |es| ==> es[j].0 != es[i].0
  }

  lemma {:induction false} PutMembers(es: Entries, k: Text, v: Text, e: (Text, Text))
    requires DistinctKeys(es)
    ensures e in Put(es, k, v) <==> e == (k, v) || (e in es && e.0 != k)
  {
    if es == [] {
    } else {
      assert DistinctKeys(es[1..]);
      if es[0].0 != k {
        PutMembers(es[1..], k, v, e);
      } else if e in es[1..] {
        var i :| 0 < i < |es| && es[i] == e;
        assert es[0].0 != es[i].0;
      }
    }
  }

  /** Building a map from entries keeps, for every key, the last of its entries. */
  lemma {:induction false} LastWins(acc: Entries, es: Entries, e: (Text, Text))
    requires DistinctKeys(acc)
    ensures e in FromEntries(acc, es) <==>
              || (exists i :: 0 <= i < |es| && es[i] == e && Survives(es, i))
              || (e in acc && forall i :: 0 <= i < |es| ==> es[i].0 != e.0)
    decreases es
  {
    if es == [] {
    } else {
      var next := Put(acc, es[0].0, es[0].1);
      PutProperties(acc, es[0].0, es[0].1);
      PutMembers(acc, es[0].0, es[0].1, e);
      LastWins(next, es[1..], e);
      LastOfTail(es, e);
    }
  }

  lemma LastOfTail(es: Entries, e: (Text, Text))
    requires es != []
    ensures (exists i :: 0 <= i < |es| && es[i] == e && Survives(es, i)) <==>
              || (exists i :: 0 <= i < |es[1..]| && es[1..][i] == e && Survives(es[1..], i))
              || (es[0] == e && forall i :: 0 <= i < |es[1..]| ==> es[1..][i].0 != e.0)
  {
    var t := es[1..];
    forall i | 0 <= i < |t| ensures t[i] == es[i + 1] && (Survives(t, i) <==> Survives(es, i + 1)) {
      if Survives(t, i) {
        forall j | i + 1 < j < |es| ensures es[j].0 != es[i + 1].0 { assert t[j - 1].0 != t[i].0; }
      }
    }
    if i :| 0 <= i < |es| && es[i] == e && Survives(es, i) {
      if i > 0 {
        assert t[i - 1] == e && Survives(t, i - 1);
      } else {
        forall j | 0 <= j < |t| ensures t[j].0 != e.0 { assert es[j + 1].0 != es[0].0; }
      }
    }
    if i :| 0 <= i < |t| && t[i] == e && Survives(t, i) {
      assert es[i + 1] == e && Survives(es, i + 1);
    }
    if es[0] == e && forall i :: 0 <= i < |t| ==> t[i].0 != e.0 {
      forall j | 0 < j < |es| ensures es[j].0 != es[0].0 { assert t[j - 1].0 != e.0; }
      assert Survives(es, 0);
    }
  }

  /** How many of the first `i` entries have a nonempty key. */
  function NonemptyBefore(es: Entries, i: nat): nat
    requires i <= |es|
  {
    if i == 0 then 0 else NonemptyBefore(es, i - 1) + if es[i - 1].0 != [] then 1 else 0
  }

  /** Entry `i` is one of the first 32 with a nonempty key. */
  predicate Counts(es: Entries, i: nat)
    requires i < |es|
  {
    es[i].0 != [] && NonemptyBefore(es, i) < 32
  }

  function FirstEntries(es: Entries): Entries
  {
    var kept := NonemptyKeys(es);
    if |kept| > MAX_CONTEXT_ENTRIES then kept[..MAX_CONTEXT_ENTRIES] else kept
  }

  lemma FilterHead(es: Entries)
    requires es != []
    ensures NonemptyKeys(es) == NonemptyKeys([es[0]]) + NonemptyKeys(es[1..])
  {
    FilterOne(es[0]);
  }

  lemma Regroup(a: Entries, b: Entries, c: Entries)
    ensures (a + b) + c == a + (b + c)
  {
  }

  lemma {:induction false} FilterConcat(a: Entries, b: Entries)
    ensures NonemptyKeys(a + b) == NonemptyKeys(a) + NonemptyKeys(b)
  {
    if a == [] {
      assert a + b == b && NonemptyKeys(a) == [];
    } else {
      FilterConcat(a[1..], b);
      FilterHead(a + b);
      FilterHead(a);
      hide NonemptyKeys;
      assert (a + b)[1..] == a[1..] + b && (a + b)[0] == a[0];
      Regroup(NonemptyKeys([a[0]]), NonemptyKeys(a[1..]), NonemptyKeys(b));
    }
  }

  /** The filter keeps the order, so an entry's place is the number of those before it. */
  lemma {:induction false} FilterPlace(es: Entries, i: nat)
    requires i <= |es|
    ensures |NonemptyKeys(es[..i])| == NonemptyBefore(es, i)
    ensures i < |es| && es[i].0 != [] ==>
              NonemptyBefore(es, i) < |NonemptyKeys(es)| && NonemptyKeys(es)[NonemptyBefore(es, i)] == es[i]
    decreases i
  {
    if i == 0 {
      assert es[..0] == [];
    } else {
      FilterPlace(es, i - 1);
      assert es[..i] == es[..i - 1] + [es[i - 1]];
      FilterConcat(es[..i - 1], [es[i - 1]]);
      FilterOne(es[i - 1]);
    }
    if i < |es| {
      assert es == es[..i] + ([es[i]] + es[i + 1..]);
      FilterConcat(es[..i], [es[i]] + es[i + 1..]);
      FilterConcat([es[i]], es[i + 1..]);
      FilterOne(es[i]);
    }
  }

  lemma FilterOne(e: (Text, Text))
    ensures NonemptyKeys([e]) == if e.0 != [] then [e] else []
  {
    assert [e][1..] == [];
  }

  /** Every place of the filtered list is that of one entry. */
  lemma {:induction false} FilterSource(es: Entries, k: nat, n: nat) returns (i: nat)
    requires n <= |es| && k < NonemptyBefore(es, n)
    ensures i < n && es[i].0 != [] && NonemptyBefore(es, i) == k
    decreases n
  {
    if k == NonemptyBefore(es, n - 1) {
      i := n - 1;
    } else {
      i := FilterSource(es, k, n - 1);
    }
  }

  lemma {:induction false} PlacesGrow(es: Entries, i: nat, j: nat)
    requires i <= j <= |es|
    ensures NonemptyBefore(es, i) <= NonemptyBefore(es, j)
    ensures i < j && es[i].0 != [] ==> NonemptyBefore(es, i) < NonemptyBefore(es, j)
    decreases j
  {
    if i < j { PlacesGrow(es, i, j - 1); }
  }

  /** `capped` lists the first 32 entries after truncation: the place of entry `i`. */
  predicate PlacedAt(es: Entries, capped: Entries, i: nat)
  {
    i < |es| && Counts(es, i) && NonemptyBefore(es, i) < |capped|
  }

  /** Entry `i` is sent as `e`, and no later one of the first 32 has that key. */
  predicate LastFor(es: Entries, capped: Entries, i: nat, e: (Text, Text))
  {
    && PlacedAt(es, capped, i) && capped[NonemptyBefore(es, i)] == e
    && forall j :: i < j < |es| && PlacedAt(es, capped, j) ==> capped[NonemptyBefore(es, j)].0 != e.0
  }

  /** A map built from the first 32 entries holds exactly the last one of every key. */
  lemma BuiltFromFirst(es: Entries, capped: Entries, e: (Text, Text))
    requires |capped| == |FirstEntries(es)|
    ensures e in FromEntries([], capped) <==> exists i :: 0 <= i < |es| && LastFor(es, capped, i, e)
  {
    LastWins([], capped, e);
    FilterPlace(es, |es|);
    assert es[..|es|] == es;
    hide FromEntries, NonemptyKeys;
    if k :| 0 <= k < |capped| && capped[k] == e && Survives(capped, k) {
      var i := FilterSource(es, k, |es|);
      forall j | i < j < |es| && PlacedAt(es, capped, j) ensures capped[NonemptyBefore(es, j)].0 != e.0 {
        PlacesGrow(es, i, j);
      }
      assert LastFor(es, capped, i, e);
    }
    if i :| 0 <= i < |es| && LastFor(es, capped, i, e) {
      var k := NonemptyBefore(es, i);
      forall m | k < m < |capped| ensures capped[m].0 != e.0 {
        var j := FilterSource(es, m, |es|);
        if j <= i { PlacesGrow(es, j, i); }
        assert PlacedAt(es, capped, j);
      }
      assert Survives(capped, k);
    }
  }

  // ---- the wire event before shrinking ---------------------------------------

  function Shape(event: Event, app: Text, appVersion: Option<Text>): WireEvent
  {
    WireEvent(
      event.kind,
      if event.level.Some? then event.level.value else Info,
      Cap(if event.message.Some? then event.message.value else [], MAX_MESSAGE),
      SanitizeApp(app),
      CapOption(event.error, MAX_ERROR),
      CapOption(event.stack, MAX_STACK),
      CapOption(event.url, MAX_URL),
      CapOption(appVersion, MAX_APP_VERSION),
      ValidId(event.traceId, 32),
      ValidId(event.spanId, 16),
      ShapeContext(event.context))
  }

  // ---- serialization ---------------------------------------------------------

  function Opt(key: string, value: Option<Text>): seq<Member>
  {
    if value.Some? then [(Lit(key), Str(value.value))] else []
  }

  function OptContext(context: Option<Entries>): seq<Member>
  {
    if context.Some? then [(Lit("context"), Map(context.value))] else []
  }

  /** The properties of the wire object in insertion order. */
  function Members(w: WireEvent): seq<Member>
  {
    Head(w) + (Opt("error", w.error) + (Opt("stack", w.stack) + (Opt("url", w.url)
    + (Opt("app_version", w.appVersion) + (Opt("trace_id", w.traceId) + (Opt("span_id", w.spanId)
    + OptContext(w.context)))))))
  }

  /** `JSON.stringify(wire)` */
  function ToJson(w: WireEvent): Text { Stringify(Members(w)) }

  /** Bytes of an optional string member whose plain key has `key` characters. */
  function OptCost(key: nat, value: Option<Text>): nat
  {
    if value.Some? then key + 6 + JsonBytes(value.value) else 0
  }

  function ContextCost(context: Option<Entries>): nat
  {
    if context.None? then 0
    else if context.value == [] then 13
    else 12 + EntryCost(context.value)
  }

  /** The serialized size, field by field. */
  function Bytes(w: WireEvent): nat
  {
    44 + w.kind.NameLength() + w.level.NameLength() + JsonBytes(w.message) + JsonBytes(w.app)
    + OptCost(5, w.error) + OptCost(5, w.stack) + OptCost(3, w.url) + OptCost(11, w.appVersion)
    + OptCost(8, w.traceId) + OptCost(7, w.spanId) + ContextCost(w.context)
  }

  lemma OptCosts(key: string, value: Option<Text>)
    requires Plain(key)
    ensures Cost(Opt(key, value)) == OptCost(|key|, value)
  {
    PlainBytes(key);
    if value.Some? {
      assert Opt(key, value)[1..] == [];
    }
  }

  lemma ContextCosts(context: Option<Entries>)
    ensures Cost(OptContext(context)) == ContextCost(context)
  {
    PlainBytes("context");
    if context.Some? {
      assert OptContext(context)[1..] == [];
    }
  }

  function Head(w: WireEvent): seq<Member>
  {
    [(Lit("type"), Str(w.kind.Name())), (Lit("level"), Str(w.level.Name())),
     (Lit("message"), Str(w.message)), (Lit("app"), Str(w.app))]
  }

  lemma HeadCost(w: WireEvent)
    ensures Cost(Head(w)) == 43 + w.kind.NameLength() + w.level.NameLength() + JsonBytes(w.message) + JsonBytes(w.app)
  {
    hide Lit, JsonBytes;
    PlainBytes("type");
    PlainBytes("level");
    PlainBytes("message");
    PlainBytes("app");
    w.kind.NameBytes();
    w.level.NameBytes();
    var ms := Head(w);
    assert ms[1..][1..] == ms[2..] && ms[2..][1..] == ms[3..] && |ms[3..]| == 1;
    assert Cost(ms[3..]) == MemberCost(ms[3]);
    assert Cost(ms[2..]) == MemberCost(ms[2]) + Cost(ms[3..]);
    assert Cost(ms[1..]) == MemberCost(ms[1]) + Cost(ms[2..]);
  }

  /** `byteLength(JSON.stringify(wire))` is exactly this sum. */
  lemma BytesExact(w: WireEvent)
    ensures Utf8Len(ToJson(w)) == Bytes(w)
  {
    StringifyUtf8(Members(w));
    MembersCost(w);
  }

  lemma MembersCost(w: WireEvent)
    ensures Members(w) != [] && 1 + Cost(Members(w)) == Bytes(w)
  {
    hide Lit, JsonBytes, Cost;
    HeadCost(w);
    var c := OptContext(w.context);
    var s6 := Opt("span_id", w.spanId) + c;
    var s5 := Opt("trace_id", w.traceId) + s6;
    var s4 := Opt("app_version", w.appVersion) + s5;
    var s3 := Opt("url", w.url) + s4;
    var s2 := Opt("stack", w.stack) + s3;
    var s1 := Opt("error", w.error) + s2;
    CostConcat(Head(w), s1);
    CostConcat(Opt("error", w.error), s2);
    CostConcat(Opt("stack", w.stack), s3);
    CostConcat(Opt("url", w.url), s4);
    CostConcat(Opt("app_version", w.appVersion), s5);
    CostConcat(Opt("trace_id", w.traceId), s6);
    CostConcat(Opt("span_id", w.spanId), c);
    OptCosts("error", w.error);
    OptCosts("stack", w.stack);
    OptCosts("url", w.url);
    OptCosts("app_version", w.appVersion);
    OptCosts("trace_id", w.traceId);
    OptCosts("span_id", w.spanId);
    ContextCosts(w.context);
  }

  // ---- shrinking -------------------------------------------------------------

  datatype Field = StackField | ErrorField | UrlField | MessageField

  const SHRINK_ORDER: seq<Field> := [StackField, ErrorField, UrlField, MessageField]

  function Get(w: WireEvent, f: Field): Option<Text>
  {
    match f
    case StackField => w.stack
    case ErrorField => w.error
    case UrlField => w.url
    case MessageField => Some(w.message)
  }

  function Set(w: WireEvent, f: Field, v: Text): WireEvent
  {
    match f
    case StackField => w.(stack := Some(v))
    case ErrorField => w.(error := Some(v))
    case UrlField => w.(url := Some(v))
    case MessageField => w.(message := v)
  }

  function Overflow(w: WireEvent): int { Bytes(w) - MAX_EVENT_BYTES }

  function Max(a: int, b: int): int { if a < b then b else a }

  predicate Blank(value: Option<Text>) { value.None? || value.value == [] }

  /** One cut of one field, taken only while the event is too large. */
  function ShrinkField(w: WireEvent, f: Field): WireEvent
  {
    if Overflow(w) > 0 && !Blank(Get(w, f)) then
      var v := Get(w, f).value;
      Set(w, f, Cap(v, Max(0, |v| - Overflow(w))))
    else w
  }

  function ShrinkFrom(w: WireEvent, i: nat): WireEvent
    requires i <= |SHRINK_ORDER|
    decreases |SHRINK_ORDER| - i, w
  {
    if i == |SHRINK_ORDER| then w else ShrinkFrom(ShrinkField(w, SHRINK_ORDER[i]), i + 1)
  }

  /** `toWire` with at most one cut per field. */
  function Converted(event: Event, app: Text, appVersion: Option<Text>): WireEvent
  {
    var w := Shape(event, app, appVersion);
    if Overflow(w) <= 0 then w else ShrinkFrom(w.(context := None), 0)
  }

  lemma SetBytes(w: WireEvent, f: Field, v: Text)
    requires Get(w, f).Some?
    ensures Bytes(Set(w, f, v)) - Bytes(w) == JsonBytes(v) - JsonBytes(Get(w, f).value)
  {
  }

  /** One cut is enough: afterwards the event fits or the field is empty. */
  lemma OneCut(w: WireEvent, f: Field)
    ensures Overflow(ShrinkField(w, f)) <= 0 || Blank(Get(ShrinkField(w, f), f))
    ensures forall g :: g != f ==> Get(ShrinkField(w, f), g) == Get(w, g)
  {
    hide Bytes, Cap, JsonBytes;
    if Overflow(w) > 0 && !Blank(Get(w, f)) {
      var v := Get(w, f).value;
      var n := Overflow(w);
      CapCut(v, Max(0, |v| - n));
      SetBytes(w, f, Cap(v, Max(0, |v| - n)));
      if n <= |v| {
        CapRemoves(v, n);
      }
    }
  }

  /** `toWire`: the loop of the source, cutting while the event is too large. It
      computes `Converted`, so no field is ever cut twice. */
  method ToWire(event: Event, app: Text, appVersion: Option<Text>) returns (wire: WireEvent)
    ensures wire == Converted(event, app, appVersion)
    ensures Utf8Len(ToJson(wire)) <= MAX_EVENT_BYTES
  {
    hide Bytes, ToJson;
    ConvertedFits(event, app, appVersion);
    BytesExact(Converted(event, app, appVersion));
    wire := Shape(event, app, appVersion);
    BytesExact(wire);
    var overflow := Utf8Len(ToJson(wire)) - MAX_EVENT_BYTES;
    if overflow <= 0 { return; }

    wire := wire.(context := None);
    BytesExact(wire);
    overflow := Utf8Len(ToJson(wire)) - MAX_EVENT_BYTES;

    for i := 0 to |SHRINK_ORDER|
      invariant overflow == Overflow(wire)
      invariant ShrinkFrom(wire, i) == Converted(event, app, appVersion)
    {
      var field := SHRINK_ORDER[i];
      ghost var before := wire;
      var value := Get(wire, field);
      OneCut(before, field);
      while overflow > 0 && !Blank(value)
        invariant overflow == Overflow(wire) && value == Get(wire, field)
        invariant wire == before || (wire == ShrinkField(before, field) && (overflow <= 0 || Blank(value)))
        invariant overflow <= 0 || Blank(value) ==> wire == ShrinkField(before, field)
        decreases if value.Some? then |value.value| else 0
      {
        value := Some(Cap(value.value, Max(0, |value.value| - overflow)));
        wire := Set(wire, field, value.value);
        BytesExact(wire);
        overflow := Utf8Len(ToJson(wire)) - MAX_EVENT_BYTES;
      }
    }
  }

  // ---- what the loop guarantees ----------------------------------------------

  /** Fields before index `i` are spent. */
  predicate SpentBefore(w: WireEvent, i: nat)
  {
    forall j :: 0 <= j < i && j < |SHRINK_ORDER| ==> Blank(Get(w, SHRINK_ORDER[j]))
  }

  lemma {:induction false} ShrinkFromProperties(w: WireEvent, i: nat)
    requires i <= |SHRINK_ORDER|
    requires Overflow(w) <= 0 || SpentBefore(w, i)
    ensures var r := ShrinkFrom(w, i);
            && (Overflow(r) <= 0 || SpentBefore(r, |SHRINK_ORDER|))
            && (Overflow(w) <= 0 ==> r == w)
            && (forall j :: 0 <= j < i ==> Get(r, SHRINK_ORDER[j]) == Get(w, SHRINK_ORDER[j]))
            && r.(stack := w.stack, error := w.error, url := w.url, message := w.message) == w
    decreases |SHRINK_ORDER| - i
  {
    hide Bytes;
    if i < |SHRINK_ORDER| {
      var f := SHRINK_ORDER[i];
      OneCut(w, f);
      ShrinkFromProperties(ShrinkField(w, f), i + 1);
    }
  }

  /** Apart from the four texts and the context an event is small. */
  lemma SpentFits(w: WireEvent)
    requires w.context.None? && SpentBefore(w, |SHRINK_ORDER|)
    requires |w.app| <= MAX_APP && (w.appVersion.Some? ==> |w.appVersion.value| <= MAX_APP_VERSION)
    requires w.traceId.Some? ==> |w.traceId.value| <= 32
    requires w.spanId.Some? ==> |w.spanId.value| <= 16
    ensures Bytes(w) <= 2000
  {
    hide OptCost, JsonBytes;
    assert Blank(Get(w, SHRINK_ORDER[0])) && Blank(Get(w, SHRINK_ORDER[1]));
    assert Blank(Get(w, SHRINK_ORDER[2])) && Blank(Get(w, SHRINK_ORDER[3]));
    OptBound(5, w.error, 0);
    OptBound(5, w.stack, 0);
    OptBound(3, w.url, 0);
    OptBound(11, w.appVersion, 64);
    OptBound(8, w.traceId, 32);
    OptBound(7, w.spanId, 16);
    JsonBytesBounds(w.message);
    JsonBytesBounds(w.app);
  }

  lemma OptBound(key: nat, value: Option<Text>, max: nat)
    requires value.Some? ==> |value.value| <= max
    ensures OptCost(key, value) <= key + 6 + 6 * max
  {
    if value.Some? { JsonBytesBounds(value.value); }
  }

  /** Every event converts to at most `MAX_EVENT_BYTES` bytes, whatever its texts. */
  lemma ConvertedFits(event: Event, app: Text, appVersion: Option<Text>)
    ensures Bytes(Converted(event, app, appVersion)) <= MAX_EVENT_BYTES
  {
    var w := Shape(event, app, appVersion);
    if Overflow(w) > 0 {
      var start := w.(context := None);
      ShrinkFromProperties(start, 0);
      var r := ShrinkFrom(start, 0);
      if Overflow(r) > 0 {
        if appVersion.Some? { CapCut(appVersion.value, MAX_APP_VERSION); }
        SpentFits(r);
      }
    }
  }

  /** `r` shortens field `f` of `w`, if at all, at a cut that separates no pair. */
  predicate CleanPrefix(w: WireEvent, r: WireEvent, f: Field)
  {
    && Get(w, f).Some? == Get(r, f).Some?
    && (Get(w, f).Some? ==>
          && Get(r, f).value <= Get(w, f).value
          && !SplitsPair(Get(w, f).value, |Get(r, f).value|)
          && (WellFormed(Get(w, f).value) ==> WellFormed(Get(r, f).value)))
  }

  /** What the loop from index `i` on does to field `k`. */
  lemma {:induction false} ShrinkOrderFrom(w: WireEvent, i: nat, k: nat)
    requires i <= |SHRINK_ORDER| && k < |SHRINK_ORDER|
    requires Overflow(w) <= 0 || SpentBefore(w, i)
    ensures var r := ShrinkFrom(w, i);
            var f := SHRINK_ORDER[k];
            && CleanPrefix(w, r, f)
            && (Get(r, f) != Get(w, f) ==> SpentBefore(r, k) && Overflow(w) > 0)
            && (Get(r, f) != Get(w, f) && !Blank(Get(r, f)) ==>
                  forall m :: k < m < |SHRINK_ORDER| ==> Get(r, SHRINK_ORDER[m]) == Get(w, SHRINK_ORDER[m]))
    decreases |SHRINK_ORDER| - i
  {
    hide Bytes;
    ShrinkFromProperties(w, i);
    if i < |SHRINK_ORDER| {
      var next := ShrinkField(w, SHRINK_ORDER[i]);
      OneCut(w, SHRINK_ORDER[i]);
      if k == i {
        CutField(w, i);
      } else if Overflow(w) > 0 {
        ShrinkOrderFrom(next, i + 1, k);
      }
    }
  }

  lemma CutField(w: WireEvent, i: nat)
    requires i < |SHRINK_ORDER|
    requires Overflow(w) <= 0 || SpentBefore(w, i)
    ensures var r := ShrinkFrom(w, i);
            var f := SHRINK_ORDER[i];
            && CleanPrefix(w, r, f)
            && (Get(r, f) != Get(w, f) ==> SpentBefore(r, i) && Overflow(w) > 0)
            && (Get(r, f) != Get(w, f) && !Blank(Get(r, f)) ==>
                  forall m :: i < m < |SHRINK_ORDER| ==> Get(r, SHRINK_ORDER[m]) == Get(w, SHRINK_ORDER[m]))
  {
    hide Bytes, Cap, JsonBytes, WellFormed;
    var f := SHRINK_ORDER[i];
    var next := ShrinkField(w, f);
    OneCut(w, f);
    ShrinkFromProperties(next, i + 1);
    var r := ShrinkFrom(w, i);
    assert Get(r, f) == Get(next, f);
    if Overflow(w) > 0 && !Blank(Get(w, f)) {
      var v := Get(w, f).value;
      CapCut(v, Max(0, |v| - Overflow(w)));
    }
  }

  /** Order of sacrifice: an event that fits is untouched; otherwise the context
      goes first, and if that is enough nothing else changes; `stack`, `error`,
      `url`, `message` are then shortened in this order, each only when all earlier
      ones are empty or absent, and nothing after a partly kept field changes. */
  lemma SacrificeOrder(event: Event, app: Text, appVersion: Option<Text>)
    ensures var w := Shape(event, app, appVersion);
            var r := Converted(event, app, appVersion);
            && (Bytes(w) <= MAX_EVENT_BYTES ==> r == w)
            && (Bytes(w) > MAX_EVENT_BYTES ==> r.context.None?)
            && (Bytes(w) > MAX_EVENT_BYTES && Bytes(w.(context := None)) <= MAX_EVENT_BYTES ==>
                  r == w.(context := None))
            && r.(stack := w.stack, error := w.error, url := w.url, message := w.message, context := w.context) == w
            && forall k :: 0 <= k < |SHRINK_ORDER| ==>
                 var f := SHRINK_ORDER[k];
                 && CleanPrefix(w, r, f)
                 && (Get(r, f) != Get(w, f) ==> SpentBefore(r, k))
                 && (Get(r, f) != Get(w, f) && !Blank(Get(r, f)) ==>
                       forall m :: k < m < |SHRINK_ORDER| ==> Get(r, SHRINK_ORDER[m]) == Get(w, SHRINK_ORDER[m]))
  {
    hide Bytes;
    var w := Shape(event, app, appVersion);
    if Overflow(w) > 0 {
      var start := w.(context := None);
      ShrinkFromProperties(start, 0);
      forall k | 0 <= k < |SHRINK_ORDER|
        ensures var r := ShrinkFrom(start, 0);
                var f := SHRINK_ORDER[k];
                && CleanPrefix(w, r, f)
                && (Get(r, f) != Get(w, f) ==> SpentBefore(r, k))
                && (Get(r, f) != Get(w, f) && !Blank(Get(r, f)) ==>
                      forall m :: k < m < |SHRINK_ORDER| ==> Get(r, SHRINK_ORDER[m]) == Get(w, SHRINK_ORDER[m]))
      {
        ShrinkOrderFrom(start, 0, k);
        assert forall f :: Get(start, f) == Get(w, f);
      }
    } else {
      forall f ensures CleanPrefix(w, w, f) { }
    }
  }

  // ---- the wire event and the application's event ---------------------------------

  /** `kept` is there exactly when `given` is, and is a prefix of it. */
  predicate PrefixOption(kept: Option<Text>, given: Option<Text>)
  {
    kept.Some? == given.Some? && (kept.Some? ==> kept.value <= given.value)
  }

  /** A capped text is whole if it is within the cap, and else as long as the cap allows
      without ending in half a pair. */
  lemma CapOptionExact(value: Option<Text>, max: nat)
    ensures var r := CapOption(value, max);
            && PrefixOption(r, value)
            && (value.Some? && |value.value| <= max ==> r == value)
            && (value.Some? && |value.value| > max ==>
                  |r.value| == if max > 0 && High(value.value[max - 1]) then max - 1 else max)
  {
    if value.Some? { CapCut(value.value, max); }
  }

  /** Every text of the wire event comes from the field of the same name. If the event
      fits with every text cut only at its cap, that is what is sent. Otherwise the
      context goes, and if that is enough nothing else does; then the stack, the error,
      the url and the message are shortened, each only once all before it are gone. */
  lemma TextsKept(event: Event, app: Text, appVersion: Option<Text>)
    ensures var r := Converted(event, app, appVersion);
            var message := if event.message.Some? then event.message.value else [];
            && r.kind == event.kind && r.level == (if event.level.Some? then event.level.value else Info)
            && r.message <= message && PrefixOption(r.error, event.error) && PrefixOption(r.stack, event.stack)
            && PrefixOption(r.url, event.url) && r.appVersion == CapOption(appVersion, 64)
            && (r.error != CapOption(event.error, 2000) ==> Blank(r.stack))
            && (r.url != CapOption(event.url, 2000) ==> Blank(r.stack) && Blank(r.error))
            && (r.message != Cap(message, 2000) ==> Blank(r.stack) && Blank(r.error) && Blank(r.url))
    ensures var r := Converted(event, app, appVersion);
            var message := if event.message.Some? then event.message.value else [];
            var full := r.(message := Cap(message, 2000), error := CapOption(event.error, 2000),
                           stack := CapOption(event.stack, 8000), url := CapOption(event.url, 2000),
                           context := ShapeContext(event.context));
            && (Bytes(full) <= 16384 ==> r == full)
            && (Bytes(full) > 16384 ==> r.context.None?)
            && (Bytes(full) > 16384 && Bytes(full.(context := None)) <= 16384 ==> r == full.(context := None))
  {
    hide Bytes, ShapeContext, SanitizeApp, ValidId, Converted, JsonBytes, WellFormed, SplitsPair;
    var w := Shape(event, app, appVersion);
    var r := Converted(event, app, appVersion);
    SacrificeOrder(event, app, appVersion);
    ShrinkOrder(w, r);
    CapOptionPrefix(event.error, 2000);
    CapOptionPrefix(event.stack, 8000);
    CapOptionPrefix(event.url, 2000);
    CapCut(w.message, 2000);
    CapCut(if event.message.Some? then event.message.value else [], 2000);
    hide Cap, CapOption;
  }

  /** The order of sacrifice with its fields spelled out. */
  lemma ShrinkOrder(w: WireEvent, r: WireEvent)
    requires forall k :: 0 <= k < |SHRINK_ORDER| ==>
               && CleanPrefix(w, r, SHRINK_ORDER[k])
               && (Get(r, SHRINK_ORDER[k]) != Get(w, SHRINK_ORDER[k]) ==> SpentBefore(r, k))
    ensures PrefixOption(r.stack, w.stack) && PrefixOption(r.error, w.error) && PrefixOption(r.url, w.url)
    ensures r.message <= w.message
    ensures r.error != w.error ==> Blank(r.stack)
    ensures r.url != w.url ==> Blank(r.stack) && Blank(r.error)
    ensures r.message != w.message ==> Blank(r.stack) && Blank(r.error) && Blank(r.url)
  {
    hide SplitsPair, WellFormed;
    assert CleanPrefix(w, r, SHRINK_ORDER[0]) && CleanPrefix(w, r, SHRINK_ORDER[1]);
    assert CleanPrefix(w, r, SHRINK_ORDER[2]) && CleanPrefix(w, r, SHRINK_ORDER[3]);
    assert Get(r, SHRINK_ORDER[0]) == r.stack && Get(r, SHRINK_ORDER[1]) == r.error;
    assert Get(r, SHRINK_ORDER[2]) == r.url;
  }

  lemma CapOptionPrefix(given: Option<Text>, max: nat)
    ensures PrefixOption(CapOption(given, max), given)
  {
    if given.Some? { CapCut(given.value, max); }
  }

  /** The app name is the given one, character by character: those outside the alphabet
      become `_`, what is beyond 64 goes, and only an empty name becomes `web`. */
  lemma AppKept(event: Event, app: Text, appVersion: Option<Text>)
    ensures var r := Converted(event, app, appVersion).app;
            && (app == [] ==> r == Lit("web"))
            && (app != [] ==>
                  && |r| == (if |app| < 64 then |app| else 64)
                  && forall i :: 0 <= i < |r| ==> r[i] == if AppChar(app[i]) then app[i] else 0x5F)
  {
    hide Bytes, Converted, ShapeContext, ValidId, Lit;
    SacrificeOrder(event, app, appVersion);
    assert Converted(event, app, appVersion).app == Shape(event, app, appVersion).app;
    var clean := seq(|app|, i requires 0 <= i < |app| => if AppChar(app[i]) then app[i] else 0x5F);
    assert forall i :: 0 <= i < |clean| ==> !High(clean[i]);
    assert Cap(clean, 64) == if |clean| <= 64 then clean else clean[..64];
  }

  /** An id is sent exactly when its lowercase form is valid, and then in that form; an id
      that already is lowercase and valid is sent as it is. */
  lemma IdsKept(event: Event, app: Text, appVersion: Option<Text>)
    ensures var r := Converted(event, app, appVersion);
            && (r.traceId.Some? <==> event.traceId.Some? && HexId(Lower(event.traceId.value), 32))
            && (r.traceId.Some? ==> r.traceId.value == Lower(event.traceId.value))
            && (event.traceId.Some? && HexId(event.traceId.value, 32) ==> r.traceId == event.traceId)
            && (r.spanId.Some? <==> event.spanId.Some? && HexId(Lower(event.spanId.value), 16))
            && (r.spanId.Some? ==> r.spanId.value == Lower(event.spanId.value))
            && (event.spanId.Some? && HexId(event.spanId.value, 16) ==> r.spanId == event.spanId)
  {
    hide Bytes, Converted, ShapeContext, SanitizeApp, HexId, Lower;
    SacrificeOrder(event, app, appVersion);
  }

  predicate AnyCaseHex(u: int) { 0x30 <= u <= 0x39 || 0x41 <= u <= 0x46 || 0x61 <= u <= 0x66 }

  /** A text is a valid id up to its case. */
  predicate AnyCaseId(s: seq<int>, length: nat)
  {
    && |s| == length && (forall i :: 0 <= i < |s| ==> AnyCaseHex(s[i]))
    && exists i :: 0 <= i < |s| && s[i] != 0x30
  }

  /** Ids may be written in either case: each capital becomes its small letter. */
  lemma LowerId(s: Text, length: nat)
    ensures HexId(Lower(s), length) <==> AnyCaseId(s, length)
    ensures |Lower(s)| == |s|
    ensures forall i :: 0 <= i < |s| && AnyCaseHex(s[i]) ==>
              Lower(s)[i] == if s[i] <= 0x39 || s[i] >= 0x61 then s[i] else s[i] - 0x41 + 0x61
  {
    var t := Lower(s);
    assert forall i :: 0 <= i < |s| ==> (HexUnit(t[i]) <==> AnyCaseHex(s[i]));
    assert forall i :: 0 <= i < |s| ==> (t[i] == 0x30 <==> s[i] == 0x30);
  }

  /** Entry `i` of the context is sent as `e`: it is among the first 32 with a nonempty
      key, and no later one of those has the same key after truncation. */
  predicate SentAs(es: Entries, i: nat, e: (Text, Text))
    requires i < |es|
  {
    && Counts(es, i) && e == (Cap(es[i].0, 128), Cap(es[i].1, 1024))
    && forall j :: i < j < |es| && Counts(es, j) ==> Cap(es[j].0, 128) != e.0
  }

  /** A context that is sent holds exactly the last entry of every truncated key among the
      first 32 entries with a nonempty key; one is prepared exactly when there is any. */
  lemma ContextKept(event: Event, app: Text, appVersion: Option<Text>)
    ensures var r := Converted(event, app, appVersion).context;
            && (r.None? || r == ShapeContext(event.context))
            && (r.Some? ==>
                  event.context.Some? && forall e :: e in r.value <==>
                    exists i :: 0 <= i < |event.context.value| && SentAs(event.context.value, i, e))
    ensures ShapeContext(event.context).Some? <==>
              event.context.Some? && exists i :: 0 <= i < |event.context.value| && event.context.value[i].0 != []
  {
    hide Bytes, Converted, SanitizeApp, ValidId;
    TextsKept(event, app, appVersion);
    if event.context.Some? { ShapedFrom(event.context.value); }
  }

  lemma ShapedFrom(es: Entries)
    ensures ShapeContext(Some(es)).Some? <==> exists i :: 0 <= i < |es| && es[i].0 != []
    ensures ShapeContext(Some(es)).Some? ==>
              forall e :: e in ShapeContext(Some(es)).value <==> exists i :: 0 <= i < |es| && SentAs(es, i, e)
  {
    NonemptyKeysProperties(es);
    var first := FirstEntries(es);
    if first != [] { assert NonemptyKeys(es)[0] in NonemptyKeys(es); }
    if i :| 0 <= i < |es| && es[i].0 != [] { assert es[i] in NonemptyKeys(es); }
    var capped := CapEntries(first);
    forall e ensures e in FromEntries([], capped) <==> exists i :: 0 <= i < |es| && SentAs(es, i, e) {
      BuiltFromFirst(es, capped, e);
      forall i | 0 <= i < |es| ensures LastFor(es, capped, i, e) <==> SentAs(es, i, e) { SentPlace(es, i, e); }
    }
  }

  lemma CountsPlaced(es: Entries, i: nat)
    requires i < |es|
    ensures Counts(es, i) <==> es[i].0 != [] && NonemptyBefore(es, i) < |FirstEntries(es)|
    ensures Counts(es, i) ==> FirstEntries(es)[NonemptyBefore(es, i)] == es[i]
  {
    FilterPlace(es, i);
    hide NonemptyKeys, NonemptyBefore;
  }

  lemma SentPlace(es: Entries, i: nat, e: (Text, Text))
    requires i < |es|
    ensures LastFor(es, CapEntries(FirstEntries(es)), i, e) <==> SentAs(es, i, e)
  {
    hide FirstEntries, NonemptyBefore, Cap;
    var capped := CapEntries(FirstEntries(es));
    forall j | 0 <= j < |es|
      ensures PlacedAt(es, capped, j) <==> Counts(es, j)
      ensures Counts(es, j) ==> capped[NonemptyBefore(es, j)] == (Cap(es[j].0, 128), Cap(es[j].1, 1024))
    {
      CountsPlaced(es, j);
    }
    hide Counts, PlacedAt, CapEntries;
  }

  /** `signature`: what client-side deduplication compares. */
  function Signature(event: Event): Text
  {
    event.kind.Name() + Lit("|") + (if event.message.Some? then event.message.value else []) + Lit("|")
    + (if event.stack.Some? then event.stack.value else [])
  }

  const BAR: Unit := 0x7C

  lemma BarSplits(a: Text, b: Text, c: Text, d: Text)
    requires BAR !in a && BAR !in c && a + [BAR] + b == c + [BAR] + d
    ensures a == c && b == d
  {
    var s := a + [BAR] + b;
    assert s[|a|] == BAR && s[|c|] == BAR;
    assert forall i :: 0 <= i < |a| ==> s[i] == a[i] && s[i] in a;
    assert forall i :: 0 <= i < |c| ==> s[i] == c[i] && s[i] in c;
    assert |a| == |c|;
    assert s[..|a|] == a && s[..|c|] == c && s[|a| + 1..] == b && s[|c| + 1..] == d;
  }

  function OrEmpty(value: Option<Text>): Text { if value.Some? then value.value else [] }

  lemma NameTells(a: EventType, b: EventType)
    ensures BAR !in a.Name() && (a.Name() == b.Name() ==> a == b)
  {
    assert |Lit("log")| == 3 && |Lit("perf")| == 4 && |Lit("error")| == 5 && |Lit("event")| == 5;
    assert Lit("error")[1] == 0x72 && Lit("event")[1] == 0x76;
  }

  /** Events without a bar in the message have the same signature exactly when they agree
      in type, message and stack, an absent text counting as empty; the other fields
      never matter. */
  lemma SignatureTells(a: Event, b: Event)
    ensures a.kind == b.kind && OrEmpty(a.message) == OrEmpty(b.message) && OrEmpty(a.stack) == OrEmpty(b.stack) ==>
              Signature(a) == Signature(b)
    ensures BAR !in OrEmpty(a.message) && BAR !in OrEmpty(b.message) && Signature(a) == Signature(b) ==>
              a.kind == b.kind && OrEmpty(a.message) == OrEmpty(b.message) && OrEmpty(a.stack) == OrEmpty(b.stack)
  {
    NameTells(a.kind, b.kind);
    NameTells(b.kind, a.kind);
    SignatureParts(a);
    SignatureParts(b);
    if BAR !in OrEmpty(a.message) && BAR !in OrEmpty(b.message) && Signature(a) == Signature(b) {
      var restA := OrEmpty(a.message) + [BAR] + OrEmpty(a.stack);
      var restB := OrEmpty(b.message) + [BAR] + OrEmpty(b.stack);
      hide Signature, Lit, OrEmpty;
      BarSplits(a.kind.Name(), restA, b.kind.Name(), restB);
      BarSplits(OrEmpty(a.message), OrEmpty(a.stack), OrEmpty(b.message), OrEmpty(b.stack));
    }
  }

  lemma SignatureParts(a: Event)
    ensures Signature(a) == a.kind.Name() + [BAR] + (OrEmpty(a.message) + [BAR] + OrEmpty(a.stack))
  {
    assert Lit("|") == [BAR];
    hide Lit;
  }
}
