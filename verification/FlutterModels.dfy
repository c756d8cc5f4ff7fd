/** The Flutter client's event model (models.dart): `toJson` with its field caps and
    its three stages of shrinking. Unlike the React client it truncates with
    `substring`, which may separate a surrogate pair. */
module FlutterModels {
  import opened Wrappers
  import opened Utf16
  import opened Json
  import Wire

  const MAX_EVENT_BYTES := 16384
  const MAX_MESSAGE := 2000
  const MAX_ERROR := 2000
  const MAX_STACK := 8000
  const MAX_URL := 2000
  const MAX_APP := 64
  const MAX_CONTEXT_ENTRIES := 32
  const MAX_CONTEXT_KEY := 128
  const MAX_CONTEXT_VALUE := 1024
  /** The caps of the last stage. */
  const LAST_RESORT := 1000

  datatype Event = Event(
    kind: Text, level: Wire.Level, message: Text, error: Option<Text>, stack: Option<Text>, url: Option<Text>,
    traceId: Option<Text>, spanId: Option<Text>, context: Wire.Entries)

  datatype JsonEvent = JsonEvent(
    kind: Text, level: Wire.Level, message: Text, error: Option<Text>, stack: Option<Text>, url: Option<Text>,
    app: Option<Text>, appVersion: Option<Text>, traceId: Option<Text>, spanId: Option<Text>,
    context: Option<Wire.Entries>)

  /** `substring(0, max)` when longer. */
  function Cap(v: Text, max: nat): (r: Text)
    ensures |r| <= max && r <= v
  {
    if |v| > max then v[..max] else v
  }

  function CapOption(v: Option<Text>, max: nat): Option<Text>
  {
    if v.Some? then Some(Cap(v.value, max)) else None
  }

  /** `String.trim` */
  predicate Space(u: int)
  {
    9 <= u <= 13 || 0x2000 <= u <= 0x200A
    || u in [0x20, 0x85, 0xA0, 0x1680, 0x2028, 0x2029, 0x202F, 0x205F, 0x3000, 0xFEFF]
  }

  function TrimLeft(s: Text): Text { if s != [] && Space(s[0]) then TrimLeft(s[1..]) else s }

  function TrimRight(s: Text): Text { if s != [] && Space(s[|s| - 1]) then TrimRight(s[..|s| - 1]) else s }

  function ValidId(id: Option<Text>, length: nat): (r: Option<Text>)
    ensures r.Some? ==> Wire.HexId(r.value, length)
  {
    if id.None? then None
    else
      var v := Wire.Lower(TrimRight(TrimLeft(id.value)));
      if Wire.HexId(v, length) then Some(v) else None
  }

  predicate AppMatches(app: Text) { app != [] && forall i :: 0 <= i < |app| ==> Wire.AppChar(app[i]) }

  function CapEntries(es: Wire.Entries): (r: Wire.Entries)
    ensures |r| == |es|
  {
    seq(|es|, i requires 0 <= i < |es| => (Cap(es[i].0, MAX_CONTEXT_KEY), Cap(es[i].1, MAX_CONTEXT_VALUE)))
  }

  function ShapeContext(context: Wire.Entries): Option<Wire.Entries>
  {
    if context == [] then None else Some(Wire.FromEntries([], CapEntries(Wire.FirstEntries(context))))
  }

  /** The map before any shrinking. */
  function Shape(event: Event, app: Option<Text>, appVersion: Option<Text>): JsonEvent
  {
    JsonEvent(
      event.kind, event.level, Cap(event.message, MAX_MESSAGE), CapOption(event.error, MAX_ERROR),
      CapOption(event.stack, MAX_STACK), CapOption(event.url, MAX_URL),
      if app.Some? && AppMatches(app.value) then Some(Cap(app.value, MAX_APP)) else None,
      CapOption(appVersion, MAX_APP), ValidId(event.traceId, 32), ValidId(event.spanId, 16),
      ShapeContext(event.context))
  }

  // ---- serialization ---------------------------------------------------------

  function Members(j: JsonEvent): seq<Member>
  {
    [(Lit("type"), Str(j.kind)), (Lit("level"), Str(j.level.Name())), (Lit("message"), Str(j.message))]
    + (Wire.Opt("error", j.error) + (Wire.Opt("stack", j.stack) + (Wire.Opt("url", j.url)
    + (Wire.Opt("app", j.app) + (Wire.Opt("app_version", j.appVersion) + (Wire.Opt("trace_id", j.traceId)
    + (Wire.Opt("span_id", j.spanId) + Wire.OptContext(j.context))))))))
  }

  /** `_bytes`, member by member. */
  function Bytes(j: JsonEvent): nat
  {
    35 + JsonBytes(j.kind) + j.level.NameLength() + JsonBytes(j.message)
    + Wire.OptCost(5, j.error) + Wire.OptCost(5, j.stack) + Wire.OptCost(3, j.url) + Wire.OptCost(3, j.app)
    + Wire.OptCost(11, j.appVersion) + Wire.OptCost(8, j.traceId) + Wire.OptCost(7, j.spanId)
    + Wire.ContextCost(j.context)
  }

  lemma HeadCost(j: JsonEvent)
    ensures Cost([(Lit("type"), Str(j.kind)), (Lit("level"), Str(j.level.Name())), (Lit("message"), Str(j.message))])
         == 34 + JsonBytes(j.kind) + j.level.NameLength() + JsonBytes(j.message)
  {
    hide Lit, JsonBytes;
    PlainBytes("type");
    PlainBytes("level");
    PlainBytes("message");
    j.level.NameBytes();
    var ms: seq<Member> :=
      [(Lit("type"), Str(j.kind)), (Lit("level"), Str(j.level.Name())), (Lit("message"), Str(j.message))];
    assert ms[1..][1..] == ms[2..] && |ms[2..]| == 1;
    assert Cost(ms[2..]) == MemberCost(ms[2]);
    assert Cost(ms[1..]) == MemberCost(ms[1]) + Cost(ms[2..]);
  }

  /** `utf8.encode(jsonEncode(json)).length` is exactly this sum. */
  lemma BytesExact(j: JsonEvent)
    ensures Utf8Len(Encode(j)) == Bytes(j)
  {
    StringifyUtf8(Members(j));
    MembersCost(j);
  }

  lemma MembersCost(j: JsonEvent)
    ensures Members(j) != [] && 1 + Cost(Members(j)) == Bytes(j)
  {
    hide Lit, JsonBytes, Cost;
    HeadCost(j);
    var head: seq<Member> :=
      [(Lit("type"), Str(j.kind)), (Lit("level"), Str(j.level.Name())), (Lit("message"), Str(j.message))];
    var c := Wire.OptContext(j.context);
    var s7 := Wire.Opt("span_id", j.spanId) + c;
    var s6 := Wire.Opt("trace_id", j.traceId) + s7;
    var s5 := Wire.Opt("app_version", j.appVersion) + s6;
    var s4 := Wire.Opt("app", j.app) + s5;
    var s3 := Wire.Opt("url", j.url) + s4;
    var s2 := Wire.Opt("stack", j.stack) + s3;
    var s1 := Wire.Opt("error", j.error) + s2;
    CostConcat(head, s1);
    CostConcat(Wire.Opt("error", j.error), s2);
    CostConcat(Wire.Opt("stack", j.stack), s3);
    CostConcat(Wire.Opt("url", j.url), s4);
    CostConcat(Wire.Opt("app", j.app), s5);
    CostConcat(Wire.Opt("app_version", j.appVersion), s6);
    CostConcat(Wire.Opt("trace_id", j.traceId), s7);
    CostConcat(Wire.Opt("span_id", j.spanId), c);
    Wire.OptCosts("error", j.error);
    Wire.OptCosts("stack", j.stack);
    Wire.OptCosts("url", j.url);
    Wire.OptCosts("app", j.app);
    Wire.OptCosts("app_version", j.appVersion);
    Wire.OptCosts("trace_id", j.traceId);
    Wire.OptCosts("span_id", j.spanId);
    Wire.ContextCosts(j.context);
  }

  // ---- the three stages ------------------------------------------------------

  function DropContext(j: JsonEvent): JsonEvent
  {
    if Bytes(j) > MAX_EVENT_BYTES then j.(context := None) else j
  }

  /** How much of the stack the second stage keeps. */
  function StackKeep(j: JsonEvent): nat
    requires j.stack.Some?
  {
    if |j.stack.value| > Bytes(j) - MAX_EVENT_BYTES then |j.stack.value| - (Bytes(j) - MAX_EVENT_BYTES) else 0
  }

  function ShortenStack(j: JsonEvent): JsonEvent
  {
    if Bytes(j) > MAX_EVENT_BYTES && j.stack.Some? then j.(stack := Some(j.stack.value[..StackKeep(j)])) else j
  }

  function LastStage(j: JsonEvent): JsonEvent
  {
    if Bytes(j) > MAX_EVENT_BYTES then
      j.(stack := None, url := None, message := Cap(j.message, LAST_RESORT), error := CapOption(j.error, LAST_RESORT))
    else j
  }

  function Converted(event: Event, app: Option<Text>, appVersion: Option<Text>): JsonEvent
  {
    LastStage(ShortenStack(DropContext(Shape(event, app, appVersion))))
  }

  /** `jsonEncode(json)` */
  function Encode(j: JsonEvent): Text { Stringify(Members(j)) }

  method ToJson(event: Event, app: Option<Text>, appVersion: Option<Text>) returns (json: JsonEvent)
    ensures json == Converted(event, app, appVersion)
    ensures JsonBytes(event.kind) <= MAX_TYPE_BYTES ==> Utf8Len(Encode(json)) <= MAX_EVENT_BYTES
  {
    hide Bytes, Encode, Shape;
    json := Shape(event, app, appVersion);
    BytesExact(json);
    if Utf8Len(Encode(json)) > MAX_EVENT_BYTES { json := json.(context := None); }
    BytesExact(json);
    if Utf8Len(Encode(json)) > MAX_EVENT_BYTES && json.stack.Some? {
      var s := json.stack.value;
      var over := Utf8Len(Encode(json)) - MAX_EVENT_BYTES;
      json := json.(stack := Some(s[..if |s| - over > 0 then |s| - over else 0]));
    }
    BytesExact(json);
    if Utf8Len(Encode(json)) > MAX_EVENT_BYTES {
      json := json.(stack := None, url := None);
      json := json.(message := Cap(json.message, LAST_RESORT));
      if json.error.Some? { json := json.(error := Some(Cap(json.error.value, LAST_RESORT))); }
    }
    BytesExact(json);
    if JsonBytes(event.kind) <= MAX_TYPE_BYTES { ConvertedFits(event, app, appVersion); }
  }

  /** `signature` */
  function Signature(event: Event): Text
  {
    event.kind + Lit("|") + event.message + Lit("|") + (if event.stack.Some? then event.stack.value else [])
  }

  // ---- the byte bound --------------------------------------------------------

  /** Every type text of at most this many bytes leaves room for everything the last
      stage keeps; the four documented types have at most 5. */
  const MAX_TYPE_BYTES := 3781

  lemma AppBytes(app: Text)
    requires forall i :: 0 <= i < |app| ==> Wire.AppChar(app[i]) || HexUnit(app[i])
    ensures JsonBytes(app) == |app|
  {
    PlainTextBytes(app);
  }

  lemma SmallFits(r: JsonEvent)
    requires JsonBytes(r.kind) <= MAX_TYPE_BYTES && JsonBytes(r.message) <= 6 * LAST_RESORT
    requires r.stack.None? && r.url.None? && r.context.None?
    requires Wire.OptCost(5, r.error) <= 11 + 6 * LAST_RESORT && Wire.OptCost(3, r.app) <= 9 + MAX_APP
    requires Wire.OptCost(11, r.appVersion) <= 17 + 6 * MAX_APP
    requires Wire.OptCost(8, r.traceId) <= 46 && Wire.OptCost(7, r.spanId) <= 29
    ensures Bytes(r) <= MAX_EVENT_BYTES
  {
    hide JsonBytes, Wire.OptCost;
    NoneCost(5);
    NoneCost(3);
  }

  lemma LastStageFits(event: Event, app: Option<Text>, appVersion: Option<Text>, j: JsonEvent)
    requires JsonBytes(event.kind) <= MAX_TYPE_BYTES
    requires var w := Shape(event, app, appVersion);
             j.kind == w.kind && j.level == w.level && j.app == w.app && j.appVersion == w.appVersion
             && j.traceId == w.traceId && j.spanId == w.spanId && j.context.None?
    ensures Bytes(LastStage(j)) <= MAX_EVENT_BYTES
  {
    hide Bytes, JsonBytes, ShapeContext, ValidId, Wire.HexId, Wire.OptCost, Cap;
    var r := LastStage(j);
    if Bytes(j) > MAX_EVENT_BYTES {
      JsonBytesBounds(r.message);
      Wire.OptBound(5, r.error, LAST_RESORT);
      Wire.OptBound(11, r.appVersion, MAX_APP);
      AppCost(r.app, app);
      IdCost(8, r.traceId, 32, event.traceId);
      IdCost(7, r.spanId, 16, event.spanId);
      SmallFits(r);
    }
  }

  lemma NoneCost(key: nat)
    ensures Wire.OptCost(key, None) == 0
  {
  }

  lemma AppCost(kept: Option<Text>, given: Option<Text>)
    requires kept == if given.Some? && AppMatches(given.value) then Some(Cap(given.value, MAX_APP)) else None
    ensures Wire.OptCost(3, kept) <= 9 + MAX_APP
  {
    hide JsonBytes;
    if kept.Some? { AppBytes(kept.value); }
  }

  lemma IdCost(key: nat, kept: Option<Text>, length: nat, given: Option<Text>)
    requires kept == ValidId(given, length)
    ensures Wire.OptCost(key, kept) <= key + 6 + length
  {
    hide JsonBytes;
    if kept.Some? { AppBytes(kept.value); }
  }

  /** Every event ends within the byte limit, even where `substring` separates a
      surrogate pair and so makes the remaining text serialize longer. */
  lemma ConvertedFits(event: Event, app: Option<Text>, appVersion: Option<Text>)
    requires JsonBytes(event.kind) <= MAX_TYPE_BYTES
    ensures Bytes(Converted(event, app, appVersion)) <= MAX_EVENT_BYTES
  {
    hide Bytes;
    var w := Shape(event, app, appVersion);
    var w2 := ShortenStack(DropContext(w));
    if Bytes(w) > MAX_EVENT_BYTES {
      LastStageFits(event, app, appVersion, w2);
    }
  }

  /** The documented types are within that bound. */
  lemma DocumentedTypes(k: Wire.EventType)
    ensures JsonBytes(k.Name()) <= MAX_TYPE_BYTES
  {
    k.NameBytes();
  }

  // ---- where `substring` separates a pair ------------------------------------

  /** The second stage alone reaches the limit exactly when what it cuts off, less 8
      bytes for a separated pair, is worth the excess. The source's remark that
      cutting as many units as there are excess bytes is enough is this condition,
      and it can fail only at a separated pair. */
  lemma SecondStageExact(j: JsonEvent)
    requires j.stack.Some? && Bytes(j) > MAX_EVENT_BYTES
    ensures var s := j.stack.value;
            var k := StackKeep(j);
            var over := Bytes(j) - MAX_EVENT_BYTES;
            && (Bytes(ShortenStack(j)) <= MAX_EVENT_BYTES <==>
                  JsonBytes(s[k..]) >= over + if SplitsPair(s, k) then 8 else 0)
            && (over <= |s| && !SplitsPair(s, k) ==> Bytes(ShortenStack(j)) <= MAX_EVENT_BYTES)
  {
    hide JsonBytes;
    var s := j.stack.value;
    CutBytes(s, StackKeep(j));
    JsonBytesBounds(s[StackKeep(j)..]);
  }

  function Repeat(unit: Text, n: nat): Text { if n == 0 then [] else unit + Repeat(unit, n - 1) }

  /** `n` letters. */
  function Letters(n: nat): Text { Repeat([0x61], n) }

  /** `n` surrogate pairs. */
  function Emoji(n: nat): Text { Repeat([0xD83D, 0xDE00], n) }

  lemma {:induction false} LettersBytes(n: nat)
    ensures |Letters(n)| == n && JsonBytes(Letters(n)) == n && WellFormed(Letters(n))
    decreases n, n
  {
    if n == 0 {
    } else {
      LettersBytes(n - 1);
      assert Letters(n)[1..] == Letters(n - 1);
    }
  }

  lemma {:induction false} EmojiBytes(n: nat)
    ensures |Emoji(n)| == 2 * n && JsonBytes(Emoji(n)) == 4 * n && WellFormed(Emoji(n))
    decreases n, n
  {
    if n == 0 {
    } else {
      EmojiBytes(n - 1);
      assert Emoji(n)[2..] == Emoji(n - 1);
    }
  }

  lemma {:induction false} EmojiDrop(n: nat, k: nat)
    requires k <= n
    ensures |Emoji(n)| == 2 * n && Emoji(n)[2 * k..] == Emoji(n - k)
    decreases k, n
  {
    EmojiBytes(n);
    hide JsonBytes, WellFormed;
    if k > 0 {
      EmojiDrop(n - 1, k - 1);
      DropPair(Emoji(n), Emoji(n - 1), k);
    } else {
      assert Emoji(n)[0..] == Emoji(n);
    }
  }

  lemma DropPair(p: Text, q: Text, k: nat)
    requires 0 < k && 2 * k <= |p| && p == [0xD83D, 0xDE00] + q
    ensures p[2 * k..] == q[2 * (k - 1)..]
  {
  }

  lemma EmojiAt(n: nat, k: nat)
    requires k < n
    ensures |Emoji(n)| == 2 * n && High(Emoji(n)[2 * k]) && Low(Emoji(n)[2 * k + 1])
  {
    EmojiDrop(n, k);
    var t := Emoji(n)[2 * k..];
    assert t == [0xD83D, 0xDE00] + Emoji(n - k - 1);
    assert t[0] == Emoji(n)[2 * k] && t[1] == Emoji(n)[2 * k + 1];
  }

  /** A log event with a message and a stack only. */
  function Log(message: Text, stack: Text): Event
  {
    Event(Lit("log"), Wire.Info, message, None, Some(stack), None, None, None, [])
  }

  /** What it is converted to, if nothing is cut and `app` does not match the pattern. */
  function LogMap(message: Text, stack: Text): JsonEvent
  {
    JsonEvent(Lit("log"), Wire.Info, message, None, Some(stack), None, None, None, None, None, None)
  }

  lemma LogBytes(message: Text, stack: Text)
    ensures Bytes(LogMap(message, stack)) == 53 + JsonBytes(message) + JsonBytes(stack)
  {
    PlainBytes("log");
    hide JsonBytes, Lit;
  }

  lemma LogShape(message: Text, stack: Text, app: Option<Text>)
    requires |message| <= MAX_MESSAGE && |stack| <= MAX_STACK && (app.Some? ==> !AppMatches(app.value))
    ensures DropContext(Shape(Log(message, stack), app, None)) == LogMap(message, stack)
  {
    hide Bytes, Lit, AppMatches;
  }

  lemma LogShortened(message: Text, stack: Text)
    requires 53 + JsonBytes(message) + JsonBytes(stack) > MAX_EVENT_BYTES
    ensures var over := 53 + JsonBytes(message) + JsonBytes(stack) - MAX_EVENT_BYTES;
            var keep := if |stack| > over then |stack| - over else 0;
            ShortenStack(LogMap(message, stack)) == LogMap(message, stack[..keep])
  {
    LogBytes(message, stack);
    hide Bytes, Lit, JsonBytes;
  }

  /** An input where it fails: a 332-letter message and a stack of 4000 emoji leave
      one byte too many, the cut separates the last emoji, and 3 bytes too many
      remain. */
  lemma SecondStageCanFail()
    ensures var j := DropContext(Shape(Log(Letters(332), Emoji(4000)), None, None));
            Bytes(j) == MAX_EVENT_BYTES + 1 && Bytes(ShortenStack(j)) == MAX_EVENT_BYTES + 3
  {
    hide Letters, Emoji, JsonBytes, Bytes, Shape, WellFormed, Log, LogMap, ShortenStack, DropContext;
    LettersBytes(332);
    EmojiBytes(4000);
    EmojiAt(4000, 3999);
    LogShape(Letters(332), Emoji(4000), None);
    LogBytes(Letters(332), Emoji(4000));
    LogShortened(Letters(332), Emoji(4000));
    LastUnit(Emoji(4000));
    LogBytes(Letters(332), Emoji(4000)[..7999]);
  }

  /** Without its last unit, the second half of a pair, a text is 2 bytes longer. */
  lemma LastUnit(s: Text)
    requires |s| >= 2 && High(s[|s| - 2]) && Low(s[|s| - 1])
    ensures JsonBytes(s[..|s| - 1]) == JsonBytes(s) + 2
  {
    var k := |s| - 1;
    CutBytes(s, k);
    assert s[k..][1..] == [] && JsonBytes(s[k..]) == UnitBytes(s[k]) + JsonBytes([]);
  }

  // ---- which texts reach the gateway well formed -------------------------------

  /** The event as the last stage finds it. */
  function Shortened(event: Event, app: Option<Text>, appVersion: Option<Text>): JsonEvent
  {
    ShortenStack(DropContext(Shape(event, app, appVersion)))
  }

  /** Where the message and the error are cut, if they are longer. */
  function TextLimit(event: Event, app: Option<Text>, appVersion: Option<Text>, max: nat): nat
  {
    if Bytes(Shortened(event, app, appVersion)) > MAX_EVENT_BYTES then LAST_RESORT else max
  }

  /** Where the stack is cut, if it is longer. */
  function StackLimit(event: Event, app: Option<Text>, appVersion: Option<Text>): (n: nat)
    requires event.stack.Some?
    ensures n <= MAX_STACK
  {
    var j := DropContext(Shape(event, app, appVersion));
    if Bytes(j) > MAX_EVENT_BYTES then StackKeep(j) else MAX_STACK
  }

  /** `kept` is `original` cut after `limit` units, and for a well-formed original it
      is well formed exactly when that cut separates no pair. */
  predicate CutAt(kept: Text, original: Text, limit: nat)
  {
    && kept == (if |original| > limit then original[..limit] else original)
    && (WellFormed(original) ==> (WellFormed(kept) <==> !SplitsPair(original, limit)))
  }

  predicate CutOption(kept: Option<Text>, original: Option<Text>, limit: nat)
  {
    kept.Some? == original.Some? && (kept.Some? ==> CutAt(kept.value, original.value, limit))
  }

  lemma Cuts(original: Text, limit: nat)
    ensures CutAt(Cap(original, limit), original, limit)
  {
    if |original| > limit && WellFormed(original) { CutWellFormed(original, limit); }
  }

  lemma CapCap(v: Text, a: nat, b: nat)
    requires b <= a
    ensures Cap(Cap(v, a), b) == Cap(v, b)
  {
  }

  lemma CutsOption(original: Option<Text>, limit: nat)
    ensures CutOption(CapOption(original, limit), original, limit)
  {
    if original.Some? { Cuts(original.value, limit); }
  }

  lemma StackCut(event: Event, app: Option<Text>, appVersion: Option<Text>)
    requires event.stack.Some?
    ensures Shortened(event, app, appVersion).stack == Some(Cap(event.stack.value, StackLimit(event, app, appVersion)))
  {
    hide Bytes, ShapeContext, ValidId;
    var j := DropContext(Shape(event, app, appVersion));
    var v := j.stack.value;
    if Bytes(j) > MAX_EVENT_BYTES { assert v[..StackKeep(j)] == Cap(event.stack.value, StackKeep(j)); }
  }

  /** Every text that is sent is a prefix of the original text, cut where the stages
      say, and well formed exactly when that cut separates no pair. */
  lemma FinalTexts(event: Event, app: Option<Text>, appVersion: Option<Text>)
    ensures var r := Converted(event, app, appVersion);
            && CutAt(r.message, event.message, TextLimit(event, app, appVersion, MAX_MESSAGE))
            && CutOption(r.error, event.error, TextLimit(event, app, appVersion, MAX_ERROR))
            && CutOption(r.appVersion, appVersion, MAX_APP)
            && (if Bytes(Shortened(event, app, appVersion)) > MAX_EVENT_BYTES then r.stack.None? && r.url.None?
                else
                  && CutOption(r.url, event.url, MAX_URL)
                  && r.stack.Some? == event.stack.Some?
                  && (r.stack.Some? ==> CutAt(r.stack.value, event.stack.value, StackLimit(event, app, appVersion))))
            && (r.context == if Bytes(Shape(event, app, appVersion)) > MAX_EVENT_BYTES then None
                             else ShapeContext(event.context))
            && r.kind == event.kind
  {
    hide Bytes, ShapeContext, ValidId, CutAt, Cap;
    CapCap(event.message, MAX_MESSAGE, LAST_RESORT);
    if event.error.Some? { CapCap(event.error.value, MAX_ERROR, LAST_RESORT); }
    Cuts(event.message, TextLimit(event, app, appVersion, MAX_MESSAGE));
    CutsOption(event.error, TextLimit(event, app, appVersion, MAX_ERROR));
    CutsOption(appVersion, MAX_APP);
    CutsOption(event.url, MAX_URL);
    if event.stack.Some? {
      Cuts(event.stack.value, StackLimit(event, app, appVersion));
      StackCut(event, app, appVersion);
    }
  }

  predicate CleanContext(context: Wire.Entries)
  {
    var kept := Wire.FirstEntries(context);
    forall i :: 0 <= i < |kept| && Wire.Survives(CapEntries(kept), i) ==>
      !SplitsPair(kept[i].0, MAX_CONTEXT_KEY) && !SplitsPair(kept[i].1, MAX_CONTEXT_VALUE)
  }

  predicate CleanOption(original: Option<Text>, limit: nat)
  {
    original.Some? ==> !SplitsPair(original.value, limit)
  }

  /** No cut that the stages make separates a pair. */
  predicate CleanCuts(event: Event, app: Option<Text>, appVersion: Option<Text>)
  {
    && !SplitsPair(event.message, TextLimit(event, app, appVersion, MAX_MESSAGE))
    && CleanOption(event.error, TextLimit(event, app, appVersion, MAX_ERROR))
    && CleanOption(appVersion, MAX_APP)
    && (Bytes(Shortened(event, app, appVersion)) <= MAX_EVENT_BYTES ==>
          && CleanOption(event.url, MAX_URL)
          && (event.stack.Some? ==> !SplitsPair(event.stack.value, StackLimit(event, app, appVersion))))
    && (Bytes(Shape(event, app, appVersion)) <= MAX_EVENT_BYTES ==> CleanContext(event.context))
  }

  predicate WellFormedEntries(es: Wire.Entries) { forall e :: e in es ==> Wire.EntryWellFormed(e) }

  predicate WellFormedInput(event: Event, appVersion: Option<Text>)
  {
    && WellFormed(event.kind) && WellFormed(event.message) && WellFormedOption(event.error)
    && WellFormedOption(event.stack) && WellFormedOption(event.url) && WellFormedOption(appVersion)
    && WellFormedEntries(event.context)
  }

  /** No lone surrogate in any text of the map; ids and `app` cannot hold one. */
  predicate Readable(j: JsonEvent)
  {
    && WellFormed(j.kind) && WellFormed(j.message) && WellFormedOption(j.error) && WellFormedOption(j.stack)
    && WellFormedOption(j.url) && WellFormedOption(j.appVersion)
    && (j.context.Some? ==> WellFormedEntries(j.context.value))
  }

  /** From well-formed text the client sends well-formed text exactly when none of its
      cuts separates a pair. */
  lemma ReadableExactly(event: Event, app: Option<Text>, appVersion: Option<Text>)
    requires WellFormedInput(event, appVersion)
    ensures Readable(Converted(event, app, appVersion)) <==> CleanCuts(event, app, appVersion)
  {
    FinalTexts(event, app, appVersion);
    ContextReadable(event.context);
    hide Converted, Shape, Shortened, Bytes, TextLimit, StackLimit, ShapeContext, CleanContext, SplitsPair;
    hide WellFormedEntries, WellFormed, Cap;
  }

  lemma EntriesCut(es: Wire.Entries, i: nat)
    requires i < |es| && Wire.EntryWellFormed(es[i])
    ensures Wire.EntryWellFormed(CapEntries(es)[i]) <==>
              !SplitsPair(es[i].0, MAX_CONTEXT_KEY) && !SplitsPair(es[i].1, MAX_CONTEXT_VALUE)
  {
    Cuts(es[i].0, MAX_CONTEXT_KEY);
    Cuts(es[i].1, MAX_CONTEXT_VALUE);
    hide WellFormed, SplitsPair, Cap;
  }

  /** The entries of a map built from `es` are all well formed exactly when the last
      entries of every key are. */
  lemma BuiltWellFormed(es: Wire.Entries)
    ensures WellFormedEntries(Wire.FromEntries([], es)) <==>
              forall i :: 0 <= i < |es| && Wire.Survives(es, i) ==> Wire.EntryWellFormed(es[i])
  {
    hide Wire.Survives, Wire.EntryWellFormed, Wire.FromEntries;
    var r := Wire.FromEntries([], es);
    forall i | 0 <= i < |es| && Wire.Survives(es, i) ensures es[i] in r { Wire.LastWins([], es, es[i]); }
    forall e | e in r ensures exists i :: 0 <= i < |es| && es[i] == e && Wire.Survives(es, i) {
      Wire.LastWins([], es, e);
    }
  }

  lemma ContextReadable(context: Wire.Entries)
    requires WellFormedEntries(context)
    ensures ShapeContext(context).Some? ==> (WellFormedEntries(ShapeContext(context).value) <==> CleanContext(context))
    ensures ShapeContext(context).None? ==> CleanContext(context)
  {
    var kept := Wire.FirstEntries(context);
    Wire.NonemptyKeysProperties(context);
    BuiltWellFormed(CapEntries(kept));
    hide Wire.Survives, SplitsPair, Wire.EntryWellFormed, Wire.FromEntries, CapEntries;
    forall i | 0 <= i < |kept|
      ensures Wire.EntryWellFormed(CapEntries(kept)[i]) <==>
                !SplitsPair(kept[i].0, MAX_CONTEXT_KEY) && !SplitsPair(kept[i].1, MAX_CONTEXT_VALUE)
    {
      assert kept[i] in Wire.NonemptyKeys(context);
      EntriesCut(kept, i);
    }
  }

  /** The context that is sent satisfies the gateway's entry, key and value caps. */
  lemma ContextWithin(context: Wire.Entries)
    ensures var r := ShapeContext(context);
            r.Some? ==> |r.value| <= MAX_CONTEXT_ENTRIES && forall e :: e in r.value ==> Wire.EntryWithin(e)
  {
    var kept := Wire.FirstEntries(context);
    var capped := CapEntries(kept);
    Wire.NonemptyKeysProperties(context);
    Wire.FromEntriesProperties([], capped);
    forall e | e in capped ensures Wire.EntryWithin(e) {
      var i :| 0 <= i < |kept| && capped[i] == e;
      assert kept[i] in Wire.NonemptyKeys(context);
    }
  }

  /** The fields that no stage shortens. */
  lemma ConvertedRest(event: Event, app: Option<Text>, appVersion: Option<Text>)
    ensures var r := Converted(event, app, appVersion);
            && r.kind == event.kind
            && (r.app.Some? ==>
                  0 < |r.app.value| <= MAX_APP && forall i :: 0 <= i < |r.app.value| ==> Wire.AppChar(r.app.value[i]))
            && (r.traceId.Some? ==> Wire.HexId(r.traceId.value, 32))
            && (r.spanId.Some? ==> Wire.HexId(r.spanId.value, 16))
            && (r.context.None? || r.context == ShapeContext(event.context))
  {
    hide Bytes, ShapeContext, Wire.HexId;
  }

  /** A well-formed event that is sent with a lone surrogate: no cap touches its
      texts, and the second stage leaves 7991 units of 4000 emoji. */
  lemma SecondStageSeparates()
    ensures var event := Log(Letters(340), Emoji(4000));
            var r := Converted(event, None, None);
            && WellFormedInput(event, None) && !Readable(r)
            && r.stack == CapOption(event.stack, 7991) && Bytes(r) <= MAX_EVENT_BYTES
  {
    hide Letters, Emoji, Converted, Readable, Bytes, JsonBytes, WellFormed, WellFormedInput, Log;
    LettersBytes(340);
    EmojiBytes(4000);
    EmojiCut(4000, 3995);
    EmojiAt(4000, 3995);
    LogSeparated(Letters(340), Emoji(4000), 7991);
  }

  lemma LogSeparated(message: Text, stack: Text, k: nat)
    requires |message| <= MAX_MESSAGE && 0 < k < |stack| <= MAX_STACK && High(stack[k - 1]) && Low(stack[k])
    requires WellFormed(message) && WellFormed(stack)
    requires var over := 53 + JsonBytes(message) + JsonBytes(stack) - MAX_EVENT_BYTES; over > 0 && k == |stack| - over
    requires 53 + JsonBytes(message) + JsonBytes(stack[..k]) <= MAX_EVENT_BYTES
    ensures var event := Log(message, stack);
            var r := Converted(event, None, None);
            && WellFormedInput(event, None) && !Readable(r)
            && r.stack == CapOption(event.stack, k) && Bytes(r) <= MAX_EVENT_BYTES
  {
    hide WellFormed, Converted, Bytes, JsonBytes, WellFormedInput;
    LogWellFormed(message, stack);
    LogCut(message, stack, k);
    CutWellFormed(stack, k);
    hide Lit;
  }

  /** What the second stage does to a log that only it has to shorten. */
  lemma LogCut(message: Text, stack: Text, k: nat)
    requires |message| <= MAX_MESSAGE && k <= |stack| <= MAX_STACK
    requires var over := 53 + JsonBytes(message) + JsonBytes(stack) - MAX_EVENT_BYTES; over > 0 && k == |stack| - over
    requires 53 + JsonBytes(message) + JsonBytes(stack[..k]) <= MAX_EVENT_BYTES
    ensures Converted(Log(message, stack), None, None) == LogMap(message, stack[..k])
    ensures Bytes(LogMap(message, stack[..k])) <= MAX_EVENT_BYTES
  {
    hide JsonBytes, Bytes, Shape, Lit, ShortenStack, DropContext;
    LogShape(message, stack, None);
    LogShortened(message, stack);
    LogBytes(message, stack[..k]);
  }

  lemma LogWellFormed(message: Text, stack: Text)
    requires WellFormed(message) && WellFormed(stack)
    ensures WellFormedInput(Log(message, stack), None)
  {
    hide WellFormed;
    DecodeAscii(Lit("log"));
  }

  /** A cut in the middle of pair `k`. */
  lemma EmojiCut(n: nat, k: nat)
    requires k < n
    ensures |Emoji(n)| == 2 * n && JsonBytes(Emoji(n)[..2 * k + 1]) == 4 * k + 6
  {
    hide Emoji, JsonBytes, WellFormed;
    var s := Emoji(n);
    EmojiBytes(n);
    EmojiBytes(n - k - 1);
    EmojiAt(n, k);
    EmojiDrop(n, k + 1);
    CutBytes(s, 2 * k + 1);
    FirstUnit(s, 2 * k + 1);
  }

  lemma FirstUnit(s: Text, k: nat)
    requires k < |s| && Low(s[k])
    ensures JsonBytes(s[k..]) == 6 + JsonBytes(s[k + 1..])
  {
    assert s[k..][0] == s[k] && s[k..][1..] == s[k + 1..];
  }

  // ---- deduplication -------------------------------------------------------------

  /** Events without a bar in type and message have the same signature exactly when they
      agree in type, message and stack, an absent stack counting as empty; the other
      fields never matter. */
  lemma SignatureTells(a: Event, b: Event)
    ensures a.kind == b.kind && a.message == b.message && Wire.OrEmpty(a.stack) == Wire.OrEmpty(b.stack) ==>
              Signature(a) == Signature(b)
    ensures Wire.BAR !in a.kind + a.message && Wire.BAR !in b.kind + b.message && Signature(a) == Signature(b) ==>
              a.kind == b.kind && a.message == b.message && Wire.OrEmpty(a.stack) == Wire.OrEmpty(b.stack)
  {
    SignatureParts(a);
    SignatureParts(b);
    if Wire.BAR !in a.kind + a.message && Wire.BAR !in b.kind + b.message && Signature(a) == Signature(b) {
      var restA := a.message + [Wire.BAR] + Wire.OrEmpty(a.stack);
      var restB := b.message + [Wire.BAR] + Wire.OrEmpty(b.stack);
      hide Signature, Wire.OrEmpty;
      Wire.BarSplits(a.kind, restA, b.kind, restB);
      Wire.BarSplits(a.message, Wire.OrEmpty(a.stack), b.message, Wire.OrEmpty(b.stack));
    }
  }

  lemma SignatureParts(a: Event)
    ensures Signature(a) == a.kind + [Wire.BAR] + (a.message + [Wire.BAR] + Wire.OrEmpty(a.stack))
  {
    assert Lit("|") == [Wire.BAR];
    hide Lit;
  }

  // ---- the sent event and the application's event ----------------------------------

  function Trim(s: Text): Text { TrimRight(TrimLeft(s)) }

  /** `trim` removes exactly the white space at both ends. */
  predicate Trims(s: Text, t: Text)
  {
    && (t == [] || (!Space(t[0]) && !Space(t[|t| - 1])))
    && exists i, j :: 0 <= i <= j <= |s| && s[i..j] == t && Spaces(s[..i]) && Spaces(s[j..])
  }

  predicate Spaces(s: Text) { forall k :: 0 <= k < |s| ==> Space(s[k]) }

  lemma {:induction false} TrimLeftExact(s: Text) returns (i: nat)
    ensures i <= |s| && TrimLeft(s) == s[i..] && Spaces(s[..i]) && (i < |s| ==> !Space(s[i]))
  {
    if s != [] && Space(s[0]) {
      i := TrimLeftExact(s[1..]);
      assert s[1..][..i] == s[1..i + 1] && s[..i + 1] == [s[0]] + s[1..i + 1];
      i := i + 1;
    } else {
      i := 0;
    }
  }

  lemma {:induction false} TrimRightExact(s: Text) returns (j: nat)
    ensures j <= |s| && TrimRight(s) == s[..j] && Spaces(s[j..]) && (j > 0 ==> !Space(s[j - 1]))
  {
    var n := |s| - 1;
    if s != [] && Space(s[n]) {
      var t := s[..n];
      j := TrimRightExact(t);
      hide Space;
      assert t[..j] == s[..j] && s[j..] == t[j..] + [s[n]];
      assert j > 0 ==> t[j - 1] == s[j - 1];
    } else {
      j := |s|;
      assert s[..j] == s && s[j..] == [];
    }
  }

  lemma TrimExact(s: Text)
    ensures Trims(s, Trim(s))
  {
    var i := TrimLeftExact(s);
    var j := TrimRightExact(s[i..]);
    hide TrimLeft, TrimRight, Space;
    assert s[i..][..j] == s[i..i + j] && s[i..][j..] == s[i + j..];
    if j > 0 { assert s[i..][j - 1] == s[i + j - 1] && s[i..i + j][0] == s[i]; }
  }

  /** The level is the event's. An id is sent exactly when its trimmed, lowercased form is
      valid, and then in that form; one that already has that form is sent as it is. The
      app is sent exactly when it is given, nonempty and within the alphabet, as its
      first 64 characters. */
  lemma IdsAndAppKept(event: Event, app: Option<Text>, appVersion: Option<Text>)
    ensures var r := Converted(event, app, appVersion);
            && r.level == event.level && r.appVersion == CapOption(appVersion, 64)
            && (r.traceId.Some? <==> event.traceId.Some? && Wire.HexId(Wire.Lower(Trim(event.traceId.value)), 32))
            && (r.traceId.Some? ==> r.traceId.value == Wire.Lower(Trim(event.traceId.value)))
            && (event.traceId.Some? && Wire.HexId(event.traceId.value, 32) ==> r.traceId == event.traceId)
            && (r.spanId.Some? <==> event.spanId.Some? && Wire.HexId(Wire.Lower(Trim(event.spanId.value)), 16))
            && (r.spanId.Some? ==> r.spanId.value == Wire.Lower(Trim(event.spanId.value)))
            && (event.spanId.Some? && Wire.HexId(event.spanId.value, 16) ==> r.spanId == event.spanId)
    ensures var r := Converted(event, app, appVersion);
            && (r.app.Some? <==>
                  app.Some? && app.value != [] && forall i :: 0 <= i < |app.value| ==> Wire.AppChar(app.value[i]))
            && (r.app.Some? ==> r.app.value == if |app.value| <= 64 then app.value else app.value[..64])
  {
    NothingShortens(event, app, appVersion);
    hide Converted, Wire.HexId, TrimLeft, TrimRight, Wire.Lower, Wire.AppChar;
    if event.traceId.Some? { HexTrimmed(event.traceId.value, 32); }
    if event.spanId.Some? { HexTrimmed(event.spanId.value, 16); }
  }

  lemma NothingShortens(event: Event, app: Option<Text>, appVersion: Option<Text>)
    ensures var r := Converted(event, app, appVersion);
            && r.level == event.level && r.appVersion == CapOption(appVersion, 64)
            && r.traceId == ValidId(event.traceId, 32) && r.spanId == ValidId(event.spanId, 16)
            && r.app == if app.Some? && AppMatches(app.value) then Some(Cap(app.value, MAX_APP)) else None
  {
    hide Bytes, ShapeContext, ValidId, AppMatches, Cap, CapOption;
  }

  /** Where the last stage ran, stack and url are gone and 1000 units are left of the
      message and the error. */
  lemma LastResort(event: Event, app: Option<Text>, appVersion: Option<Text>)
    requires var r := Converted(event, app, appVersion);
             r.stack.Some? != event.stack.Some? || r.url.Some? != event.url.Some?
    ensures var r := Converted(event, app, appVersion);
            && r.stack.None? && r.url.None? && r.context.None?
            && r.message == Cap(event.message, 1000) && r.error == CapOption(event.error, 1000)
  {
    hide Bytes, ShapeContext, ValidId, AppMatches, CutAt, WellFormed, Converted;
    FinalTexts(event, app, appVersion);
    LastResortContext(event, app, appVersion);
    hide Cap;
  }

  lemma LastResortContext(event: Event, app: Option<Text>, appVersion: Option<Text>)
    ensures Bytes(Shortened(event, app, appVersion)) > MAX_EVENT_BYTES ==>
              var r := Converted(event, app, appVersion);
              && r.context.None?
              && r.message == Cap(event.message, 1000) && r.error == CapOption(event.error, 1000)
  {
    hide Bytes, ShapeContext, ValidId, AppMatches, Cap;
    CapCap(event.message, MAX_MESSAGE, LAST_RESORT);
    if event.error.Some? { CapCap(event.error.value, MAX_ERROR, LAST_RESORT); }
  }

  lemma HexTrimmed(id: Text, length: nat)
    requires length > 0
    ensures Wire.HexId(id, length) ==> Wire.Lower(Trim(id)) == id
  {
    if Wire.HexId(id, length) {
      assert TrimLeft(id) == id && TrimRight(id) == id;
      assert |Wire.Lower(id)| == |id|;
    }
  }

  /** Entry `i` of the context is sent as `e`: it is among the first 32 with a nonempty
      key, and no later one of those has the same key after truncation. */
  predicate SentAs(es: Wire.Entries, i: nat, e: (Text, Text))
    requires i < |es|
  {
    && Wire.Counts(es, i) && e == (Cap(es[i].0, 128), Cap(es[i].1, 1024))
    && forall j :: i < j < |es| && Wire.Counts(es, j) ==> Cap(es[j].0, 128) != e.0
  }

  lemma SentPlace(es: Wire.Entries, i: nat, e: (Text, Text))
    requires i < |es|
    ensures Wire.LastFor(es, CapEntries(Wire.FirstEntries(es)), i, e) <==> SentAs(es, i, e)
  {
    hide Wire.FirstEntries, Wire.NonemptyBefore, Cap;
    var capped := CapEntries(Wire.FirstEntries(es));
    forall j | 0 <= j < |es|
      ensures Wire.PlacedAt(es, capped, j) <==> Wire.Counts(es, j)
      ensures Wire.Counts(es, j) ==> capped[Wire.NonemptyBefore(es, j)] == (Cap(es[j].0, 128), Cap(es[j].1, 1024))
    {
      Wire.CountsPlaced(es, j);
    }
    hide Wire.Counts, Wire.PlacedAt, CapEntries;
  }

  /** A context that is sent holds exactly the last entry of every truncated key among the
      first 32 entries with a nonempty key. If the event fits with every text cut only at
      its cap, that is what is sent, the context included when one is given; otherwise
      the context goes. */
  lemma ContextKept(event: Event, app: Option<Text>, appVersion: Option<Text>)
    ensures var r := Converted(event, app, appVersion);
            && (r.context.Some? ==>
                  event.context != [] && forall e :: e in r.context.value <==>
                    exists i :: 0 <= i < |event.context| && SentAs(event.context, i, e))
            && var full := r.(message := Cap(event.message, 2000), error := CapOption(event.error, 2000),
                              stack := CapOption(event.stack, 8000), url := CapOption(event.url, 2000),
                              context := ShapeContext(event.context));
               && (Bytes(full) <= 16384 ==> r == full)
               && (Bytes(full) > 16384 ==> r.context.None?)
               && (Bytes(full) > 16384 && Bytes(full.(context := None)) <= 16384 ==> r == full.(context := None))
    ensures ShapeContext(event.context).Some? <==> event.context != []
  {
    FullEvent(event, app, appVersion);
    var es := event.context;
    var capped := CapEntries(Wire.FirstEntries(es));
    hide Bytes, Converted, Wire.FromEntries, SentAs, Wire.LastFor;
    if es != [] {
      forall e ensures e in Wire.FromEntries([], capped) <==> exists i :: 0 <= i < |es| && SentAs(es, i, e) {
        Wire.BuiltFromFirst(es, capped, e);
        forall i | 0 <= i < |es| ensures Wire.LastFor(es, capped, i, e) <==> SentAs(es, i, e) { SentPlace(es, i, e); }
      }
    }
  }

  lemma FullEvent(event: Event, app: Option<Text>, appVersion: Option<Text>)
    ensures var r := Converted(event, app, appVersion);
            var full := r.(message := Cap(event.message, 2000), error := CapOption(event.error, 2000),
                           stack := CapOption(event.stack, 8000), url := CapOption(event.url, 2000),
                           context := ShapeContext(event.context));
            && full == Shape(event, app, appVersion)
            && (Bytes(full) <= 16384 ==> r == full)
            && (Bytes(full) > 16384 ==> r.context.None?)
            && (Bytes(full) > 16384 && Bytes(full.(context := None)) <= 16384 ==> r == full.(context := None))
  {
    hide Bytes, ShapeContext, ValidId, AppMatches, Cap, CapOption;
  }
}
