/** From the text of a request body to the events that are validated (ingest.py): the
    members of every event object are assigned to the fields of their names. */
module Decoding {
  import opened Wrappers
  import opened Utf16
  import opened Json
  import opened JsonReader
  import opened IngestModels
  import opened Contract
  import FM = FlutterModels
  import Wire

  const NOTHING := RawEvent(None, None, None, None, None, None, None, None, None, None, None)

  /** A string member. Members of other names are ignored; `context` must be an object. */
  function AssignText(raw: RawEvent, key: Text, v: Str): Option<RawEvent>
  {
    if key == Lit("type") then Some(raw.(kind := Some(v)))
    else if key == Lit("level") then Some(raw.(level := Some(v)))
    else if key == Lit("message") then Some(raw.(message := Some(v)))
    else if key == Lit("error") then Some(raw.(error := Some(v)))
    else if key == Lit("stack") then Some(raw.(stack := Some(v)))
    else if key == Lit("url") then Some(raw.(url := Some(v)))
    else if key == Lit("app") then Some(raw.(app := Some(v)))
    else if key == Lit("app_version") then Some(raw.(appVersion := Some(v)))
    else if key == Lit("trace_id") then Some(raw.(traceId := Some(v)))
    else if key == Lit("span_id") then Some(raw.(spanId := Some(v)))
    else if key == Lit("context") then None
    else Some(raw)
  }

  predicate TextField(key: Text)
  {
    key in [Lit("type"), Lit("level"), Lit("message"), Lit("error"), Lit("stack"), Lit("url"), Lit("app"),
            Lit("app_version"), Lit("trace_id"), Lit("span_id")]
  }

  function Assign(raw: RawEvent, m: Member): Option<RawEvent>
  {
    match m.1
    case Str(s) => AssignText(raw, m.0, Decode(s))
    case Map(entries) =>
      if m.0 == Lit("context") then Some(raw.(context := Some(DecodeEntries(entries))))
      else if TextField(m.0) then None
      else Some(raw)
  }

  /** The members in turn, or `None` where one has the wrong type. */
  function AssignAll(raw: RawEvent, ms: seq<Member>): Option<RawEvent>
    decreases |ms|
  {
    if ms == [] then Some(raw)
    else if Assign(raw, ms[0]).None? then None
    else AssignAll(Assign(raw, ms[0]).value, ms[1..])
  }

  predicate MemberWellFormed(m: Member)
  {
    match m.1
    case Str(s) => WellFormed(s)
    case Map(entries) => forall e :: e in entries ==> Wire.EntryWellFormed(e)
  }

  /** The decoded event object; Pydantic rejects a string with a lone surrogate. */
  function DecodeEvent(ms: seq<Member>): Option<RawEvent>
  {
    if forall m :: m in ms ==> MemberWellFormed(m) then AssignAll(NOTHING, ms) else None
  }

  function DecodeEvents(es: seq<seq<Member>>): Option<seq<RawEvent>>
  {
    if es == [] then Some([])
    else
      var e, rest := DecodeEvent(es[0]), DecodeEvents(es[1..]);
      if e.None? || rest.None? then None else Some([e.value] + rest.value)
  }

  /** What the gateway decodes from the text of a request body. */
  function DecodeBatch(body: Text): Option<seq<RawEvent>>
  {
    if ReadBody(body).Some? then DecodeEvents(ReadBody(body).value) else None
  }

  /** The request gets past decoding and validation. */
  predicate Accepts(body: Text, settings: Settings)
  {
    DecodeBatch(body).Some? && BatchAccepted(DecodeBatch(body).value, settings)
  }

  // ---- decoding undoes the clients' member lists -------------------------------

  lemma {:induction false} AssignConcat(raw: RawEvent, a: seq<Member>, b: seq<Member>)
    ensures AssignAll(raw, a + b)
         == if AssignAll(raw, a).Some? then AssignAll(AssignAll(raw, a).value, b) else None
    decreases |a|
  {
    hide Assign;
    if a == [] {
      assert a + b == b;
    } else if Assign(raw, a[0]).Some? {
      AssignConcat(Assign(raw, a[0]).value, a[1..], b);
      assert (a + b)[1..] == a[1..] + b;
    }
  }

  /** Lengths and first letters tell the member names apart. */
  lemma Names()
    ensures |Lit("type")| == 4 && |Lit("app_version")| == 11 && |Lit("trace_id")| == 8
    ensures |Lit("level")| == |Lit("error")| == |Lit("stack")| == 5
    ensures Lit("level")[0] == 0x6C && Lit("error")[0] == 0x65 && Lit("stack")[0] == 0x73
    ensures |Lit("message")| == |Lit("span_id")| == |Lit("context")| == 7
    ensures Lit("message")[0] == 0x6D && Lit("span_id")[0] == 0x73 && Lit("context")[0] == 0x63
    ensures |Lit("url")| == |Lit("app")| == 3 && Lit("url")[0] == 0x75 && Lit("app")[0] == 0x61
  {
  }

  /** One optional string member. */
  lemma AssignOpt(raw: RawEvent, key: string, value: Option<Text>)
    ensures AssignAll(raw, Wire.Opt(key, value))
         == if value.Some? then AssignText(raw, Lit(key), Decode(value.value)) else Some(raw)
  {
    hide AssignText, Decode, Lit;
    if value.Some? {
      assert Wire.Opt(key, value)[1..] == [];
    }
  }

  lemma AssignContext(raw: RawEvent, context: Option<Wire.Entries>)
    requires raw.context.None?
    ensures AssignAll(raw, Wire.OptContext(context))
         == Some(raw.(context := if context.Some? then Some(DecodeEntries(context.value)) else None))
  {
    hide Lit;
    if context.Some? {
      assert Wire.OptContext(context)[1..] == [];
    }
  }

  lemma AssignHead(kind: Text, level: Text, message: Text)
    ensures AssignAll(NOTHING, [(Lit("type"), Str(kind)), (Lit("level"), Str(level)), (Lit("message"), Str(message))])
         == Some(NOTHING.(kind := Some(Decode(kind)), level := Some(Decode(level)), message := Some(Decode(message))))
  {
    Names();
    hide Lit, Decode;
    var ms: seq<Member> := [(Lit("type"), Str(kind)), (Lit("level"), Str(level)), (Lit("message"), Str(message))];
    assert ms[1..][1..] == ms[2..] && ms[2..][1..] == [];
    var r1 := NOTHING.(kind := Some(Decode(kind)));
    var r2 := r1.(level := Some(Decode(level)));
    assert AssignAll(r2, ms[2..]) == Some(r2.(message := Some(Decode(message))));
    assert AssignAll(r1, ms[1..]) == AssignAll(r2, ms[2..]);
  }

  /** An optional member in front of others. */
  lemma AssignNext(raw: RawEvent, raw': RawEvent, key: string, value: Option<Text>, rest: seq<Member>)
    requires value.Some? ==> AssignText(raw, Lit(key), Decode(value.value)) == Some(raw')
    requires value.None? ==> raw' == raw
    ensures AssignAll(raw, Wire.Opt(key, value) + rest) == AssignAll(raw', rest)
  {
    hide AssignText, Decode, Lit, AssignAll;
    AssignOpt(raw, key, value);
    AssignConcat(raw, Wire.Opt(key, value), rest);
  }

  /** What `url`, then the fields that follow it on both clients, add. */
  lemma AssignIds(raw: RawEvent, appVersion: Option<Text>, traceId: Option<Text>, spanId: Option<Text>,
                  context: Option<Wire.Entries>)
    requires raw.appVersion.None? && raw.traceId.None? && raw.spanId.None? && raw.context.None?
    ensures AssignAll(raw, Wire.Opt("app_version", appVersion) + (Wire.Opt("trace_id", traceId)
                           + (Wire.Opt("span_id", spanId) + Wire.OptContext(context))))
         == Some(raw.(appVersion := DecodeOption(appVersion), traceId := DecodeOption(traceId),
                      spanId := DecodeOption(spanId),
                      context := if context.Some? then Some(DecodeEntries(context.value)) else None))
  {
    Names();
    hide Decode, Lit, AssignAll, Wire.Opt, Wire.OptContext, DecodeEntries;
    var r1 := raw.(appVersion := DecodeOption(appVersion));
    var r2 := r1.(traceId := DecodeOption(traceId));
    var r3 := r2.(spanId := DecodeOption(spanId));
    var c := Wire.OptContext(context);
    AssignNext(raw, r1, "app_version", appVersion, Wire.Opt("trace_id", traceId) + (Wire.Opt("span_id", spanId) + c));
    AssignNext(r1, r2, "trace_id", traceId, Wire.Opt("span_id", spanId) + c);
    AssignNext(r2, r3, "span_id", spanId, c);
    AssignContext(r3, context);
  }

  lemma AssignTexts(raw: RawEvent, error: Option<Text>, stack: Option<Text>, url: Option<Text>, rest: seq<Member>)
    requires raw.error.None? && raw.stack.None? && raw.url.None?
    ensures AssignAll(raw, Wire.Opt("error", error) + (Wire.Opt("stack", stack) + (Wire.Opt("url", url) + rest)))
         == AssignAll(raw.(error := DecodeOption(error), stack := DecodeOption(stack), url := DecodeOption(url)), rest)
  {
    Names();
    hide Decode, Lit, AssignAll, Wire.Opt;
    var r1 := raw.(error := DecodeOption(error));
    var r2 := r1.(stack := DecodeOption(stack));
    var r3 := r2.(url := DecodeOption(url));
    AssignNext(raw, r1, "error", error, Wire.Opt("stack", stack) + (Wire.Opt("url", url) + rest));
    AssignNext(r1, r2, "stack", stack, Wire.Opt("url", url) + rest);
    AssignNext(r2, r3, "url", url, rest);
  }

  lemma FlutterAssigned(j: FM.JsonEvent)
    ensures AssignAll(NOTHING, FM.Members(j)) == Some(Received(j))
  {
    Names();
    var level := j.level.Name();
    AssignHead(j.kind, level, j.message);
    hide Decode, Lit, AssignAll, Wire.Opt, Wire.OptContext, DecodeEntries;
    var head: seq<Member> := [(Lit("type"), Str(j.kind)), (Lit("level"), Str(level)), (Lit("message"), Str(j.message))];
    var ids := Wire.Opt("app_version", j.appVersion) + (Wire.Opt("trace_id", j.traceId)
               + (Wire.Opt("span_id", j.spanId) + Wire.OptContext(j.context)));
    var rest := Wire.Opt("app", j.app) + ids;
    var texts := Wire.Opt("error", j.error) + (Wire.Opt("stack", j.stack) + (Wire.Opt("url", j.url) + rest));
    assert FM.Members(j) == head + texts;
    AssignConcat(NOTHING, head, texts);
    var r0 := AssignAll(NOTHING, head).value;
    AssignTexts(r0, j.error, j.stack, j.url, rest);
    var r1 := r0.(error := DecodeOption(j.error), stack := DecodeOption(j.stack), url := DecodeOption(j.url));
    var r2 := r1.(app := DecodeOption(j.app));
    AssignNext(r1, r2, "app", j.app, ids);
    AssignIds(r2, j.appVersion, j.traceId, j.spanId, j.context);
  }

  lemma ReactAssigned(w: Wire.WireEvent)
    ensures AssignAll(NOTHING, Wire.Members(w)) == Some(Received(AsMap(w)))
  {
    Names();
    var kind, level := w.kind.Name(), w.level.Name();
    AssignHead(kind, level, w.message);
    hide Decode, Lit, AssignAll, Wire.Opt, Wire.OptContext, DecodeEntries;
    var head: seq<Member> := [(Lit("type"), Str(kind)), (Lit("level"), Str(level)), (Lit("message"), Str(w.message))];
    var ids := Wire.Opt("app_version", w.appVersion) + (Wire.Opt("trace_id", w.traceId)
               + (Wire.Opt("span_id", w.spanId) + Wire.OptContext(w.context)));
    var texts := Wire.Opt("error", w.error) + (Wire.Opt("stack", w.stack) + (Wire.Opt("url", w.url) + ids));
    var app: seq<Member> := [(Lit("app"), Str(w.app))];
    assert Wire.Head(w) == head + app;
    assert Wire.Members(w) == head + (app + texts);
    AssignConcat(NOTHING, head, app + texts);
    var r0 := AssignAll(NOTHING, head).value;
    AppMember(w.app);
    var r1 := r0.(app := Some(Decode(w.app)));
    AssignNext(r0, r1, "app", Some(w.app), texts);
    AssignTexts(r1, w.error, w.stack, w.url, ids);
    var r2 := r1.(error := DecodeOption(w.error), stack := DecodeOption(w.stack), url := DecodeOption(w.url));
    AssignIds(r2, w.appVersion, w.traceId, w.spanId, w.context);
  }

  lemma AppMember(app: Text)
    ensures Wire.Opt("app", Some(app)) == [(Lit("app"), Str(app))]
  {
  }

  // ---- decoding a converted event ----------------------------------------------

  predicate AllWellFormed(ms: seq<Member>) { forall m :: m in ms ==> MemberWellFormed(m) }

  lemma JoinWellFormed(a: seq<Member>, b: seq<Member>)
    ensures AllWellFormed(a + b) <==> AllWellFormed(a) && AllWellFormed(b)
  {
    assert forall m :: m in a + b <==> m in a || m in b;
  }

  lemma OptWellFormed(key: string, value: Option<Text>)
    ensures AllWellFormed(Wire.Opt(key, value)) <==> WellFormedOption(value)
  {
    hide Lit, WellFormed;
    if value.Some? { assert Wire.Opt(key, value)[0] in Wire.Opt(key, value); }
  }

  lemma ContextWellFormed(context: Option<Wire.Entries>)
    ensures AllWellFormed(Wire.OptContext(context)) <==> (context.Some? ==> FM.WellFormedEntries(context.value))
  {
    hide Lit, WellFormed;
    if context.Some? { assert Wire.OptContext(context)[0] in Wire.OptContext(context); }
  }

  lemma HeadWellFormed(kind: Text, level: Text, message: Text)
    ensures AllWellFormed([(Lit("type"), Str(kind)), (Lit("level"), Str(level)), (Lit("message"), Str(message))]) <==>
              WellFormed(kind) && WellFormed(level) && WellFormed(message)
  {
    hide Lit, WellFormed;
    var ms: seq<Member> := [(Lit("type"), Str(kind)), (Lit("level"), Str(level)), (Lit("message"), Str(message))];
    assert ms[0] in ms && ms[1] in ms && ms[2] in ms;
  }

  lemma LevelWellFormed(l: Wire.Level)
    ensures WellFormed(l.Name())
  {
    hide Decode, Lit, Strip, Lower, WellFormed;
    WordDecodes("trace");
    WordDecodes("debug");
    WordDecodes("info");
    WordDecodes("warning");
    WordDecodes("error");
    WordDecodes("critical");
  }

  /** `app` and the ids hold no surrogate. */
  predicate PlainFields(j: FM.JsonEvent)
  {
    WellFormedOption(j.app) && WellFormedOption(j.traceId) && WellFormedOption(j.spanId)
  }

  lemma FlutterMembersWellFormed(j: FM.JsonEvent)
    requires PlainFields(j)
    ensures AllWellFormed(FM.Members(j)) <==> FM.Readable(j)
  {
    LevelWellFormed(j.level);
    hide Lit, WellFormed, AllWellFormed, WellFormedOption, FM.WellFormedEntries, Wire.Opt, Wire.OptContext;
    var head: seq<Member> :=
      [(Lit("type"), Str(j.kind)), (Lit("level"), Str(j.level.Name())), (Lit("message"), Str(j.message))];
    var c := Wire.OptContext(j.context);
    var s7 := Wire.Opt("span_id", j.spanId) + c;
    var s6 := Wire.Opt("trace_id", j.traceId) + s7;
    var s5 := Wire.Opt("app_version", j.appVersion) + s6;
    var s4 := Wire.Opt("app", j.app) + s5;
    var s3 := Wire.Opt("url", j.url) + s4;
    var s2 := Wire.Opt("stack", j.stack) + s3;
    var s1 := Wire.Opt("error", j.error) + s2;
    JoinWellFormed(head, s1);
    JoinWellFormed(Wire.Opt("error", j.error), s2);
    JoinWellFormed(Wire.Opt("stack", j.stack), s3);
    JoinWellFormed(Wire.Opt("url", j.url), s4);
    JoinWellFormed(Wire.Opt("app", j.app), s5);
    JoinWellFormed(Wire.Opt("app_version", j.appVersion), s6);
    JoinWellFormed(Wire.Opt("trace_id", j.traceId), s7);
    JoinWellFormed(Wire.Opt("span_id", j.spanId), c);
    HeadWellFormed(j.kind, j.level.Name(), j.message);
    OptWellFormed("error", j.error);
    OptWellFormed("stack", j.stack);
    OptWellFormed("url", j.url);
    OptWellFormed("app", j.app);
    OptWellFormed("app_version", j.appVersion);
    OptWellFormed("trace_id", j.traceId);
    OptWellFormed("span_id", j.spanId);
    ContextWellFormed(j.context);
  }

  /** The Flutter client's text is decoded to its fields exactly when it holds no lone
      surrogate. */
  lemma FlutterDecoded(j: FM.JsonEvent)
    requires PlainFields(j)
    ensures DecodeEvent(FM.Members(j)) == if FM.Readable(j) then Some(Received(j)) else None
  {
    FlutterMembersWellFormed(j);
    FlutterAssigned(j);
    hide FM.Members, FM.Readable, AssignAll, Received, MemberWellFormed;
  }

  /** The React client's members are those of the Flutter form, in another order. */
  lemma ReactMembers(w: Wire.WireEvent, m: Member)
    ensures m in Wire.Members(w) <==> m in FM.Members(AsMap(w))
  {
    hide Lit;
    AppMember(w.app);
    hide Wire.Opt, Wire.OptContext;
    assert Wire.Head(w) == [(Lit("type"), Str(w.kind.Name())), (Lit("level"), Str(w.level.Name())),
                            (Lit("message"), Str(w.message))] + [(Lit("app"), Str(w.app))];
  }

  lemma ReactDecoded(w: Wire.WireEvent)
    requires PlainFields(AsMap(w)) && FM.Readable(AsMap(w))
    ensures DecodeEvent(Wire.Members(w)) == Some(Received(AsMap(w)))
  {
    FlutterMembersWellFormed(AsMap(w));
    ReactAssigned(w);
    forall m | m in Wire.Members(w) ensures MemberWellFormed(m) { ReactMembers(w, m); }
    hide FM.Members, FM.Readable, AssignAll, Received, MemberWellFormed, Wire.Members;
  }

  lemma CappedReadable(j: FM.JsonEvent)
    requires Capped(j)
    ensures FM.Readable(j) && PlainFields(j)
  {
    KindKnown(j);
    AppAsSent(j.app);
    IdUnchanged(j.traceId, 32);
    IdUnchanged(j.spanId, 16);
    hide WellFormed, Decode, Wire.HexId, Wire.EntryWithin, StrBytes, JsonBytes, EventType;
  }

  // ---- whole events ------------------------------------------------------------

  /** The event that the gateway decodes from its text. */
  function EventOf(json: Text): Option<RawEvent>
  {
    var o := ReadObject(json);
    if o.Some? && o.value.1 == [] then DecodeEvent(o.value.0) else None
  }

  lemma EventOfText(ms: seq<Member>)
    ensures EventOf(Stringify(ms)) == DecodeEvent(ms)
  {
    ObjectRoundTrip(ms, []);
    hide Stringify, ReadObject, DecodeEvent;
    assert Stringify(ms) + [] == Stringify(ms);
  }

  /** The text of an event that the gateway decodes and validates. */
  predicate Acceptable(json: Text) { EventOf(json).Some? && Validate(EventOf(json).value, DEFAULTS).Some? }

  /** A text that one of the clients' JSON writers produced. */
  ghost predicate Written(json: Text) { exists ms :: json == Stringify(ms) }

  /** From the event in a React application to validation on the gateway, by way of the
      text of the event. */
  lemma ReactTextAcceptable(event: Wire.Event, app: Text, appVersion: Option<Text>)
    requires WellFormedInput(event, appVersion)
    ensures var w := Wire.Converted(event, app, appVersion);
            && Written(Wire.ToJson(w)) && Acceptable(Wire.ToJson(w))
            && EventOf(Wire.ToJson(w)) == Some(Received(AsMap(w))) && AcceptedAsSent(AsMap(w))
    ensures var w := Wire.Converted(event, app, appVersion);
            && EventOf(Wire.ToJson(w)).Some?
            && var raw := EventOf(Wire.ToJson(w)).value;
               && raw.kind == Some(Decode(w.kind.Name())) && raw.level == Some(Decode(w.level.Name()))
               && raw.message == Some(Decode(w.message)) && raw.error == DecodeOption(w.error)
               && raw.stack == DecodeOption(w.stack) && raw.url == DecodeOption(w.url)
               && raw.app == Some(Decode(w.app)) && raw.appVersion == DecodeOption(w.appVersion)
               && raw.traceId == DecodeOption(w.traceId) && raw.spanId == DecodeOption(w.spanId)
               && raw.context == if w.context.Some? then Some(DecodeEntries(w.context.value)) else None
  {
    var w := Wire.Converted(event, app, appVersion);
    ConvertedCapped(event, app, appVersion);
    CappedReadable(AsMap(w));
    ReactDecoded(w);
    ClientEventAccepted(event, app, appVersion);
    EventOfText(Wire.Members(w));
    ReceivedFields(w);
    hide Wire.Converted, Wire.Members, DecodeEvent, Validate, Received, Capped, WellFormedInput, EventOf;
    assert Wire.ToJson(w) == Stringify(Wire.Members(w));
  }

  lemma ReceivedFields(w: Wire.WireEvent)
    ensures var raw := Received(AsMap(w));
            && raw.kind == Some(Decode(w.kind.Name())) && raw.level == Some(Decode(w.level.Name()))
            && raw.message == Some(Decode(w.message)) && raw.error == DecodeOption(w.error)
            && raw.stack == DecodeOption(w.stack) && raw.url == DecodeOption(w.url)
            && raw.app == Some(Decode(w.app)) && raw.appVersion == DecodeOption(w.appVersion)
            && raw.traceId == DecodeOption(w.traceId) && raw.spanId == DecodeOption(w.spanId)
            && raw.context == if w.context.Some? then Some(DecodeEntries(w.context.value)) else None
  {
    hide Decode;
  }

  lemma FlutterPlain(event: FM.Event, app: Option<Text>, appVersion: Option<Text>)
    ensures PlainFields(FM.Converted(event, app, appVersion))
  {
    FM.ConvertedRest(event, app, appVersion);
    var j := FM.Converted(event, app, appVersion);
    hide FM.Converted, WellFormed, Wire.HexId, Decode;
    AppAsSent(j.app);
    IdUnchanged(j.traceId, 32);
    IdUnchanged(j.spanId, 16);
  }

  /** The same for a Flutter application and a documented type: the gateway accepts the
      text of the event exactly when no cut of the conversion separates a pair. */
  lemma FlutterTextAcceptable(event: FM.Event, kind: Wire.EventType, app: Option<Text>, appVersion: Option<Text>)
    requires event.kind == kind.Name() && FM.WellFormedInput(event, appVersion)
    ensures var json := FM.Encode(FM.Converted(event, app, appVersion));
            Written(json) && (Acceptable(json) <==> FM.CleanCuts(event, app, appVersion))
  {
    var j := FM.Converted(event, app, appVersion);
    FM.ReadableExactly(event, app, appVersion);
    FlutterPlain(event, app, appVersion);
    FlutterDecoded(j);
    if FM.CleanCuts(event, app, appVersion) { FlutterEventAccepted(event, kind, app, appVersion); }
    EventOfText(FM.Members(j));
    hide FM.Converted, FM.Members, FM.CleanCuts, FM.Readable, FM.WellFormedInput;
    hide DecodeEvent, Validate, Received, PlainFields, EventOf;
    assert FM.Encode(j) == Stringify(FM.Members(j));
  }

  /** Different member lists have different texts. */
  lemma StringifyInjective(ms: seq<Member>, ms': seq<Member>)
    requires Stringify(ms) == Stringify(ms')
    ensures ms == ms'
  {
    ObjectRoundTrip(ms, []);
    ObjectRoundTrip(ms', []);
    hide Stringify, ReadObject;
  }
}
