/** What the clients build, the gateway accepts: the wire shapes of `models.ts` and
    `models.dart` against the validators of `ingest.py`, under its default limits. */
module Contract {
  import opened Wrappers
  import opened Utf16
  import opened IngestModels
  import FM = FlutterModels
  import Json
  import Wire

  function DecodeOption(value: Option<Text>): Option<Str>
  {
    if value.Some? then Some(Decode(value.value)) else None
  }

  function DecodeEntries(es: Wire.Entries): seq<(Str, Str)>
  {
    seq(|es|, i requires 0 <= i < |es| => (Decode(es[i].0), Decode(es[i].1)))
  }

  /** The React client's wire event as a map of the Flutter client's form. */
  function AsMap(w: Wire.WireEvent): FM.JsonEvent
  {
    FM.JsonEvent(w.kind.Name(), w.level, w.message, w.error, w.stack, w.url, Some(w.app), w.appVersion, w.traceId,
                 w.spanId, w.context)
  }

  /** The event that the fields of a wire map amount to on the gateway. */
  function Received(j: FM.JsonEvent): RawEvent
  {
    RawEvent(
      Some(Decode(j.kind)), Some(Decode(j.level.Name())), Some(Decode(j.message)), DecodeOption(j.error),
      DecodeOption(j.stack), DecodeOption(j.url), DecodeOption(j.app), DecodeOption(j.appVersion),
      DecodeOption(j.traceId), DecodeOption(j.spanId),
      if j.context.Some? then Some(DecodeEntries(j.context.value)) else None)
  }

  /** No lone surrogates in the texts application code supplies. */
  predicate WellFormedInput(event: Wire.Event, appVersion: Option<Text>)
  {
    && WellFormedOption(event.message) && WellFormedOption(event.error) && WellFormedOption(event.stack)
    && WellFormedOption(event.url) && WellFormedOption(appVersion)
    && (event.context.Some? ==> forall e :: e in event.context.value ==> Wire.EntryWellFormed(e))
  }

  // ---- both sides measure the same bytes -------------------------------------

  /** Escaped size is the same over UTF-16 units and over code points. */
  lemma {:induction false} SameBytes(s: Text)
    requires WellFormed(s)
    ensures StrBytes(Decode(s)) == JsonBytes(s)
  {
    if s == [] {
    } else if Pair(s) {
      SameBytes(s[2..]);
      assert Decode(s)[1..] == Decode(s[2..]);
    } else {
      SameBytes(s[1..]);
      assert Decode(s)[1..] == Decode(s[1..]);
    }
  }

  lemma {:induction false} SameEntryBytes(es: Wire.Entries)
    requires forall e :: e in es ==> Wire.EntryWellFormed(e)
    ensures EntriesBytes(DecodeEntries(es)) == Json.EntryCost(es)
  {
    if es == [] {
    } else {
      assert es[0] in es;
      SameBytes(es[0].0);
      SameBytes(es[0].1);
      assert DecodeEntries(es)[1..] == DecodeEntries(es[1..]);
      SameEntryBytes(es[1..]);
    }
  }

  lemma SameOptBytes(key: nat, value: Option<Text>)
    requires WellFormedOption(value)
    ensures OptBytes(key, DecodeOption(value)) == Wire.OptCost(key, value)
  {
    if value.Some? { SameBytes(value.value); }
  }

  // ---- field by field --------------------------------------------------------

  predicate Word(s: string) { s != "" && forall i :: 0 <= i < |s| ==> 'a' <= s[i] <= 'z' }

  lemma WordDecodes(s: string)
    requires Word(s)
    ensures Decode(Lit(s)) == Lit(s) && WellFormed(Lit(s)) && Lower(Strip(Lit(s))) == Lit(s)
  {
    DecodeAscii(Lit(s));
    NormalizeNoop(Lit(s));
  }

  lemma EmptyWellFormed()
    ensures WellFormed([])
  {
  }

  lemma KindAccepted(k: Wire.EventType)
    ensures EventType(Decode(k.Name())) && StrBytes(Decode(k.Name())) == JsonBytes(k.Name()) && WellFormed(k.Name())
  {
    hide Decode, Lit, Strip, Lower, WellFormed, StrBytes, JsonBytes;
    WordDecodes("log");
    WordDecodes("error");
    WordDecodes("event");
    WordDecodes("perf");
    k.NameBytes();
    SameBytes(k.Name());
  }

  lemma LevelAccepted(l: Wire.Level)
    ensures Lower(Strip(Decode(l.Name()))) == Decode(l.Name()) && Severity(Decode(l.Name()))
    ensures StrBytes(Decode(l.Name())) == l.NameLength()
  {
    hide Decode, Lit, Strip, Lower, WellFormed, StrBytes, JsonBytes;
    WordDecodes("trace");
    WordDecodes("debug");
    WordDecodes("info");
    WordDecodes("warning");
    WordDecodes("error");
    WordDecodes("critical");
    l.NameBytes();
    SameBytes(l.Name());
  }

  /** Every type and level arrives on the gateway under its own name. */
  lemma NamesArrive()
    ensures Decode(Wire.EventType.LogType.Name()) == Py("log")
    ensures Decode(Wire.EventType.ErrorType.Name()) == Py("error")
    ensures Decode(Wire.EventType.EventType.Name()) == Py("event")
    ensures Decode(Wire.EventType.PerfType.Name()) == Py("perf")
    ensures Decode(Wire.Level.Trace.Name()) == Py("trace")
    ensures Decode(Wire.Level.Debug.Name()) == Py("debug")
    ensures Decode(Wire.Level.Info.Name()) == Py("info")
    ensures Decode(Wire.Level.Warning.Name()) == Py("warning")
    ensures Decode(Wire.Level.Error.Name()) == Py("error")
    ensures Decode(Wire.Level.Critical.Name()) == Py("critical")
  {
    hide Decode, Lit, Strip, Lower, WellFormed;
    WordDecodes("log");
    WordDecodes("event");
    WordDecodes("perf");
    WordDecodes("trace");
    WordDecodes("debug");
    WordDecodes("info");
    WordDecodes("warning");
    WordDecodes("error");
    WordDecodes("critical");
  }

  /** An id the client keeps passes `_hex_id` unchanged. */
  lemma IdUnchanged(value: Option<Text>, length: nat)
    requires length > 0 && (value.Some? ==> Wire.HexId(value.value, length))
    ensures IdAccepted(DecodeOption(value), length) && IdValue(DecodeOption(value), length) == DecodeOption(value)
    ensures WellFormedOption(value)
  {
    if value.Some? {
      DecodeAscii(value.value);
      NormalizeNoop(value.value);
    }
  }

  lemma EntriesAccepted(es: Wire.Entries)
    requires |es| <= MAX_CONTEXT_ENTRIES && forall e :: e in es ==> Wire.EntryWithin(e)
    ensures ContextAccepted(DecodeEntries(es))
  {
    forall e | e in DecodeEntries(es) ensures 1 <= |e.0| <= 128 && |e.1| <= 1024 {
      var i :| 0 <= i < |es| && e == DecodeEntries(es)[i];
      assert es[i] in es;
      DecodeLength(es[i].0);
      DecodeLength(es[i].1);
      assert Decode(es[i].0) != [];
    }
  }

  // ---- the invariant both conversions establish -------------------------------

  predicate TextWithin(value: Option<Text>, max: nat)
  {
    value.Some? ==> |value.value| <= max && WellFormed(value.value)
  }

  /** The caps every wire map satisfies, whether or not it was shrunk. */
  predicate Capped(j: FM.JsonEvent)
  {
    && (exists k: Wire.EventType :: j.kind == k.Name())
    && TextWithin(Some(j.message), Wire.MAX_MESSAGE) && TextWithin(j.error, Wire.MAX_ERROR)
    && TextWithin(j.stack, Wire.MAX_STACK) && TextWithin(j.url, Wire.MAX_URL)
    && TextWithin(j.appVersion, Wire.MAX_APP_VERSION)
    && (j.app.Some? ==>
          0 < |j.app.value| <= Wire.MAX_APP && forall i :: 0 <= i < |j.app.value| ==> Wire.AppChar(j.app.value[i]))
    && (j.traceId.Some? ==> Wire.HexId(j.traceId.value, 32))
    && (j.spanId.Some? ==> Wire.HexId(j.spanId.value, 16))
    && (j.context.Some? ==>
          && |j.context.value| <= MAX_CONTEXT_ENTRIES
          && forall e :: e in j.context.value ==> Wire.EntryWithin(e) && Wire.EntryWellFormed(e))
  }

  lemma AppAsSent(app: Option<Text>)
    requires app.Some? ==>
               0 < |app.value| <= Wire.MAX_APP && forall i :: 0 <= i < |app.value| ==> Wire.AppChar(app.value[i])
    ensures AppAccepted(DecodeOption(app)) && WellFormedOption(app)
  {
    if app.Some? { DecodeAscii(app.value); }
  }

  lemma KindKnown(j: FM.JsonEvent)
    requires Capped(j)
    ensures EventType(Decode(j.kind)) && StrBytes(Decode(j.kind)) == JsonBytes(j.kind) && WellFormed(j.kind)
  {
    hide Decode, Lit, StrBytes, JsonBytes, WellFormed, EventType, Wire.HexId;
    var k: Wire.EventType :| j.kind == k.Name();
    KindAccepted(k);
  }

  lemma TextAccepted(value: Option<Text>, max: nat)
    requires TextWithin(value, max)
    ensures Within(DecodeOption(value), max) && WellFormedOption(value)
  {
    if value.Some? { DecodeLength(value.value); }
  }

  lemma ContextAsSent(context: Option<Wire.Entries>)
    requires context.Some? ==>
               |context.value| <= MAX_CONTEXT_ENTRIES && forall e :: e in context.value ==> Wire.EntryWithin(e)
    ensures ContextAccepted(if context.Some? then DecodeEntries(context.value) else [])
  {
    if context.Some? { EntriesAccepted(context.value); }
  }

  lemma CappedAccepted(j: FM.JsonEvent)
    requires Capped(j)
    ensures FieldsAccepted(Received(j))
    ensures Normalized(Received(j)).traceId == DecodeOption(j.traceId)
    ensures Normalized(Received(j)).spanId == DecodeOption(j.spanId)
    ensures Normalized(Received(j)).level == Decode(j.level.Name())
  {
    KindKnown(j);
    hide Decode, Lit, HexId, Wire.HexId, Strip, Lower, Severity, EventType, StrBytes, Wire.EntryWithin, WellFormed;
    hide AppAccepted, TextWithin, Within, ContextAccepted, DecodeOption, DecodeEntries, IdAccepted, IdValue;
    LevelAccepted(j.level);
    TextAccepted(Some(j.message), 2000);
    DecodeSome(j.message);
    TextAccepted(j.error, 2000);
    TextAccepted(j.stack, 8000);
    TextAccepted(j.url, 2000);
    TextAccepted(j.appVersion, 64);
    AppAsSent(j.app);
    IdUnchanged(j.traceId, 32);
    IdUnchanged(j.spanId, 16);
    ContextAsSent(j.context);
  }

  lemma DecodeSome(t: Text)
    ensures DecodeOption(Some(t)) == Some(Decode(t))
  {
  }

  lemma SameContextBytes(context: Option<Wire.Entries>)
    requires context.Some? ==> forall e :: e in context.value ==> Wire.EntryWellFormed(e)
    ensures var es := if context.Some? then DecodeEntries(context.value) else [];
            ContextBytes(es) <= Wire.ContextCost(context)
  {
    if context.Some? { SameEntryBytes(context.value); }
  }

  function ContextBytes(es: seq<(Str, Str)>): nat { if es == [] then 0 else 12 + EntriesBytes(es) }

  /** With every member written out. */
  lemma DefaultsOnlySave(e: TelemetryEvent)
    ensures DumpBytes(e) <= 35 + StrBytes(e.kind) + StrBytes(e.level) + StrBytes(e.message)
                            + OptBytes(5, e.error) + OptBytes(5, e.stack) + OptBytes(3, e.url) + OptBytes(3, e.app)
                            + OptBytes(11, e.appVersion) + OptBytes(8, e.traceId) + OptBytes(7, e.spanId)
                            + ContextBytes(e.context)
  {
    hide StrBytes, OptBytes, EntriesBytes, Utf16.Lit;
  }

  lemma SameFieldBytes(j: FM.JsonEvent)
    requires Capped(j)
    ensures OptBytes(5, DecodeOption(j.error)) == Wire.OptCost(5, j.error)
    ensures OptBytes(5, DecodeOption(j.stack)) == Wire.OptCost(5, j.stack)
    ensures OptBytes(3, DecodeOption(j.url)) == Wire.OptCost(3, j.url)
    ensures OptBytes(3, DecodeOption(j.app)) == Wire.OptCost(3, j.app)
    ensures OptBytes(11, DecodeOption(j.appVersion)) == Wire.OptCost(11, j.appVersion)
    ensures OptBytes(8, DecodeOption(j.traceId)) == Wire.OptCost(8, j.traceId)
    ensures OptBytes(7, DecodeOption(j.spanId)) == Wire.OptCost(7, j.spanId)
    ensures StrBytes(Decode(j.message)) == JsonBytes(j.message)
  {
    hide Decode, JsonBytes, StrBytes, OptBytes, Wire.OptCost, Wire.HexId, WellFormed, TextWithin, DecodeOption;
    TextAccepted(Some(j.message), 2000);
    TextAccepted(j.error, 2000);
    TextAccepted(j.stack, 8000);
    TextAccepted(j.url, 2000);
    TextAccepted(j.appVersion, 64);
    AppAsSent(j.app);
    IdUnchanged(j.traceId, 32);
    IdUnchanged(j.spanId, 16);
    SameBytes(j.message);
    SameOptBytes(5, j.error);
    SameOptBytes(5, j.stack);
    SameOptBytes(3, j.url);
    SameOptBytes(3, j.app);
    SameOptBytes(11, j.appVersion);
    SameOptBytes(8, j.traceId);
    SameOptBytes(7, j.spanId);
  }

  /** Leaving out default values, the gateway counts at most the client's bytes. */
  lemma DumpNoLarger(j: FM.JsonEvent)
    requires Capped(j)
    ensures DumpBytes(Normalized(Received(j))) <= FM.Bytes(j)
  {
    CappedAccepted(j);
    KindKnown(j);
    LevelAccepted(j.level);
    SameContextBytes(j.context);
    SameFieldBytes(j);
    hide Decode, Lit, JsonBytes, StrBytes, Strip, Lower, FieldsAccepted, WellFormed, EntriesBytes, DumpBytes, Capped;
    hide Wire.ContextCost, Wire.OptCost, OptBytes, IdValue, DecodeOption, DecodeEntries;
    DefaultsOnlySave(Normalized(Received(j)));
  }

  /** Validated, with every field as it was sent. */
  predicate AcceptedAsSent(j: FM.JsonEvent)
  {
    var v := Validate(Received(j), DEFAULTS);
    && v.Some?
    && v.value.kind == Decode(j.kind) && v.value.level == Decode(j.level.Name())
    && v.value.message == Decode(j.message) && v.value.error == DecodeOption(j.error)
    && v.value.stack == DecodeOption(j.stack) && v.value.url == DecodeOption(j.url)
    && v.value.app == DecodeOption(j.app) && v.value.appVersion == DecodeOption(j.appVersion)
    && v.value.traceId == DecodeOption(j.traceId) && v.value.spanId == DecodeOption(j.spanId)
    && v.value.context == DecodeEntries(if j.context.Some? then j.context.value else [])
    && DumpBytes(v.value) <= FM.Bytes(j) <= DEFAULTS.maxEventBytes
  }

  lemma CappedAsSent(j: FM.JsonEvent)
    requires Capped(j) && FM.Bytes(j) <= DEFAULTS.maxEventBytes
    ensures AcceptedAsSent(j)
  {
    CappedAccepted(j);
    DumpNoLarger(j);
    hide Decode, Lit, Wire.HexId, HexId, StrBytes, JsonBytes, DumpBytes, FieldsAccepted, FM.Bytes, Capped;
  }

  // ---- the React client --------------------------------------------------------

  lemma OptionCapped(value: Option<Text>, max: nat)
    requires WellFormedOption(value)
    ensures TextWithin(Wire.CapOption(value, max), max)
  {
    if value.Some? { CapCut(value.value, max); }
  }

  lemma CapSome(t: Text)
    ensures Wire.CapOption(Some(t), Wire.MAX_MESSAGE) == Some(Cap(t, Wire.MAX_MESSAGE))
  {
  }

  lemma ShapeCapped(event: Wire.Event, app: Text, appVersion: Option<Text>)
    requires WellFormedInput(event, appVersion)
    ensures Capped(AsMap(Wire.Shape(event, app, appVersion)))
  {
    hide Cap, JsonBytes, Wire.ShapeContext, Wire.CapOption, Wire.EntryWithin, Wire.EntryWellFormed, WellFormed;
    assert AsMap(Wire.Shape(event, app, appVersion)).kind == event.kind.Name();
    EmptyWellFormed();
    var message := if event.message.Some? then event.message.value else [];
    OptionCapped(Some(message), Wire.MAX_MESSAGE);
    CapSome(message);
    OptionCapped(event.error, Wire.MAX_ERROR);
    OptionCapped(event.stack, Wire.MAX_STACK);
    OptionCapped(event.url, Wire.MAX_URL);
    OptionCapped(appVersion, Wire.MAX_APP_VERSION);
    Wire.ShapedContext(event.context);
  }

  /** Shrinking keeps every cap and keeps well-formed text well formed. */
  lemma ConvertedCapped(event: Wire.Event, app: Text, appVersion: Option<Text>)
    requires WellFormedInput(event, appVersion)
    ensures Capped(AsMap(Wire.Converted(event, app, appVersion)))
  {
    hide Wire.Converted, Wire.Shape, WellFormed, SplitsPair, Wire.Bytes, Wire.Blank, Wire.SpentBefore;
    hide Wire.HexId, Wire.EntryWithin, Wire.EntryWellFormed;
    ShapeCapped(event, app, appVersion);
    Wire.SacrificeOrder(event, app, appVersion);
    var w := Wire.Shape(event, app, appVersion);
    var r := Wire.Converted(event, app, appVersion);
    assert Wire.CleanPrefix(w, r, Wire.SHRINK_ORDER[0]) && Wire.CleanPrefix(w, r, Wire.SHRINK_ORDER[1]);
    assert Wire.CleanPrefix(w, r, Wire.SHRINK_ORDER[2]) && Wire.CleanPrefix(w, r, Wire.SHRINK_ORDER[3]);
  }

  lemma SameSize(w: Wire.WireEvent)
    ensures FM.Bytes(AsMap(w)) == Wire.Bytes(w)
  {
    hide JsonBytes, Lit;
    w.kind.NameBytes();
  }

  /** Contract refinement: every event with well-formed texts converts to a wire
      event that the gateway validates, with every field as the client sent it and
      no more bytes than the client counted. */
  lemma ClientEventAccepted(event: Wire.Event, app: Text, appVersion: Option<Text>)
    requires WellFormedInput(event, appVersion)
    ensures var w := Wire.Converted(event, app, appVersion);
            AcceptedAsSent(AsMap(w)) && FM.Bytes(AsMap(w)) == Wire.Bytes(w)
  {
    hide Wire.Bytes, FM.Bytes, Wire.Converted, Capped, AcceptedAsSent;
    ConvertedCapped(event, app, appVersion);
    Wire.ConvertedFits(event, app, appVersion);
    SameSize(Wire.Converted(event, app, appVersion));
    CappedAsSent(AsMap(Wire.Converted(event, app, appVersion)));
  }

  /** What the gateway receives of these events. */
  function ReceivedAll(events: seq<Wire.Event>, app: Text, appVersion: Option<Text>): seq<RawEvent>
  {
    seq(|events|, i requires 0 <= i < |events| => Received(AsMap(Wire.Converted(events[i], app, appVersion))))
  }

  /** A whole batch of such events passes, up to the batch limit the client clamps to. */
  lemma ClientBatchAccepted(events: seq<Wire.Event>, app: Text, appVersion: Option<Text>)
    requires |events| <= Wire.MAX_EVENTS_PER_REQUEST
    requires forall e :: e in events ==> WellFormedInput(e, appVersion)
    ensures BatchAccepted(ReceivedAll(events, app, appVersion), DEFAULTS)
  {
    hide Wire.Converted, Validate, Received, WellFormedInput;
    var raws := ReceivedAll(events, app, appVersion);
    forall r | r in raws ensures Validate(r, DEFAULTS).Some? {
      var i :| 0 <= i < |events| && r == raws[i];
      assert events[i] in events;
      ClientEventAccepted(events[i], app, appVersion);
    }
  }

  // ---- the Flutter client ------------------------------------------------------

  lemma CutWithin(kept: Text, original: Text, limit: nat, max: nat)
    requires FM.CutAt(kept, original, limit) && WellFormed(original) && !SplitsPair(original, limit) && limit <= max
    ensures TextWithin(Some(kept), max)
  {
  }

  lemma FlutterTextsCapped(event: FM.Event, app: Option<Text>, appVersion: Option<Text>)
    requires FM.WellFormedInput(event, appVersion) && FM.CleanCuts(event, app, appVersion)
    ensures var j := FM.Converted(event, app, appVersion);
            && TextWithin(Some(j.message), Wire.MAX_MESSAGE) && TextWithin(j.error, Wire.MAX_ERROR)
            && TextWithin(j.stack, Wire.MAX_STACK) && TextWithin(j.url, Wire.MAX_URL)
            && TextWithin(j.appVersion, Wire.MAX_APP_VERSION)
  {
    FM.FinalTexts(event, app, appVersion);
    var j := FM.Converted(event, app, appVersion);
    hide WellFormed, FM.Bytes, FM.Shape, FM.Converted, FM.CutAt, FM.CleanContext, SplitsPair, TextWithin;
    CutWithin(j.message, event.message, FM.TextLimit(event, app, appVersion, FM.MAX_MESSAGE), Wire.MAX_MESSAGE);
    if j.error.Some? {
      CutWithin(j.error.value, event.error.value, FM.TextLimit(event, app, appVersion, FM.MAX_ERROR), Wire.MAX_ERROR);
    }
    if j.stack.Some? {
      CutWithin(j.stack.value, event.stack.value, FM.StackLimit(event, app, appVersion), Wire.MAX_STACK);
    }
    if j.url.Some? { CutWithin(j.url.value, event.url.value, FM.MAX_URL, Wire.MAX_URL); }
    if j.appVersion.Some? { CutWithin(j.appVersion.value, appVersion.value, FM.MAX_APP, Wire.MAX_APP_VERSION); }
    NothingWithin(Wire.MAX_ERROR);
    NothingWithin(Wire.MAX_STACK);
    NothingWithin(Wire.MAX_URL);
    NothingWithin(Wire.MAX_APP_VERSION);
  }

  lemma NothingWithin(max: nat)
    ensures TextWithin(None, max)
  {
  }

  /** A Flutter event of a documented type, with well-formed texts of which no cut
      separates a pair, is validated with every field as sent. */
  lemma FlutterEventAccepted(event: FM.Event, kind: Wire.EventType, app: Option<Text>, appVersion: Option<Text>)
    requires event.kind == kind.Name()
    requires FM.WellFormedInput(event, appVersion) && FM.CleanCuts(event, app, appVersion)
    ensures AcceptedAsSent(FM.Converted(event, app, appVersion))
  {
    hide FM.Bytes, FM.Converted, FM.Shape, WellFormed, TextWithin, FM.CleanCuts, AcceptedAsSent, FM.ShapeContext;
    hide Wire.EntryWithin, Wire.EntryWellFormed, Wire.HexId, JsonBytes, Lit, FM.WellFormedInput;
    FM.DocumentedTypes(kind);
    FM.ConvertedFits(event, app, appVersion);
    FlutterTextsCapped(event, app, appVersion);
    FM.ReadableExactly(event, app, appVersion);
    FM.ContextWithin(event.context);
    FM.ConvertedRest(event, app, appVersion);
    CappedAsSent(FM.Converted(event, app, appVersion));
  }
}
