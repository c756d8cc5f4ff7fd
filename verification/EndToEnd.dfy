/** From application code to the validated batch: over every run of a client, what any
    request in flight carries was accepted from the application, fits the gateway's
    body limit, and is decoded and validated event for event. */
module EndToEnd {
  import opened Wrappers
  import opened Utf16
  import opened Json
  import opened JsonReader
  import opened Chunking
  import opened Delivery
  import opened Conservation
  import opened IngestModels
  import opened Contract
  import opened Decoding
  import opened BodyLimit
  import Discipline
  import FM = FlutterModels
  import Wire

  // ---- where a request comes from ----------------------------------------------

  lemma {:induction false} DrainsHold(ds: seq<Drain>, chunk: Chunk, x: Item)
    requires Sending(chunk) in ds && x in chunk
    ensures InDrains(ds, x) > 0
  {
    if ds[0] != Sending(chunk) { DrainsHold(ds[1..], chunk, x); }
  }

  lemma {:induction false} ChunksHold(cs: seq<Chunk>, chunk: Chunk, x: Item)
    requires chunk in cs && x in chunk
    ensures InChunks(cs, x) > 0
  {
    if cs[0] != chunk { ChunksHold(cs[1..], chunk, x); }
  }

  /** The step accepted this event. */
  predicate Accepting(s: Step, x: Item) { s == Enqueue(x.json) && x.bytes == Utf8Len(x.json) }

  lemma StepAccepts(cfg: Config, w: World, s: Step, x: Item)
    requires ValidConfig(cfg) && Enabled(cfg, w, s) && x in Apply(cfg, w, s).accepted
    ensures x in w.accepted || Accepting(s, x)
  {
    hide Divide, NextLen, Utf8Len;
  }

  lemma {:induction false} RunAccepts(cfg: Config, w: World, steps: seq<Step>, x: Item)
    requires ValidConfig(cfg) && Legal(cfg, w, steps) && x in Run(cfg, w, steps).accepted
    ensures x in w.accepted || exists s :: s in steps && Accepting(s, x)
    decreases |steps|
  {
    hide Apply, Enabled, Accepting;
    if steps == [] {
    } else {
      var next := Apply(cfg, w, steps[0]);
      RunAccepts(cfg, next, steps[1..], x);
      if x in next.accepted {
        StepAccepts(cfg, w, steps[0], x);
        assert steps[0] in steps;
      } else {
        var s :| s in steps[1..] && Accepting(s, x);
        assert s in steps;
      }
    }
  }

  /** Every event of a request in flight was enqueued with exactly this text. */
  lemma Provenance(cfg: Config, steps: seq<Step>, chunk: Chunk, x: Item)
    requires ValidConfig(cfg) && Legal(cfg, INIT, steps) && InFlight(Run(cfg, INIT, steps), chunk) && x in chunk
    ensures Enqueue(x.json) in steps && x.bytes == Utf8Len(x.json)
  {
    var w := Run(cfg, INIT, steps);
    if chunk in w.unloads { ChunksHold(w.unloads, chunk, x); } else { DrainsHold(w.drains, chunk, x); }
    OnlyAccepted(cfg, steps, x);
    RunAccepts(cfg, INIT, steps, x);
  }

  // ---- what the gateway makes of it --------------------------------------------

  ghost predicate AllWritten(chunk: Chunk) { forall x :: x in chunk ==> Written(x.json) }

  predicate AllAcceptable(chunk: Chunk) { forall x :: x in chunk ==> Acceptable(x.json) }

  predicate Writes(es: seq<seq<Member>>, chunk: Chunk)
  {
    |es| == |chunk| && forall i :: 0 <= i < |chunk| ==> chunk[i].json == Stringify(es[i])
  }

  lemma {:induction false} Texts(chunk: Chunk) returns (es: seq<seq<Member>>)
    requires AllWritten(chunk)
    ensures Writes(es, chunk) && Jsons(chunk) == Stringified(es)
  {
    hide Stringify;
    if chunk == [] {
      es := [];
    } else {
      assert Written(chunk[0].json);
      var ms :| chunk[0].json == Stringify(ms);
      assert forall x :: x in chunk[1..] ==> x in chunk;
      var rest := Texts(chunk[1..]);
      es := [ms] + rest;
      assert es[1..] == rest;
    }
  }

  /** The events of a body are decoded in order, or none is if one of them cannot be. */
  lemma {:induction false} DecodedInOrder(es: seq<seq<Member>>)
    ensures var r := DecodeEvents(es);
            && (r.Some? <==> forall i :: 0 <= i < |es| ==> DecodeEvent(es[i]).Some?)
            && (r.Some? ==>
                  |r.value| == |es| && forall i :: 0 <= i < |es| ==> r.value[i] == DecodeEvent(es[i]).value)
  {
    hide DecodeEvent;
    if es == [] {
    } else {
      DecodedInOrder(es[1..]);
      assert forall i :: 0 <= i < |es[1..]| ==> es[1..][i] == es[i + 1];
      if DecodeEvent(es[0]).Some? && DecodeEvents(es[1..]).Some? {
        forall i | 0 <= i < |es| ensures DecodeEvent(es[i]).Some? {
          if i > 0 { assert es[i] == es[1..][i - 1]; }
        }
      }
    }
  }

  /** The gateway decodes and validates the body, one event per item, in order. */
  predicate BatchAsSent(chunk: Chunk)
  {
    && Accepts(BuildBody(chunk), DEFAULTS)
    && var raws := DecodeBatch(BuildBody(chunk)).value;
       |raws| == |chunk| && forall i :: 0 <= i < |chunk| ==> EventOf(chunk[i].json) == Some(raws[i])
  }

  /** The gateway accepts a request exactly when it has at most 100 events and each of them
      is accepted: a single one that cannot be decoded or validated costs all the others. */
  lemma BodyAcceptedExactly(chunk: Chunk)
    requires AllWritten(chunk)
    ensures Accepts(BuildBody(chunk), DEFAULTS) <==> |chunk| <= 100 && AllAcceptable(chunk)
    ensures Accepts(BuildBody(chunk), DEFAULTS) ==> BatchAsSent(chunk)
  {
    var es := Texts(chunk);
    BodyRoundTrip(chunk, es);
    hide Stringify, DecodeEvent, Validate, ReadBody, BuildBody, EventOf;
    DecodedInOrder(es);
    forall i | 0 <= i < |chunk| ensures EventOf(chunk[i].json) == DecodeEvent(es[i]) { EventOfText(es[i]); }
    if AllAcceptable(chunk) {
      forall i | 0 <= i < |chunk| ensures DecodeEvent(es[i]).Some? { assert Acceptable(chunk[i].json); }
    }
    if Accepts(BuildBody(chunk), DEFAULTS) {
      var raws := DecodeEvents(es).value;
      forall x | x in chunk ensures Acceptable(x.json) {
        var i :| 0 <= i < |chunk| && chunk[i] == x;
        assert raws[i] in raws;
      }
    }
  }

  // ---- both clients ------------------------------------------------------------

  /** The wire text of an event of a React application with well-formed texts. */
  ghost predicate FromReact(json: Text)
  {
    exists event: Wire.Event, app: Text, appVersion: Option<Text> ::
      WellFormedInput(event, appVersion) && json == Wire.ToJson(Wire.Converted(event, app, appVersion))
  }

  /** Every request of a React client in any reachable state passes the gateway's
      default limits, however its body is split, and is decoded and validated event
      for event. */
  lemma ReactEndToEnd(cfg: Config, steps: seq<Step>, chunk: Chunk, declared: Option<nat>, ms: seq<Message>)
    requires ValidConfig(cfg) && cfg.platform.React? && Legal(cfg, INIT, steps)
    requires forall s :: s in steps && s.Enqueue? ==> FromReact(s.json)
    requires InFlight(Run(cfg, INIT, steps), chunk)
    requires Total(ms) == Utf8Len(BuildBody(chunk)) && (declared.Some? ==> declared.value == Total(ms))
    ensures Handle(declared, ms, DEFAULTS.MaxRequestBytes()) == Complete(Total(ms)) && BatchAsSent(chunk)
  {
    ClientRequestsPass(cfg, steps, chunk, declared, ms);
    forall x | x in chunk ensures Written(x.json) && Acceptable(x.json) {
      Provenance(cfg, steps, chunk, x);
      ReactAcceptable(x.json);
    }
    hide Run, Legal, BuildBody, BatchAsSent, Acceptable, Written, Accepts;
    BodyAcceptedExactly(chunk);
  }

  lemma ReactAcceptable(json: Text)
    requires FromReact(json)
    ensures Written(json) && Acceptable(json)
  {
    hide WellFormedInput, Wire.ToJson, Wire.Converted, Acceptable, AcceptedAsSent, Written;
    var event: Wire.Event, app: Text, appVersion: Option<Text> :|
      WellFormedInput(event, appVersion) && json == Wire.ToJson(Wire.Converted(event, app, appVersion));
    ReactTextAcceptable(event, app, appVersion);
  }

  /** A Flutter event with a documented type, and the settings of its client. */
  datatype Origin = Origin(event: FM.Event, kind: Wire.EventType, app: Option<Text>, appVersion: Option<Text>)

  function TextOf(o: Origin): Text { FM.Encode(FM.Converted(o.event, o.app, o.appVersion)) }

  /** The type is documented and the application's texts are well formed. */
  predicate Documented(o: Origin)
  {
    o.event.kind == o.kind.Name() && FM.WellFormedInput(o.event, o.appVersion)
  }

  predicate Clean(o: Origin) { FM.CleanCuts(o.event, o.app, o.appVersion) }

  /** The wire text of such an event. */
  ghost predicate FromFlutter(json: Text) { exists o :: Documented(o) && json == TextOf(o) }

  /** The wire text of such an event of which the conversion separates no pair. */
  ghost predicate CleanlyCut(json: Text) { exists o :: Documented(o) && json == TextOf(o) && Clean(o) }

  lemma {:induction false} NoUnloads(cfg: Config, w: World, steps: seq<Step>)
    requires ValidConfig(cfg) && cfg.platform.Flutter? && Legal(cfg, w, steps) && w.unloads == []
    ensures Run(cfg, w, steps).unloads == []
    decreases |steps|
  {
    hide NextLen, Utf8Len;
    if steps == [] {
    } else {
      NoUnloads(cfg, Apply(cfg, w, steps[0]), steps[1..]);
    }
  }

  lemma OriginAccepted(o: Origin)
    requires Documented(o)
    ensures Written(TextOf(o)) && Utf8Len(TextOf(o)) <= Wire.MAX_EVENT_BYTES
    ensures Acceptable(TextOf(o)) <==> Clean(o)
  {
    hide FM.WellFormedInput, FM.CleanCuts, FM.Encode, FM.Converted, FM.Bytes, Acceptable, Written;
    FlutterTextAcceptable(o.event, o.kind, o.app, o.appVersion);
    FM.DocumentedTypes(o.kind);
    FM.ConvertedFits(o.event, o.app, o.appVersion);
    FM.BytesExact(FM.Converted(o.event, o.app, o.appVersion));
  }

  /** Which of the events of one text is looked at makes no difference. */
  lemma FlutterAcceptable(json: Text)
    requires FromFlutter(json)
    ensures Written(json) && Utf8Len(json) <= Wire.MAX_EVENT_BYTES
    ensures Acceptable(json) <==> CleanlyCut(json)
  {
    hide TextOf, Documented, Clean, Acceptable, Written;
    var o :| Documented(o) && json == TextOf(o);
    OriginAccepted(o);
    if CleanlyCut(json) {
      var p :| Documented(p) && json == TextOf(p) && Clean(p);
      OriginAccepted(p);
    }
  }

  /** A request of a Flutter client in any reachable state is accepted exactly when the
      conversion of none of its events separates a pair, and then it is decoded and
      validated event for event. The gateway reads it exactly when the body's running
      count is within the limit, and so always for batches of at most 99 events. */
  lemma FlutterEndToEnd(cfg: Config, steps: seq<Step>, chunk: Chunk, declared: Option<nat>, ms: seq<Message>)
    requires ValidConfig(cfg) && cfg.platform.Flutter? && Legal(cfg, INIT, steps)
    requires forall s :: s in steps && s.Enqueue? ==> FromFlutter(s.json)
    requires InFlight(Run(cfg, INIT, steps), chunk)
    requires Total(ms) == Utf8Len(BuildBody(chunk)) && (declared.Some? ==> declared.value == Total(ms))
    ensures Accepts(BuildBody(chunk), DEFAULTS) <==> forall x :: x in chunk ==> CleanlyCut(x.json)
    ensures Accepts(BuildBody(chunk), DEFAULTS) ==> BatchAsSent(chunk)
    ensures Handle(declared, ms, DEFAULTS.MaxRequestBytes()).Complete? <==> BodyBytes(chunk) <= Wire.MAX_REQUEST_BYTES
    ensures cfg.maxBatch <= 99 ==> Handle(declared, ms, DEFAULTS.MaxRequestBytes()) == Complete(Total(ms))
  {
    hide Run, Legal, BuildBody, BatchAsSent, Utf8Len, Acceptable, Written, CleanlyCut, Accepts, Sized, Handle;
    hide FromFlutter, Total, ItemBytes;
    Discipline.RequestsSized(cfg, INIT, steps);
    NoUnloads(cfg, INIT, steps);
    FlutterEvents(cfg, steps, chunk);
    BodyAcceptedExactly(chunk);
    BodyPassesExactly(chunk, declared, ms);
    SplitIndependent(declared, ms, ms, DEFAULTS.MaxRequestBytes());
  }

  lemma FlutterEvents(cfg: Config, steps: seq<Step>, chunk: Chunk)
    requires ValidConfig(cfg) && Legal(cfg, INIT, steps) && InFlight(Run(cfg, INIT, steps), chunk)
    requires forall s :: s in steps && s.Enqueue? ==> FromFlutter(s.json)
    ensures AllWritten(chunk) && AllSized(chunk)
    ensures forall x :: x in chunk ==> (Acceptable(x.json) <==> CleanlyCut(x.json))
  {
    hide Run, Legal, InFlight, FromFlutter, CleanlyCut, Written, Acceptable;
    forall x | x in chunk ensures Written(x.json) && Sized(x) && (Acceptable(x.json) <==> CleanlyCut(x.json)) {
      Provenance(cfg, steps, chunk, x);
      FlutterAcceptable(x.json);
    }
  }
}
