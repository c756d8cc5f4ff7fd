/** Exactly which Flutter clients can build a request over the gateway's body limit:
    those that may send 100 events at once, which can all be different and each exactly
    at the event limit. */
module OversizedBatch {
  import opened Wrappers
  import opened Utf16
  import opened Json
  import opened Chunking
  import opened Delivery
  import opened BodyLimit
  import opened EndToEnd
  import Decoding
  import Discipline
  import FM = FlutterModels
  import IngestModels
  import Wire

  /** Two digits and 329 letters. */
  function Message(k: nat): Text
    requires k < 100
  {
    [0x30 + k / 10, 0x30 + k % 10] + FM.Letters(329)
  }

  function LargeEvent(k: nat): FM.Event
    requires k < 100
  {
    FM.Log(Message(k), FM.Emoji(4000))
  }

  function LargeText(k: nat, app: Option<Text>): Text
    requires k < 100
  {
    FM.Encode(FM.Converted(LargeEvent(k), app, None))
  }

  lemma MessageBytes(k: nat)
    requires k < 100
    ensures |Message(k)| == 331 && JsonBytes(Message(k)) == 331 && WellFormed(Message(k))
  {
    hide FM.Letters;
    FM.LettersBytes(329);
    var m := Message(k);
    assert m[1..][1..] == FM.Letters(329);
    assert !Pair(m) && !Pair(m[1..]);
  }

  /** Each event is sent unchanged, in 16384 bytes. */
  lemma LargeEventExact(k: nat, app: Option<Text>)
    requires k < 100 && (app.Some? ==> !FM.AppMatches(app.value))
    ensures Utf8Len(LargeText(k, app)) == Wire.MAX_EVENT_BYTES
    ensures FM.WellFormedInput(LargeEvent(k), None) && FM.CleanCuts(LargeEvent(k), app, None)
  {
    hide FM.Letters, FM.Emoji, Message, JsonBytes, WellFormed, FM.Encode, Utf8Len;
    MessageBytes(k);
    FM.EmojiBytes(4000);
    FM.LogWellFormed(Message(k), FM.Emoji(4000));
    LogUntouched(Message(k), FM.Emoji(4000), app);
    FM.BytesExact(FM.Converted(LargeEvent(k), app, None));
  }

  lemma LogUntouched(message: Text, stack: Text, app: Option<Text>)
    requires |message| <= FM.LAST_RESORT && |stack| <= FM.MAX_STACK && (app.Some? ==> !FM.AppMatches(app.value))
    requires 53 + JsonBytes(message) + JsonBytes(stack) <= FM.MAX_EVENT_BYTES
    requires FM.WellFormedInput(FM.Log(message, stack), None)
    ensures FM.Bytes(FM.Converted(FM.Log(message, stack), app, None)) == 53 + JsonBytes(message) + JsonBytes(stack)
    ensures FM.CleanCuts(FM.Log(message, stack), app, None)
  {
    FM.LogShape(message, stack, app);
    FM.LogBytes(message, stack);
    hide JsonBytes, FM.Bytes, FM.Shape, Lit, WellFormed;
    FM.ReadableExactly(FM.Log(message, stack), app, None);
    hide FM.CleanCuts;
    assert FM.Converted(FM.Log(message, stack), app, None) == FM.LogMap(message, stack);
  }

  /** No two of them are duplicates of each other. */
  lemma LargeEventsDiffer(i: nat, j: nat)
    requires i < j < 100
    ensures FM.Signature(LargeEvent(i)) != FM.Signature(LargeEvent(j))
  {
    hide FM.Letters, FM.Emoji;
    var a, b := FM.Signature(LargeEvent(i)), FM.Signature(LargeEvent(j));
    assert a[4] == 0x30 + i / 10 && a[5] == 0x30 + i % 10;
    assert b[4] == 0x30 + j / 10 && b[5] == 0x30 + j % 10;
  }

  // ---- the run -------------------------------------------------------------------

  /** A Flutter client whose requests can carry 100 events. */
  predicate Wide(cfg: Config)
  {
    ValidConfig(cfg) && cfg.platform.Flutter? && cfg.maxBatch == 100 && !(0 <= cfg.maxQueue <= 99)
  }

  /** The events `0 .. n` as the client queues them. */
  function Items(app: Option<Text>, n: nat): Chunk
    requires n <= 100
  {
    if n == 0 then [] else Items(app, n - 1) + [Item(n - 1, LargeText(n - 1, app), Utf8Len(LargeText(n - 1, app)))]
  }

  function Enqueues(app: Option<Text>, n: nat): seq<Step>
    requires n <= 100
  {
    if n == 0 then [] else Enqueues(app, n - 1) + [Enqueue(LargeText(n - 1, app))]
  }

  lemma {:induction false} ItemsLength(app: Option<Text>, n: nat)
    requires n <= 100
    ensures |Items(app, n)| == n
    decreases n, app
  {
    hide LargeText, Utf8Len;
    if n == 0 {
    } else {
      ItemsLength(app, n - 1);
    }
  }

  lemma {:induction false} Filled(cfg: Config, app: Option<Text>, n: nat)
    requires Wide(cfg) && n < 100
    ensures Legal(cfg, INIT, Enqueues(app, n))
    ensures Run(cfg, INIT, Enqueues(app, n))
         == INIT.(fields := Fields(Items(app, n), false, false), accepted := Items(app, n))
    decreases n, app
  {
    hide LargeText, Utf8Len;
    if n == 0 {
    } else {
      Filled(cfg, app, n - 1);
      ItemsLength(app, n - 1);
      ItemsLength(app, n);
      RunSnoc(cfg, INIT, Enqueues(app, n - 1), Enqueue(LargeText(n - 1, app)));
      var queue := Items(app, n);
      assert queue[0..] == queue && INIT.trimmed + queue[..0] == INIT.trimmed;
    }
  }

  /** A flush starts a drain, and the last event arrives while it waits for its token. */
  function OversizedRun(app: Option<Text>): seq<Step>
  {
    Enqueues(app, 99) + [Flush] + [ProviderReturns(0)] + [Enqueue(LargeText(99, app))] + [TokenReady(0)]
  }

  lemma {:induction false} ItemsFull(app: Option<Text>, n: nat)
    requires n <= 100 && (app.Some? ==> !FM.AppMatches(app.value))
    ensures AllSized(Items(app, n)) && forall x :: x in Items(app, n) ==> x.bytes == Wire.MAX_EVENT_BYTES
    decreases n, app
  {
    hide LargeText, LargeEvent, Utf8Len, FM.AppMatches, FM.CleanCuts, FM.WellFormedInput;
    if n == 0 {
    } else {
      ItemsFull(app, n - 1);
      LargeEventExact(n - 1, app);
      SizedAppend(Items(app, n - 1), Item(n - 1, LargeText(n - 1, app), Utf8Len(LargeText(n - 1, app))));
    }
  }

  lemma SizedAppend(chunk: Chunk, item: Item)
    requires AllSized(chunk) && forall x :: x in chunk ==> x.bytes == Wire.MAX_EVENT_BYTES
    requires item.bytes == Utf8Len(item.json) == Wire.MAX_EVENT_BYTES
    ensures AllSized(chunk + [item]) && forall x :: x in chunk + [item] ==> x.bytes == Wire.MAX_EVENT_BYTES
  {
  }

  /** The client with these events queued, and a drain waiting for its token. */
  function Waiting(queue: Chunk): World
  {
    INIT.(fields := Fields(queue, true, false), accepted := queue, drains := [AwaitingToken])
  }

  lemma DrainStarts(cfg: Config, queue: Chunk)
    requires Wide(cfg) && queue != []
    ensures var w := Apply(cfg, INIT.(fields := Fields(queue, false, false), accepted := queue), Flush);
            Enabled(cfg, w, ProviderReturns(0)) && Apply(cfg, w, ProviderReturns(0)) == Waiting(queue)
  {
    var w := Apply(cfg, INIT.(fields := Fields(queue, false, false), accepted := queue), Flush);
    assert w.drains == [CallingProvider];
    assert [CallingProvider][0 := AwaitingToken] == [AwaitingToken];
  }

  lemma LastJoins(cfg: Config, queue: Chunk, json: Text)
    requires Wide(cfg) && |queue| == 99
    ensures var full := queue + [Item(99, json, Utf8Len(json))];
            Enabled(cfg, Waiting(queue), Enqueue(json)) && Apply(cfg, Waiting(queue), Enqueue(json)) == Waiting(full)
  {
    hide Utf8Len;
    var full := queue + [Item(99, json, Utf8Len(json))];
    assert full[0..] == full && INIT.trimmed + full[..0] == INIT.trimmed;
  }

  lemma AllLeave(cfg: Config, full: Chunk)
    requires Wide(cfg) && |full| == 100
    ensures Enabled(cfg, Waiting(full), TokenReady(0))
    ensures Apply(cfg, Waiting(full), TokenReady(0)).drains == [Sending(full)]
  {
    assert full[..100] == full;
  }

  lemma Departs(cfg: Config, app: Option<Text>)
    requires Wide(cfg)
    ensures Legal(cfg, INIT, OversizedRun(app))
    ensures Run(cfg, INIT, OversizedRun(app)).drains == [Sending(Items(app, 100))]
  {
    hide LargeText, Utf8Len, Run, Legal, Items, Apply, Enabled, Waiting;
    Filled(cfg, app, 99);
    ItemsLength(app, 99);
    LastItem(app);
    DrainStarts(cfg, Items(app, 99));
    LastJoins(cfg, Items(app, 99), LargeText(99, app));
    ItemsLength(app, 100);
    AllLeave(cfg, Items(app, 100));
    FlushEnabled(cfg, Run(cfg, INIT, Enqueues(app, 99)));
    var steps := Enqueues(app, 99);
    RunSnoc(cfg, INIT, steps, Flush);
    RunSnoc(cfg, INIT, steps + [Flush], ProviderReturns(0));
    RunSnoc(cfg, INIT, steps + [Flush] + [ProviderReturns(0)], Enqueue(LargeText(99, app)));
    RunSnoc(cfg, INIT, steps + [Flush] + [ProviderReturns(0)] + [Enqueue(LargeText(99, app))], TokenReady(0));
  }

  lemma FlushEnabled(cfg: Config, w: World)
    ensures Enabled(cfg, w, Flush)
  {
  }

  lemma LastItem(app: Option<Text>)
    ensures Items(app, 100) == Items(app, 99) + [Item(99, LargeText(99, app), Utf8Len(LargeText(99, app)))]
  {
    hide LargeText, Utf8Len;
  }

  /** The run of 100 such events, for any app name that is not sent and any client whose
      requests can carry them: it ends up sending one request that is 112 bytes over the
      gateway's limit. The reply, 413, makes the client drop all 100. */
  lemma OversizedRequest(cfg: Config, app: Option<Text>, declared: Option<nat>, ms: seq<BodyLimit.Message>)
    requires Wide(cfg) && (app.Some? ==> !FM.AppMatches(app.value))
    requires Total(ms) == Wire.MAX_REQUEST_BYTES + 112
    ensures Legal(cfg, INIT, OversizedRun(app)) && InFlight(Run(cfg, INIT, OversizedRun(app)), Items(app, 100))
    ensures Utf8Len(BuildBody(Items(app, 100))) == Total(ms)
    ensures Handle(declared, ms, IngestModels.DEFAULTS.MaxRequestBytes()).TooLarge?
  {
    hide BuildBody, Utf8Len, Run, Legal, Items, OversizedRun, FM.AppMatches, Sized, Handle, Total;
    Departs(cfg, app);
    ItemsLength(app, 100);
    ItemsFull(app, 100);
    FullBatchExceeds(Items(app, 100));
    assert Sending(Items(app, 100)) in Run(cfg, INIT, OversizedRun(app)).drains;
    SplitIndependent(declared, ms, ms, IngestModels.DEFAULTS.MaxRequestBytes());
  }

  // ---- which clients can do this ---------------------------------------------------

  /** The queue bound is also a bound on what a drain takes. */
  predicate Narrow(cfg: Config, w: World)
  {
    cfg.maxQueue >= 0 ==>
      |w.fields.queue| <= cfg.maxQueue && forall d :: d in w.drains && d.Sending? ==> |d.chunk| <= cfg.maxQueue
  }

  lemma StepNarrow(cfg: Config, w: World, s: Step)
    requires ValidConfig(cfg) && cfg.platform.Flutter? && Enabled(cfg, w, s) && Narrow(cfg, w)
    ensures Narrow(cfg, Apply(cfg, w, s))
  {
    Discipline.StepTrims(cfg, w, s);
    hide Utf8Len, NextLen;
    ChunkBounds(cfg, w.fields.queue);
  }

  lemma {:induction false} RunNarrow(cfg: Config, w: World, steps: seq<Step>)
    requires ValidConfig(cfg) && cfg.platform.Flutter? && Legal(cfg, w, steps) && Narrow(cfg, w)
    ensures Narrow(cfg, Run(cfg, w, steps))
    decreases |steps|
  {
    hide Apply, Enabled, Narrow;
    if steps == [] {
    } else {
      StepNarrow(cfg, w, steps[0]);
      RunNarrow(cfg, Apply(cfg, w, steps[0]), steps[1..]);
    }
  }

  /** The run enqueues only events of documented types with well-formed texts. */
  ghost predicate FlutterEventsOnly(steps: seq<Step>) { forall s :: s in steps && s.Enqueue? ==> FromFlutter(s.json) }

  /** In no run of such events does a request exceed the gateway's body limit. */
  ghost predicate RequestsFit(cfg: Config)
    requires ValidConfig(cfg)
  {
    forall steps, chunk ::
      Legal(cfg, INIT, steps) && FlutterEventsOnly(steps) && InFlight(Run(cfg, INIT, steps), chunk) ==>
        Utf8Len(BuildBody(chunk)) <= Wire.MAX_REQUEST_BYTES
  }

  lemma NarrowFits(cfg: Config, steps: seq<Step>, chunk: Chunk)
    requires ValidConfig(cfg) && cfg.platform.Flutter? && !Wide(cfg)
    requires Legal(cfg, INIT, steps) && FlutterEventsOnly(steps) && InFlight(Run(cfg, INIT, steps), chunk)
    ensures Utf8Len(BuildBody(chunk)) <= Wire.MAX_REQUEST_BYTES
  {
    hide Run, Legal, BuildBody, Utf8Len, Sized, AllWritten, ItemBytes, FromFlutter;
    hide Decoding.Acceptable, CleanlyCut;
    Discipline.RequestsSized(cfg, INIT, steps);
    RunNarrow(cfg, INIT, steps);
    NoUnloads(cfg, INIT, steps);
    FlutterEvents(cfg, steps, chunk);
    BodyBytesExact(chunk);
    ItemBytesBound(chunk);
  }

  lemma {:induction false} LargeEventsOnly(app: Option<Text>, n: nat)
    requires n <= 100 && (app.Some? ==> !FM.AppMatches(app.value))
    ensures FlutterEventsOnly(Enqueues(app, n))
    decreases n, app
  {
    hide LargeText, FromFlutter, FM.AppMatches;
    if n == 0 {
    } else {
      LargeEventsOnly(app, n - 1);
      LargeFromFlutter(n - 1, app);
    }
  }

  lemma LargeFromFlutter(k: nat, app: Option<Text>)
    requires k < 100 && (app.Some? ==> !FM.AppMatches(app.value))
    ensures FromFlutter(LargeText(k, app))
  {
    hide FM.Encode, FM.Converted, Message, FM.Emoji, FM.WellFormedInput, FM.CleanCuts, Utf8Len, FM.AppMatches;
    LargeEventExact(k, app);
    var o := Origin(LargeEvent(k), Wire.LogType, app, None);
    assert Documented(o) && TextOf(o) == LargeText(k, app);
  }

  /** No request of a Flutter client ever exceeds the gateway's body limit exactly when
      its batch size or its queue bound is at most 99. */
  lemma FlutterFitsExactly(cfg: Config)
    requires ValidConfig(cfg) && cfg.platform.Flutter?
    ensures RequestsFit(cfg) <==> cfg.maxBatch <= 99 || 0 <= cfg.maxQueue <= 99
  {
    hide Run, Legal, InFlight, BuildBody, Utf8Len, FlutterEventsOnly;
    if Wide(cfg) {
      var steps := OversizedRun(None);
      OversizedOnly();
      OversizedBody(cfg);
      assert !RequestsFit(cfg) by { hide OversizedRun, Items; }
    } else {
      forall steps, chunk |
        Legal(cfg, INIT, steps) && FlutterEventsOnly(steps) && InFlight(Run(cfg, INIT, steps), chunk)
        ensures Utf8Len(BuildBody(chunk)) <= Wire.MAX_REQUEST_BYTES
      {
        NarrowFits(cfg, steps, chunk);
      }
    }
  }

  lemma OversizedOnly()
    ensures FlutterEventsOnly(OversizedRun(None))
  {
    hide LargeText, FromFlutter, Enqueues;
    LargeEventsOnly(None, 99);
    LargeFromFlutter(99, None);
  }

  lemma OversizedBody(cfg: Config)
    requires Wide(cfg)
    ensures Legal(cfg, INIT, OversizedRun(None)) && InFlight(Run(cfg, INIT, OversizedRun(None)), Items(None, 100))
    ensures Utf8Len(BuildBody(Items(None, 100))) > Wire.MAX_REQUEST_BYTES
  {
    hide BuildBody, Utf8Len, Run, Legal, Items, OversizedRun, Handle;
    var ms := [BodyLimit.Body(Wire.MAX_REQUEST_BYTES + 112)];
    assert ms[1..] == [] && Total(ms) == Wire.MAX_REQUEST_BYTES + 112 + Total(ms[1..]);
    OversizedRequest(cfg, None, None, ms);
  }
}
