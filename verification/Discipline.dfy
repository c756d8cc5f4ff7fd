/** What every run of the delivery protocol keeps: one drain at a time, bounded
    retries, a bounded queue that gives up its oldest events first, and requests
    within the gateway's limits. */
module Discipline {
  import opened Wrappers
  import opened Json
  import opened Chunking
  import opened Delivery
  import Utf16
  import Wire

  // ---- single flight ---------------------------------------------------------

  /** At most one drain, and `inFlight` is set exactly while there is one that is not
      still calling the token provider. */
  predicate SingleFlight(w: World)
  {
    |w.drains| <= 1 && (w.fields.inFlight <==> |w.drains| == 1 && !w.drains[0].CallingProvider?)
  }

  /** The step starts a drain: a timer tick, an explicit flush, or an event that fills a
      batch. */
  predicate Starts(cfg: Config, w: World, s: Step)
  {
    && !w.fields.inFlight
    && match s
       case Tick => cfg.platform.React? || w.fields.queue != []
       case Flush => cfg.platform.React? || w.fields.queue != []
       case Enqueue(_) => !w.fields.backingOff && cfg.maxBatch <= cfg.maxQueue && cfg.maxBatch <= |w.fields.queue| + 1
       case _ => false
  }

  /** The token provider, called by a drain, makes a call that starts another. */
  predicate Reenters(cfg: Config, w: World, s: Step) { Calling(w) && Starts(cfg, w, s) }

  /** A step keeps a single drain single exactly when the provider does not re-enter. */
  lemma StepSingleFlight(cfg: Config, w: World, s: Step)
    requires ValidConfig(cfg) && Enabled(cfg, w, s) && SingleFlight(w)
    ensures SingleFlight(Apply(cfg, w, s)) <==> !Reenters(cfg, w, s)
    ensures Reenters(cfg, w, s) ==> |Apply(cfg, w, s).drains| == 2
  {
    hide Divide, NextLen;
    if s.SendDone? { ChunkBounds(cfg, w.fields.queue); }
  }

  /** No step of the run re-enters. */
  predicate NoReentry(cfg: Config, w: World, steps: seq<Step>)
    requires ValidConfig(cfg) && Legal(cfg, w, steps)
    decreases |steps|
  {
    steps == [] || (!Reenters(cfg, w, steps[0]) && NoReentry(cfg, Apply(cfg, w, steps[0]), steps[1..]))
  }

  /** At every moment of the run at most one drain exists. */
  predicate NeverTwo(cfg: Config, w: World, steps: seq<Step>)
    requires ValidConfig(cfg) && Legal(cfg, w, steps)
    decreases |steps|
  {
    |w.drains| <= 1 && (steps == [] || NeverTwo(cfg, Apply(cfg, w, steps[0]), steps[1..]))
  }

  /** A run never has two drains exactly when the token provider never starts one
      from inside the call that another drain makes. */
  lemma {:induction false} OneDrainExactly(cfg: Config, w: World, steps: seq<Step>)
    requires ValidConfig(cfg) && Legal(cfg, w, steps) && SingleFlight(w)
    ensures NeverTwo(cfg, w, steps) <==> NoReentry(cfg, w, steps)
    decreases |steps|
  {
    hide Apply, Reenters;
    if steps == [] {
    } else {
      StepSingleFlight(cfg, w, steps[0]);
      if !Reenters(cfg, w, steps[0]) {
        OneDrainExactly(cfg, Apply(cfg, w, steps[0]), steps[1..]);
      }
    }
  }

  /** A provider that flushes: the promise of the outer drain is not stored yet, so a
      second drain starts. */
  lemma ReentryOverlaps(cfg: Config, json: Utf16.Text)
    requires ValidConfig(cfg) && cfg.maxBatch > 1 && cfg.maxQueue != 0 && Utf8Len(json) <= Wire.MAX_EVENT_BYTES
    ensures var steps := [Enqueue(json)] + ([Flush] + ([Flush] + []));
            Legal(cfg, INIT, steps) && !NeverTwo(cfg, INIT, steps) && |Run(cfg, INIT, steps).drains| == 2
  {
    hide Run, Legal, NeverTwo, Utf8Len;
    var item := Item(0, json, Utf8Len(json));
    var w1 := Apply(cfg, INIT, Enqueue(json));
    assert w1 == INIT.(fields := Fields([item], false, false), accepted := [item]);
    var w2 := Apply(cfg, w1, Flush);
    assert w2.drains == [CallingProvider];
    var w3 := Apply(cfg, w2, Flush);
    assert w3.drains == [CallingProvider, CallingProvider];
    hide Apply, Enabled;
    RunEmpty(cfg, w3);
    RunCons(cfg, w2, Flush, []);
    RunCons(cfg, w1, Flush, [Flush] + []);
    RunCons(cfg, INIT, Enqueue(json), [Flush] + ([Flush] + []));
    if NeverTwo(cfg, INIT, [Enqueue(json)] + ([Flush] + ([Flush] + []))) {
      EndsSingle(cfg, INIT, [Enqueue(json)] + ([Flush] + ([Flush] + [])));
    }
  }

  lemma {:induction false} EndsSingle(cfg: Config, w: World, steps: seq<Step>)
    requires ValidConfig(cfg) && Legal(cfg, w, steps) && NeverTwo(cfg, w, steps)
    ensures |Run(cfg, w, steps).drains| <= 1
    decreases |steps|
  {
    hide Apply;
    if steps == [] {
    } else {
      EndsSingle(cfg, Apply(cfg, w, steps[0]), steps[1..]);
    }
  }

  // ---- retry bound -----------------------------------------------------------

  /** Some drain can still end in a retry. */
  predicate Active(w: World)
  {
    exists i :: 0 <= i < |w.drains| && !w.drains[i].Returned?
  }

  /** The retry that the current state may yet produce without outside help. */
  function Credit(w: World): nat
  {
    if !w.fields.backingOff || Active(w) then 1 else 0
  }

  /** Timer ticks and explicit `flush` calls. */
  function Wakeups(steps: seq<Step>): nat
  {
    if steps == [] then 0 else (if steps[0].Tick? || steps[0].Flush? then 1 else 0) + Wakeups(steps[1..])
  }

  lemma StepCredit(cfg: Config, w: World, s: Step)
    requires ValidConfig(cfg) && cfg.platform.React? && Enabled(cfg, w, s) && SingleFlight(w)
    requires !Reenters(cfg, w, s)
    ensures var r := Apply(cfg, w, s);
            r.retries + Credit(r) <= w.retries + Credit(w) + if s.Tick? || s.Flush? then 1 else 0
  {
    hide Divide, NextLen;
    if s.SendDone? { ChunkBounds(cfg, w.fields.queue); }
  }

  lemma {:induction false} RunCredit(cfg: Config, w: World, steps: seq<Step>)
    requires ValidConfig(cfg) && Legal(cfg, w, steps) && SingleFlight(w) && NoReentry(cfg, w, steps)
    ensures var r := Run(cfg, w, steps);
            && SingleFlight(r)
            && (cfg.platform.React? ==> r.retries + Credit(r) <= w.retries + Credit(w) + Wakeups(steps))
    decreases |steps|
  {
    hide Apply, Credit, Reenters, SingleFlight;
    if steps == [] {
    } else {
      StepSingleFlight(cfg, w, steps[0]);
      if cfg.platform.React? { StepCredit(cfg, w, steps[0]); }
      RunCredit(cfg, Apply(cfg, w, steps[0]), steps[1..]);
    }
  }

  /** Unless the token provider re-enters, at most one drain exists in any reachable
      state, and a React client's drains fail retryably at most once more than it is
      woken, however much is enqueued. */
  lemma RetryBound(cfg: Config, steps: seq<Step>)
    requires ValidConfig(cfg) && Legal(cfg, INIT, steps) && NoReentry(cfg, INIT, steps)
    ensures |Run(cfg, INIT, steps).drains| <= 1
    ensures cfg.platform.React? ==> Run(cfg, INIT, steps).retries <= 1 + Wakeups(steps)
  {
    RunCredit(cfg, INIT, steps);
  }

  /** Backing off, with no drain that could still fail. */
  predicate Quiet(w: World) { w.fields.backingOff && !Active(w) }

  lemma StepQuiet(cfg: Config, w: World, s: Step)
    requires ValidConfig(cfg) && cfg.platform.React? && Enabled(cfg, w, s) && Quiet(w)
    requires !s.Tick? && !s.Flush?
    ensures var r := Apply(cfg, w, s); Quiet(r) && r.retries == w.retries
  {
    hide Divide, NextLen;
  }

  /** After a retryable failure the client stays quiet: until a tick or an explicit
      flush no drain is active, whatever is enqueued and whatever replies arrive. */
  lemma {:induction false} QuietUntilWoken(cfg: Config, w: World, steps: seq<Step>)
    requires ValidConfig(cfg) && cfg.platform.React? && Legal(cfg, w, steps) && Quiet(w)
    requires Wakeups(steps) == 0
    ensures var r := Run(cfg, w, steps); Quiet(r) && r.retries == w.retries
    decreases |steps|
  {
    hide Apply, Quiet;
    if steps == [] {
    } else {
      StepQuiet(cfg, w, steps[0]);
      QuietUntilWoken(cfg, Apply(cfg, w, steps[0]), steps[1..]);
    }
  }

  /** The source says backoff lasts until the next timer tick. Exactly: it ends at a
      tick, or when a drain finds the queue empty after its token or after a request
      that did not fail retryably. */
  lemma BackoffEnds(cfg: Config, w: World, s: Step)
    requires ValidConfig(cfg) && cfg.platform.React? && Enabled(cfg, w, s) && w.fields.backingOff
    ensures !Apply(cfg, w, s).fields.backingOff <==>
              s.Tick? || ((s.TokenReady? || (s.SendDone? && !s.outcome.Retry?)) && w.fields.queue == [])
  {
    hide Divide, NextLen;
    ChunkBounds(cfg, w.fields.queue);
  }

  lemma RunCons(cfg: Config, w: World, s: Step, rest: seq<Step>)
    requires ValidConfig(cfg) && Enabled(cfg, w, s) && Legal(cfg, Apply(cfg, w, s), rest)
    ensures Legal(cfg, w, [s] + rest) && Run(cfg, w, [s] + rest) == Run(cfg, Apply(cfg, w, s), rest)
  {
    hide Apply, Enabled;
    assert ([s] + rest)[1..] == rest;
  }

  /** The client after a flush has sent its one queued event with outcome `o`. */
  function AfterRequest(w: World, item: Item, o: Outcome): World
  {
    if o.Retry? then w.(fields := Fields([item], true, true), drains := [Returned], retries := w.retries + 1)
    else w.(fields := Fields([], true, false), drains := [Returned], sent := w.sent + [item])
  }

  lemma OneRequest(cfg: Config, w: World, item: Item, o: Outcome, rest: seq<Step>)
    requires ValidConfig(cfg) && cfg.platform.React? && cfg.transport && !o.Dropped?
    requires w.fields.queue == [item] && !w.fields.inFlight && w.drains == []
    requires Legal(cfg, AfterRequest(w, item, o), rest)
    ensures var steps := [Flush] + ([ProviderReturns(0)] + ([TokenReady(0)] + ([SendDone(0, o)] + rest)));
            Legal(cfg, w, steps) && Run(cfg, w, steps) == Run(cfg, AfterRequest(w, item, o), rest)
  {
    ChunkBounds(cfg, [item]);
    hide NextLen, Run, Legal;
    var w0 := Apply(cfg, w, Flush);
    assert w.drains + [CallingProvider] == [CallingProvider];
    assert w0 == w.(drains := [CallingProvider]);
    var w1 := Apply(cfg, w0, ProviderReturns(0));
    assert [CallingProvider][0 := AwaitingToken] == [AwaitingToken];
    assert w1 == w.(fields := w.fields.(inFlight := true), drains := [AwaitingToken]);
    var w2 := Apply(cfg, w1, TokenReady(0));
    assert NextLen(cfg, [item]) == 1 && [item][..1] == [item] && [item][1..] == [];
    assert [AwaitingToken][0 := Sending([item])] == [Sending([item])];
    assert w2 == w.(fields := Fields([], true, w.fields.backingOff), drains := [Sending([item])]);
    AnswerRequest(cfg, w, w2, item, o);
    RunCons(cfg, w2, SendDone(0, o), rest);
    RunCons(cfg, w1, TokenReady(0), [SendDone(0, o)] + rest);
    RunCons(cfg, w0, ProviderReturns(0), [TokenReady(0)] + ([SendDone(0, o)] + rest));
    RunCons(cfg, w, Flush, [ProviderReturns(0)] + ([TokenReady(0)] + ([SendDone(0, o)] + rest)));
  }

  lemma AnswerRequest(cfg: Config, w: World, flying: World, item: Item, o: Outcome)
    requires ValidConfig(cfg) && cfg.platform.React? && cfg.transport && !o.Dropped?
    requires flying == w.(fields := Fields([], true, w.fields.backingOff), drains := [Sending([item])])
    ensures Enabled(cfg, flying, SendDone(0, o)) && Apply(cfg, flying, SendDone(0, o)) == AfterRequest(w, item, o)
  {
    assert [item] + [] == [item] && w.trimmed + [] == w.trimmed;
    assert [Sending([item])][0 := Returned] == [Returned];
    assert [Sending([item])][0 := AwaitingToken][0 := Returned] == [Returned];
  }

  /** A retry, then a flush that succeeds: no step is a tick, yet backoff is over. */
  function Recovery(json: Utf16.Text): seq<Step>
  {
    var rest := [Flush] + ([ProviderReturns(0)] + ([TokenReady(0)] + ([SendDone(0, Sent)] + [])));
    [Enqueue(json)]
    + ([Flush] + ([ProviderReturns(0)] + ([TokenReady(0)] + ([SendDone(0, Retry)] + ([Settle(0)] + rest)))))
  }

  /** Any event will do. */
  lemma BackoffEndsWithoutTick(event: Wire.Event, app: Utf16.Text)
    ensures var cfg := Config(React, 20, 500, true);
            var steps := Recovery(Wire.ToJson(Wire.Converted(event, app, None)));
            && (forall s :: s in steps ==> !s.Tick?) && Legal(cfg, INIT, steps)
            && Run(cfg, INIT, steps).retries == 1 && !Run(cfg, INIT, steps).fields.backingOff
  {
    Wire.ConvertedFits(event, app, None);
    Wire.BytesExact(Wire.Converted(event, app, None));
    Recovers(Config(React, 20, 500, true), Wire.ToJson(Wire.Converted(event, app, None)));
  }

  lemma Recovers(cfg: Config, json: Utf16.Text)
    requires cfg == Config(React, 20, 500, true) && Utf8Len(json) <= Wire.MAX_EVENT_BYTES
    ensures (forall s :: s in Recovery(json) ==> !s.Tick?) && Legal(cfg, INIT, Recovery(json))
    ensures Run(cfg, INIT, Recovery(json)).retries == 1 && !Run(cfg, INIT, Recovery(json)).fields.backingOff
  {
    hide Run, Legal, Utf8Len;
    var item := Item(0, json, Utf8Len(json));
    var w1 := INIT.(fields := Fields([item], false, false), accepted := [item]);
    assert Enabled(cfg, INIT, Enqueue(json)) && Apply(cfg, INIT, Enqueue(json)) == w1;
    var w2 := AfterRequest(w1, item, Retry);
    var w3 := w2.(fields := Fields([item], false, true), drains := []);
    assert Enabled(cfg, w2, Settle(0)) && Apply(cfg, w2, Settle(0)) == w3;
    hide Apply, Enabled;
    var second := [Flush] + ([ProviderReturns(0)] + ([TokenReady(0)] + ([SendDone(0, Sent)] + [])));
    RunEmpty(cfg, AfterRequest(w3, item, Sent));
    OneRequest(cfg, w3, item, Sent, []);
    RunCons(cfg, w2, Settle(0), second);
    OneRequest(cfg, w1, item, Retry, [Settle(0)] + second);
    RunCons(cfg, INIT, Enqueue(json),
            [Flush] + ([ProviderReturns(0)] + ([TokenReady(0)] + ([SendDone(0, Retry)] + ([Settle(0)] + second)))));
  }

  lemma RunEmpty(cfg: Config, w: World)
    requires ValidConfig(cfg)
    ensures Legal(cfg, w, []) && Run(cfg, w, []) == w
  {
  }

  // ---- queue bound, newest wins ----------------------------------------------

  /** A step that puts events into the queue, and the queue it would give without a bound. */
  predicate Offers(s: Step)
  {
    s.Enqueue? || (s.SendDone? && s.outcome.Retry?) || (s.UnloadReply? && s.outcome.Retry?)
  }

  function Offered(cfg: Config, w: World, s: Step): Chunk
    requires Enabled(cfg, w, s) && Offers(s)
  {
    match s
    case Enqueue(json) => w.fields.queue + [Item(|w.accepted|, json, Utf8Len(json))]
    case SendDone(i, _) => w.drains[i].chunk + w.fields.queue
    case UnloadReply(i, _) => w.unloads[i] + w.fields.queue
  }

  /** The queue is within its bound, if that is not negative. */
  predicate Bounded(cfg: Config, w: World) { cfg.maxQueue >= 0 ==> |w.fields.queue| <= cfg.maxQueue }

  /** A step keeps the queue within its bound; it trims only the oldest events of what
      was offered, only when `maxQueue` newer ones remain queued, and therefore never
      anything under a negative bound. */
  lemma StepTrims(cfg: Config, w: World, s: Step)
    requires ValidConfig(cfg) && Enabled(cfg, w, s) && Bounded(cfg, w)
    ensures var r := Apply(cfg, w, s);
            && Bounded(cfg, r)
            && w.trimmed <= r.trimmed
            && var dropped := r.trimmed[|w.trimmed|..];
               && (Offers(s) ==> dropped + r.fields.queue == Offered(cfg, w, s))
               && (dropped != [] ==> Offers(s) && |r.fields.queue| == cfg.maxQueue)
  {
    hide Divide, NextLen;
    if s.SendDone? { ChunkBounds(cfg, w.fields.queue); }
    if s.TokenReady? { ChunkBounds(cfg, w.fields.queue); }
    if Offers(s) {
      var q := Offered(cfg, w, s);
      var n := ExcessLen(q, cfg.maxQueue);
      assert q[..n] + q[n..] == q;
      assert (w.trimmed + q[..n])[|w.trimmed|..] == q[..n];
    }
  }

  lemma {:induction false} QueueBound(cfg: Config, w: World, steps: seq<Step>)
    requires ValidConfig(cfg) && Legal(cfg, w, steps) && Bounded(cfg, w)
    ensures Bounded(cfg, Run(cfg, w, steps))
    ensures cfg.maxQueue < 0 ==> Run(cfg, w, steps).trimmed == w.trimmed
    decreases |steps|
  {
    hide Apply;
    if steps == [] {
    } else {
      StepTrims(cfg, w, steps[0]);
      QueueBound(cfg, Apply(cfg, w, steps[0]), steps[1..]);
    }
  }

  // ---- unload ----------------------------------------------------------------

  predicate UnloadSized(cfg: Config, c: Chunk)
  {
    0 < |c| <= cfg.maxBatch && Utf8Len(BuildBody(c)) <= 60000
  }

  lemma SlicesSized(q: Chunk, n: nat)
    requires n <= |q| && AllSized(q)
    ensures AllSized(q[..n]) && AllSized(q[n..])
  {
    assert forall x :: x in q[..n] ==> x in q;
    assert forall x :: x in q[n..] ==> x in q;
  }

  lemma FlattenCons(c: Chunk, cs: seq<Chunk>)
    ensures Flatten([c] + cs) == c + Flatten(cs)
  {
    assert ([c] + cs)[1..] == cs;
  }

  lemma Prepend(head: Chunk, a: Chunk, b: Chunk, c: Chunk)
    ensures (head + a) + b + c == head + (a + b + c)
  {
  }

  lemma {:induction false} DivideConcat(cfg: Config, queue: Chunk, throwAt: Option<nat>)
    requires ValidConfig(cfg)
    ensures var d := Divide(cfg, queue, throwAt); Flatten(d.requests) + d.lost + d.rest == queue
    decreases |queue|
  {
    hide ChunkLen, Divide;
    DivideTurn(cfg, queue, throwAt);
    var n := ChunkLen(queue, cfg.maxBatch, UNLOAD_CHUNK_BYTES);
    assert queue[..n] + queue[n..] == queue;
    if queue == [] || throwAt == Some(0) {
      assert [] + queue[..n] == queue[..n];
    } else {
      hide Flatten;
      var rest := if throwAt.Some? then Some(throwAt.value - 1) else None;
      DivideConcat(cfg, queue[n..], rest);
      var d := Divide(cfg, queue[n..], rest);
      FlattenCons(queue[..n], d.requests);
      Prepend(queue[..n], Flatten(d.requests), d.lost, d.rest);
    }
  }

  /** `flushOnUnload` cuts the queue, in order, into requests within the keepalive
      budget. If a send throws, that one chunk is lost and the rest stays queued;
      otherwise the queue is emptied and nothing is lost. */
  lemma {:induction false} UnloadCuts(cfg: Config, queue: Chunk, throwAt: Option<nat>)
    requires ValidConfig(cfg) && AllSized(queue)
    ensures var d := Divide(cfg, queue, throwAt);
            && Flatten(d.requests) + d.lost + d.rest == queue
            && (forall c :: c in d.requests ==> UnloadSized(cfg, c) && AllSized(c))
            && (throwAt.None? ==> d.rest == [] && d.lost == [])
            && |d.lost| <= cfg.maxBatch && AllSized(d.rest)
    decreases |queue|
  {
    DivideConcat(cfg, queue, throwAt);
    if queue == [] {
    } else {
      ChunkFits(queue, cfg.maxBatch, UNLOAD_CHUNK_BYTES);
      hide ChunkLen, BuildBody, Utf8Len, Sized, Flatten;
      var n := ChunkLen(queue, cfg.maxBatch, UNLOAD_CHUNK_BYTES);
      SlicesSized(queue, n);
      assert UnloadSized(cfg, queue[..n]);
      if throwAt != Some(0) {
        UnloadCuts(cfg, queue[n..], if throwAt.Some? then Some(throwAt.value - 1) else None);
      }
    }
  }

  /** Each of these requests is the longest prefix of what was left that fits. */
  lemma {:induction false} UnloadGreedy(cfg: Config, queue: Chunk, throwAt: Option<nat>, k: nat)
    requires ValidConfig(cfg) && k < |Divide(cfg, queue, throwAt).requests|
    ensures var d := Divide(cfg, queue, throwAt);
            LongestWithin(Flatten(d.requests[k..]) + d.lost + d.rest, cfg.maxBatch, 60000, |d.requests[k]|)
    decreases |queue|
  {
    hide LongestWithin, ChunkLen, Divide, Flatten;
    DivideTurn(cfg, queue, throwAt);
    var n := ChunkLen(queue, cfg.maxBatch, UNLOAD_CHUNK_BYTES);
    var d := Divide(cfg, queue, throwAt);
    if k == 0 {
      DivideConcat(cfg, queue, throwAt);
      ChunkLenLongest(queue, cfg.maxBatch, UNLOAD_CHUNK_BYTES);
      assert d.requests[0..] == d.requests;
    } else {
      var left := if throwAt.Some? then Some(throwAt.value - 1) else None;
      UnloadGreedy(cfg, queue[n..], left, k - 1);
      assert d.requests[k..] == Divide(cfg, queue[n..], left).requests[k - 1..];
    }
  }

  // ---- request bodies --------------------------------------------------------

  /** A request a drain may send: at most a batch of events, and for the React
      client at most the gateway's body limit in bytes. */
  predicate RequestSized(cfg: Config, c: Chunk)
  {
    0 < |c| <= cfg.maxBatch && (cfg.platform.React? ==> Utf8Len(BuildBody(c)) <= Wire.MAX_REQUEST_BYTES)
  }

  predicate WireSized(cfg: Config, w: World)
  {
    && (cfg.platform.React? ==> AllSized(w.fields.queue))
    && (forall d :: d in w.drains && d.Sending? ==>
          RequestSized(cfg, d.chunk) && (cfg.platform.React? ==> AllSized(d.chunk)))
    && (cfg.platform.React? ==> forall c :: c in w.unloads ==> UnloadSized(cfg, c) && AllSized(c))
  }

  lemma LoopHeadSized(cfg: Config, w: World, i: nat)
    requires ValidConfig(cfg) && i < |w.drains| && WireSized(cfg, w)
    ensures WireSized(cfg, LoopHead(cfg, w, i))
  {
    hide BuildBody, Utf8Len, ChunkLen;
    var queue := w.fields.queue;
    if queue != [] {
      var n := NextLen(cfg, queue);
      ChunkBounds(cfg, queue);
      if cfg.platform.React? {
        ChunkFits(queue, cfg.maxBatch, Wire.MAX_REQUEST_BYTES);
        SlicesSized(queue, n);
      }
      assert RequestSized(cfg, queue[..n]);
    }
  }

  lemma StepSized(cfg: Config, w: World, s: Step)
    requires ValidConfig(cfg) && Enabled(cfg, w, s) && WireSized(cfg, w)
    ensures WireSized(cfg, Apply(cfg, w, s))
  {
    hide BuildBody, LoopHead, Divide, UnloadSized, RequestSized, Sized;
    match s
    case Enqueue(json) => EnqueueSized(cfg, w, json);
    case Tick =>
    case Flush =>
    case ProviderReturns(i) =>
    case TokenReady(i) => LoopHeadSized(cfg, w, i);
    case SendDone(i, o) =>
      var chunk := w.drains[i].chunk;
      if o.Retry? {
        if cfg.platform.React? { RequeueSized(cfg, chunk + w.fields.queue); }
      } else {
        LoopHeadSized(cfg, Record(cfg, w.(drains := w.drains[i := AwaitingToken]), chunk, o), i);
      }
    case Settle(i) =>
    case Unload(throwAt) =>
      UnloadCuts(cfg, w.fields.queue, throwAt);
    case UnloadReply(i, o) =>
      assert w.unloads[i] in w.unloads;
      RequeueSized(cfg, w.unloads[i] + w.fields.queue);
  }

  lemma RequeueSized(cfg: Config, q: Chunk)
    requires AllSized(q)
    ensures AllSized(q[ExcessLen(q, cfg.maxQueue)..])
  {
    SlicesSized(q, ExcessLen(q, cfg.maxQueue));
  }

  lemma EnqueueSized(cfg: Config, w: World, json: seq<Utf16.Unit>)
    requires ValidConfig(cfg) && Enabled(cfg, w, Enqueue(json)) && WireSized(cfg, w)
    ensures WireSized(cfg, ApplyEnqueue(cfg, w, json))
  {
    hide BuildBody, Utf8Len, UnloadSized, RequestSized;
    var q := w.fields.queue + [Item(|w.accepted|, json, Utf8Len(json))];
    if cfg.platform.React? { RequeueSized(cfg, q); }
  }

  /** In every reachable state every request in flight is within its budget. */
  lemma {:induction false} RequestsSized(cfg: Config, w: World, steps: seq<Step>)
    requires ValidConfig(cfg) && Legal(cfg, w, steps) && WireSized(cfg, w)
    ensures WireSized(cfg, Run(cfg, w, steps))
    decreases |steps|
  {
    hide Apply, WireSized;
    if steps == [] {
    } else {
      StepSized(cfg, w, steps[0]);
      RequestsSized(cfg, Apply(cfg, w, steps[0]), steps[1..]);
    }
  }
}
