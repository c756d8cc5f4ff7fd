/** The React telemetry client object (client.ts). Each method is the code between
    two suspension points, or up to or after the call of the token provider, and is
    proved to take exactly one step of the delivery protocol; the ghost `world`
    follows that protocol. */
module ReactClient {
  import opened Wrappers
  import opened Utf16
  import opened Json
  import opened Chunking
  import opened Delivery
  import Discipline
  import Effects
  import CD = ClientDedupe
  import Wire

  /** `classify`: 2xx sent; 429 and 5xx retry; anything else is dropped. */
  function Classify(status: int): Outcome
  {
    if 200 <= status < 300 then Sent
    else if status == 429 || status >= 500 then Retry
    else Dropped
  }

  /** What a reply amounts to; a rejected promise has no status. */
  function ReplyOutcome(status: Option<int>): Outcome
  {
    if status.None? then Retry else Classify(status.value)
  }

  class TelemetryClient {
    const app: Text
    const appVersion: Option<Text>
    const maxBatch: nat
    const maxQueue: nat
    const dedupeWindowMs: int
    const enabled: bool
    const transport: bool
    var queue: Chunk
    var recent: CD.Recent
    var inFlight: bool
    var backingOff: bool
    /** The next event's identity; see `Chunking.Item`. */
    var accepted: nat
    ghost var world: World

    ghost function Cfg(): Config { Config(React, maxBatch, maxQueue, transport) }

    ghost predicate Valid()
      reads this
    {
      && ValidConfig(Cfg())
      && world.fields == Fields(queue, inFlight, backingOff)
      && |world.accepted| == accepted
      && Discipline.WireSized(Cfg(), world)
      && |queue| <= maxQueue
    }

    /** A fresh client; `maxBatch` and `maxQueue` are clamped. */
    constructor (app: Text, appVersion: Option<Text>, maxBatch: int, maxQueue: int, dedupeWindowMs: int,
                 enabled: bool, transport: bool)
      ensures Valid() && world == INIT && recent == []
      ensures this.maxBatch == (if maxBatch < 1 then 1 else if maxBatch > 100 then 100 else maxBatch)
      ensures this.maxQueue == (if maxQueue < 1 then 1 else maxQueue)
      ensures this.app == app && this.appVersion == appVersion && this.dedupeWindowMs == dedupeWindowMs
      ensures this.enabled == enabled && this.transport == transport
    {
      this.app, this.appVersion := app, appVersion;
      var atLeastOne := if maxBatch < 1 then 1 else maxBatch;
      this.maxBatch := if atLeastOne > Wire.MAX_EVENTS_PER_REQUEST then Wire.MAX_EVENTS_PER_REQUEST else atLeastOne;
      this.maxQueue := if maxQueue < 1 then 1 else maxQueue;
      this.dedupeWindowMs, this.enabled, this.transport := dedupeWindowMs, enabled, transport;
      queue, recent, inFlight, backingOff, accepted := [], [], false, false, 0;
      world := INIT;
    }

    // ---- queue operations ------------------------------------------------------

    /** Remove the next chunk: the longest prefix of at most `maxBatch` events and
        `maxBytes` bytes of body, but never nothing. */
    method TakeChunk(maxBytes: nat) returns (chunk: Chunk)
      requires maxBatch >= 1
      modifies this`queue
      ensures chunk + queue == old(queue)
      ensures LongestWithin(old(queue), maxBatch, maxBytes, |chunk|)
      ensures |chunk| == ChunkLen(old(queue), maxBatch, maxBytes)
      ensures AllSized(old(queue)) && old(queue) != [] && maxBytes >= Wire.MAX_EVENT_BYTES + EMPTY_BODY_BYTES ==>
                chunk != [] && Utf8Len(BuildBody(chunk)) <= maxBytes
    {
      ChunkLenLongest(queue, maxBatch, maxBytes);
      if AllSized(queue) && queue != [] && maxBytes >= Wire.MAX_EVENT_BYTES + EMPTY_BODY_BYTES {
        ChunkFits(queue, maxBatch, maxBytes);
      }
      var count: nat := 0;
      var bytes := EMPTY_BODY_BYTES;
      assert queue[..0] == [];
      while count < |queue|
        invariant queue == old(queue) && count <= |queue| && count <= maxBatch
        invariant bytes == BodyBytes(queue[..count])
        invariant ChunkLen(queue, maxBatch, maxBytes) == CountFrom(queue, maxBatch, maxBytes, count, bytes)
      {
        if count >= maxBatch { break; }
        var next := bytes + queue[count].bytes + (if count > 0 then 1 else 0);
        if count > 0 && next > maxBytes { break; }
        BodyBytesStep(queue, count);
        bytes := next;
        count := count + 1;
      }
      chunk, queue := queue[..count], queue[count..];
    }

    method TrimQueue()
      requires maxQueue >= 1
      modifies this`queue
      ensures queue == old(queue)[ExcessLen(old(queue), maxQueue)..]
    {
      var excess := |queue| - maxQueue;
      if excess > 0 { queue := queue[excess..]; }
    }

    /** Return a chunk to the head of the queue; what no longer fits goes, oldest first. */
    method Requeue(chunk: Chunk)
      requires maxQueue >= 1
      modifies this`queue
      ensures queue == (chunk + old(queue))[ExcessLen(chunk + old(queue), maxQueue)..]
    {
      queue := chunk + queue;
      TrimQueue();
    }

    // ---- deduplication ---------------------------------------------------------

    /** The first loop of `pruneRecent`: forget expired signatures. */
    method ForgetExpired(now: int)
      modifies this`recent
      ensures recent == CD.Unexpired(old(recent), now, dedupeWindowMs)
    {
      hide CD.Unexpired;
      var i := 0;
      assert recent[..0] == [] && recent[0..] == recent;
      while i < |recent|
        invariant 0 <= i <= |recent|
        invariant recent[..i] + CD.Unexpired(recent[i..], now, dedupeWindowMs)
               == CD.Unexpired(old(recent), now, dedupeWindowMs)
        decreases |recent| - i
      {
        CD.PruneTurn(recent, i, now, dedupeWindowMs);
        if now - recent[i].1 >= dedupeWindowMs {
          recent := recent[..i] + recent[i + 1..];
        } else {
          i := i + 1;
        }
      }
      CD.PruneEnd(recent, now, dedupeWindowMs);
    }

    /** Forget expired signatures, then the oldest until 200 are left. */
    method PruneRecent(now: int)
      modifies this`recent
      ensures recent == CD.Newest(CD.Unexpired(old(recent), now, dedupeWindowMs))
    {
      hide CD.Unexpired;
      ForgetExpired(now);
      ghost var live := recent;
      while |recent| > CD.DEDUPE_MAX_ENTRIES
        invariant |recent| <= |live| && recent == live[|live| - |recent|..]
        invariant |recent| >= CD.DEDUPE_MAX_ENTRIES || recent == live
        decreases |recent|
      {
        recent := recent[1..];
      }
    }

    // ---- flush and drain -------------------------------------------------------

    /** `flush`, up to the call of the token provider by the drain it starts. A drain
        that finds nothing queued returns before that call. */
    method Flush()
      requires Valid()
      modifies this`inFlight, this`world
      ensures Valid() && world == StartFlush(Cfg(), old(world))
    {
      if !inFlight {
        world := StartFlush(Cfg(), world);
        if |queue| == 0 { inFlight := true; }
      }
    }

    /** The rest of `flush`, once the provider's call has returned: only now is the
        drain's promise stored. */
    method ProviderReturned(ghost drain: nat)
      requires Valid() && Enabled(Cfg(), world, ProviderReturns(drain))
      modifies this`inFlight, this`world
      ensures Valid() && world == Apply(Cfg(), old(world), ProviderReturns(drain))
    {
      Discipline.StepSized(Cfg(), world, ProviderReturns(drain));
      inFlight := true;
      world := Apply(Cfg(), world, ProviderReturns(drain));
    }

    /** The callback of the flush timer: it ends the backoff and flushes. */
    method TimerTick()
      requires Valid() && Enabled(Cfg(), world, Tick)
      modifies this`inFlight, this`backingOff, this`world
      ensures Valid() && world == Apply(Cfg(), old(world), Tick)
      ensures !backingOff
      ensures !old(inFlight) && queue != [] ==> world.drains == old(world.drains) + [CallingProvider]
    {
      Effects.TickFlushes(Cfg(), world);
      backingOff := false;
      world := world.(fields := world.fields.(backingOff := false));
      Flush();
    }

    /** The loop of `drain` from its head: either nothing is queued and it returns,
        or it takes a chunk and suspends in `send`. */
    method DrainLoop(ghost drain: nat) returns (sending: bool, chunk: Chunk)
      requires Valid() && drain < |world.drains|
      modifies this`queue, this`backingOff, this`world
      ensures Valid() && world == LoopHead(Cfg(), old(world), drain)
      ensures sending <==> old(queue) != []
      ensures sending ==> world.drains[drain] == Sending(chunk) && Utf8Len(BuildBody(chunk)) <= Wire.MAX_REQUEST_BYTES
    {
      Discipline.LoopHeadSized(Cfg(), world, drain);
      ChunkBounds(Cfg(), queue);
      sending, chunk := false, [];
      ghost var target := LoopHead(Cfg(), world, drain);
      if |queue| > 0 {
        ghost var before := queue;
        chunk := TakeChunk(Wire.MAX_REQUEST_BYTES);
        sending := true;
        assert before[..|chunk|] == chunk && before[|chunk|..] == queue;
      } else {
        backingOff := false;
      }
      world := target;
    }

    /** `drain` after its token arrived. */
    method ResumeWithToken(ghost drain: nat) returns (sending: bool, chunk: Chunk)
      requires Valid() && Enabled(Cfg(), world, TokenReady(drain))
      modifies this`queue, this`backingOff, this`world
      ensures Valid() && world == Apply(Cfg(), old(world), TokenReady(drain))
      ensures sending ==> world.drains[drain] == Sending(chunk)
    {
      sending, chunk := DrainLoop(drain);
    }

    /** The outcome of `send`: without `fetch` the chunk is dropped, and a network error
        or timeout (no status) may be retried. */
    function SendOutcome(status: Option<int>): Outcome
    {
      if !transport then Dropped else ReplyOutcome(status)
    }

    /** `drain` after `send` finished with a response of this status, or with none. A
        chunk that may be sent again goes back in front of the queue, and the client
        backs off; any other is finished, and the drain goes on. */
    method ResumeAfterSend(ghost drain: nat, chunk: Chunk, status: Option<int>) returns (sending: bool, next: Chunk)
      requires Valid() && !Calling(world) && drain < |world.drains| && world.drains[drain] == Sending(chunk)
      modifies this`queue, this`backingOff, this`world
      ensures Valid() && world == Apply(Cfg(), old(world), SendDone(drain, SendOutcome(status)))
      ensures sending ==> drain < |world.drains| && world.drains[drain] == Sending(next)
      ensures transport && (status.None? || status.value == 429 || status.value >= 500) ==>
                && Effects.NewestOf(queue, chunk + old(queue), maxQueue) && backingOff && !sending
                && Effects.Requeued(Cfg(), old(world), world, chunk)
                && world.drains == old(world.drains)[drain := Returned]
      ensures transport && status.Some? && 200 <= status.value < 300 ==>
                && Effects.Finished(Cfg(), old(world), world, chunk, true)
                && world.sent == old(world.sent) + chunk && Effects.GoesOn(Cfg(), old(world), world, drain)
      ensures transport && status.Some? && (status.value < 200 || 300 <= status.value < 500) && status.value != 429 ==>
                && Effects.Finished(Cfg(), old(world), world, chunk, false)
                && world.rejected == old(world.rejected) + chunk && Effects.GoesOn(Cfg(), old(world), world, drain)
      ensures !transport ==>
                && Effects.Finished(Cfg(), old(world), world, chunk, false)
                && world.discarded == old(world.discarded) + chunk && Effects.GoesOn(Cfg(), old(world), world, drain)
    {
      hide Effects.GoesOn, Effects.Requeued, Effects.Finished, Effects.NewestOf;
      var outcome := SendOutcome(status);
      if outcome == Retry {
        Effects.RetryRequeues(Cfg(), world, drain);
        Effects.RequeuedNewest(Cfg(), world, Apply(Cfg(), world, SendDone(drain, Retry)), chunk);
      } else {
        Effects.FinalFinishes(Cfg(), world, drain, outcome);
        Effects.FinishedPlaces(Cfg(), world, Apply(Cfg(), world, SendDone(drain, outcome)), chunk, outcome == Sent);
      }
      Discipline.StepSized(Cfg(), world, SendDone(drain, outcome));
      sending, next := false, [];
      if outcome == Retry {
        Requeue(chunk);
        backingOff := true;
        world := Apply(Cfg(), world, SendDone(drain, outcome));
        return;
      }
      world := Record(Cfg(), world.(drains := world.drains[drain := AwaitingToken]), chunk, outcome);
      sending, next := DrainLoop(drain);
    }

    /** The `finally` callback of a drain. */
    method SettleDrain(ghost drain: nat)
      requires Valid() && Enabled(Cfg(), world, Settle(drain))
      modifies this`inFlight, this`world
      ensures Valid() && world == Apply(Cfg(), old(world), Settle(drain))
    {
      Discipline.StepSized(Cfg(), world, Settle(drain));
      inFlight := false;
      world := Apply(Cfg(), world, Settle(drain));
    }

    // ---- enqueue ---------------------------------------------------------------

    /** Convert and queue an event unless its signature was accepted within the
        window; start a drain once a batch is full. */
    method EnqueueEvent(event: Wire.Event, now: int)
      requires Valid()
      modifies this
      ensures Valid()
      ensures var sig := Wire.Signature(event);
              if !enabled || CD.Suppressed(old(recent), sig, now, dedupeWindowMs) then
                recent == old(recent) && world == old(world)
              else
                && recent == CD.Accept(old(recent), sig, now, dedupeWindowMs)
                && world == ApplyEnqueue(Cfg(), old(world), Wire.ToJson(Wire.Converted(event, app, appVersion)))
    {
      hide Wire.Converted, Wire.ToJson, Wire.Signature, ApplyEnqueue, CD.Find, CD.Delete, CD.Unexpired;
      if !enabled { return; }
      var sig := Wire.Signature(event);
      var last := CD.Find(recent, sig);
      if last.Some? && now - last.value < dedupeWindowMs { return; }
      recent := CD.Delete(recent, sig);
      recent := recent + [(sig, now)];
      if |recent| > CD.DEDUPE_MAX_ENTRIES { PruneRecent(now); }

      var wire := Wire.ToWire(event, app, appVersion);
      var json := Wire.ToJson(wire);
      Push(json);
    }

    /** Append the event and, if that fills a batch, flush. */
    method Push(json: Text)
      requires Valid() && Utf8Len(json) <= Wire.MAX_EVENT_BYTES
      modifies this`queue, this`accepted, this`inFlight, this`world
      ensures Valid() && world == Apply(Cfg(), old(world), Enqueue(json))
    {
      var item := Item(accepted, json, Utf8Len(json));
      Discipline.StepTrims(Cfg(), world, Enqueue(json));
      Discipline.EnqueueSized(Cfg(), world, json);
      ghost var w1 := SetQueue(Cfg(), world.(accepted := world.accepted + [item]), world.fields.queue + [item]);
      assert Discipline.WireSized(Cfg(), w1);
      queue := queue + [item];
      accepted := accepted + 1;
      TrimQueue();
      world := w1;
      if |queue| >= maxBatch && !inFlight && !backingOff {
        Flush();
      }
    }

    // ---- unload ----------------------------------------------------------------

    /** The loop of `flushOnUnload`, which hands chunks over until the queue is
        empty or a send throws; the chunk of that send is lost. */
    method HandOver(throwAt: Option<nat>) returns (requests: seq<Chunk>)
      requires ValidConfig(Cfg())
      modifies this`queue
      ensures requests == Divide(Cfg(), old(queue), throwAt).requests
      ensures queue == Divide(Cfg(), old(queue), throwAt).rest
    {
      hide ChunkLen, LongestWithin, Divide, Underway;
      ghost var whole := Divide(Cfg(), queue, throwAt);
      ghost var left := throwAt;
      requests := [];
      var n: nat := 0;
      UnderwayStarts(Cfg(), queue, throwAt);
      while |queue| > 0
        invariant left.Some? == throwAt.Some? && (throwAt.Some? ==> n + left.value == throwAt.value)
        invariant Underway(Cfg(), requests, queue, left, whole)
        decreases |queue|
      {
        ghost var before := queue;
        var chunk := TakeChunk(UNLOAD_CHUNK_BYTES);
        UnderwayTurn(Cfg(), requests, chunk, queue, left, whole);
        if throwAt == Some(n) { return; }
        left := if left.Some? then Some(left.value - 1) else None;
        requests := requests + [chunk];
        n := n + 1;
      }
      UnderwayEnds(Cfg(), requests, left, whole);
    }

    /** `flushOnUnload`; `throwAt` is the number of the send that throws, if any. It
        returns the chunks handed to the transport. */
    method FlushOnUnload(throwAt: Option<nat>) returns (requests: seq<Chunk>)
      requires Valid()
      modifies this`queue, this`world
      ensures Valid() && world == Apply(Cfg(), old(world), Unload(throwAt))
      ensures requests == Divide(Cfg(), old(queue), throwAt).requests
      ensures throwAt.None? ==> queue == [] && Flatten(requests) == old(queue)
      ensures forall c :: c in requests ==> Discipline.UnloadSized(Cfg(), c)
    {
      Discipline.StepSized(Cfg(), world, Unload(throwAt));
      Discipline.UnloadCuts(Cfg(), queue, throwAt);
      requests := HandOver(throwAt);
      world := Apply(Cfg(), world, Unload(throwAt));
    }

    /** The reply to an unload request, or its failure: a chunk that may be sent again
        goes back in front of the queue, any other is finished. */
    method UnloadReplied(ghost request: nat, chunk: Chunk, status: Option<int>)
      requires Valid() && !Calling(world) && request < |world.unloads| && world.unloads[request] == chunk
      modifies this`queue, this`world
      ensures Valid() && world == Apply(Cfg(), old(world), UnloadReply(request, ReplyOutcome(status)))
      ensures status.None? || status.value == 429 || status.value >= 500 ==>
                && Effects.NewestOf(queue, chunk + old(queue), maxQueue)
                && Effects.Requeued(Cfg(), old(world), world, chunk)
      ensures status.Some? && 200 <= status.value < 300 ==>
                && queue == old(queue) && world.sent == old(world.sent) + chunk
                && world.rejected == old(world.rejected) && world.discarded == old(world.discarded)
      ensures status.Some? && (status.value < 200 || 300 <= status.value < 500) && status.value != 429 ==>
                && queue == old(queue) && world.sent == old(world.sent)
                && world.rejected == old(world.rejected) + chunk && world.discarded == old(world.discarded)
    {
      hide Effects.Requeued, Effects.NewestOf;
      var outcome := ReplyOutcome(status);
      Effects.UnloadReplyMeans(Cfg(), world, request, outcome);
      if outcome == Retry {
        Effects.RequeuedNewest(Cfg(), world, Apply(Cfg(), world, UnloadReply(request, Retry)), chunk);
      }
      Discipline.StepSized(Cfg(), world, UnloadReply(request, outcome));
      if outcome == Retry { Requeue(chunk); }
      world := Apply(Cfg(), world, UnloadReply(request, outcome));
    }
  }
}
