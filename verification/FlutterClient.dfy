/** The Flutter telemetry client object (client.dart): the delivery protocol without
    backoff, unload path and byte budget. Each method is the code between two
    suspension points, or up to or after the call of the token provider, and takes
    exactly one step of the protocol. */
module FlutterClient {
  import opened Wrappers
  import opened Utf16
  import opened Json
  import opened Chunking
  import opened Delivery
  import Discipline
  import Effects
  import FM = FlutterModels

  /** `_send`: the outcome of a response with this status, or of none. Whether a final
      answer was a delivery or a rejection makes no difference to the client. */
  function Classify(status: Option<int>): Outcome
  {
    if status.None? || status.value == 429 || status.value >= 500 then Retry
    else if 200 <= status.value < 300 then Sent
    else Dropped
  }

  class TelemetryClient {
    const app: Option<Text>
    const appVersion: Option<Text>
    const batchSize: nat
    const maxQueue: int
    const dedupeWindow: int
    const enabled: bool
    var queue: Chunk
    var recent: map<Text, int>
    var inFlight: bool
    /** The next event's identity; see `Chunking.Item`. */
    var accepted: nat
    ghost var world: World
    /** The last acceptance of every signature ever, and the latest time seen. */
    ghost var lastAccepted: map<Text, int>
    ghost var clock: int

    ghost function Cfg(): Config { Config(Flutter, batchSize, maxQueue, true) }

    /** The map holds only true last acceptances and misses only expired ones. */
    ghost predicate Faithful()
      reads `recent, `lastAccepted, `clock
    {
      && (forall s :: s in recent ==> s in lastAccepted && lastAccepted[s] == recent[s])
      && (forall s :: s in lastAccepted ==> lastAccepted[s] <= clock)
      && (forall s :: s in lastAccepted ==> s in recent || clock - lastAccepted[s] > dedupeWindow)
    }

    ghost predicate Valid()
      reads this
    {
      && ValidConfig(Cfg()) && Faithful()
      && world.fields == Fields(queue, inFlight, false)
      && |world.accepted| == accepted
      && Discipline.Bounded(Cfg(), world)
    }

    constructor (app: Option<Text>, appVersion: Option<Text>, maxBatch: int, maxQueue: int, dedupeWindow: int,
                 enabled: bool)
      ensures Valid() && world == INIT && lastAccepted == map[] && clock == 0
      ensures this.batchSize == (if maxBatch < 1 then 1 else if maxBatch > 100 then 100 else maxBatch)
      ensures this.maxQueue == maxQueue && this.dedupeWindow == dedupeWindow && this.enabled == enabled
      ensures this.app == app && this.appVersion == appVersion
    {
      this.app, this.appVersion := app, appVersion;
      this.batchSize := if maxBatch < 1 then 1 else if maxBatch > 100 then 100 else maxBatch;
      this.maxQueue, this.dedupeWindow, this.enabled := maxQueue, dedupeWindow, enabled;
      queue, recent, inFlight, accepted := [], map[], false, 0;
      world, lastAccepted, clock := INIT, map[], 0;
    }

    /** Keep the newest `maxQueue` events; under a negative bound `removeRange` raises. */
    method TrimQueue() returns (raised: bool)
      modifies this`queue
      ensures queue == old(queue)[ExcessLen(old(queue), maxQueue)..]
      ensures raised <==> maxQueue < 0
    {
      raised := false;
      if |queue| > maxQueue {
        if maxQueue < 0 { return true; }
        queue := queue[|queue| - maxQueue..];
      }
    }

    /** `flush`, up to the call of the token provider by the drain it starts. */
    method Flush()
      requires Valid()
      modifies this`inFlight, this`world
      ensures Valid() && world == StartFlush(Cfg(), old(world))
    {
      if inFlight { return; }
      if queue == [] { return; }
      world := StartFlush(Cfg(), world);
    }

    /** The rest of `flush`, once the provider's call has returned: only now is the
        drain's future stored. */
    method ProviderReturned(ghost drain: nat)
      requires Valid() && Enabled(Cfg(), world, ProviderReturns(drain))
      modifies this`inFlight, this`world
      ensures Valid() && world == Apply(Cfg(), old(world), ProviderReturns(drain))
    {
      inFlight := true;
      world := Apply(Cfg(), world, ProviderReturns(drain));
    }

    /** The callback of the flush timer: it flushes. */
    method TimerTick()
      requires Valid() && Enabled(Cfg(), world, Tick)
      modifies this`inFlight, this`world
      ensures Valid() && world == Apply(Cfg(), old(world), Tick)
      ensures !old(inFlight) && queue != [] ==> world.drains == old(world.drains) + [CallingProvider]
    {
      Effects.TickFlushes(Cfg(), world);
      Flush();
    }

    /** The loop of `_drain` from its head. */
    method DrainLoop(ghost drain: nat) returns (sending: bool, chunk: Chunk)
      requires Valid() && drain < |world.drains|
      modifies this`queue, this`world
      ensures Valid() && world == LoopHead(Cfg(), old(world), drain)
      ensures |world.drains| == |old(world.drains)| && (sending <==> old(queue) != [])
      ensures sending ==> world.drains[drain] == Sending(chunk) && 0 < |chunk| <= batchSize
    {
      ChunkBounds(Cfg(), queue);
      sending, chunk := false, [];
      ghost var target := LoopHead(Cfg(), world, drain);
      if queue != [] {
        sending := true;
        chunk := queue[..if |queue| < batchSize then |queue| else batchSize];
        queue := queue[|chunk|..];
      }
      world := target;
    }

    method ResumeWithToken(ghost drain: nat) returns (sending: bool, chunk: Chunk)
      requires Valid() && Enabled(Cfg(), world, TokenReady(drain))
      modifies this`queue, this`world
      ensures Valid() && world == Apply(Cfg(), old(world), TokenReady(drain))
      ensures sending ==> world.drains[drain] == Sending(chunk)
    {
      sending, chunk := DrainLoop(drain);
    }

    /** `_drain` after `_send` finished with a response of this status, or with none: a
        chunk that may be sent again goes back in front of the queue, and the drain
        ends; any other is finished, and the drain goes on. */
    method ResumeAfterSend(ghost drain: nat, chunk: Chunk, status: Option<int>) returns (sending: bool, next: Chunk)
      requires Valid() && !Calling(world) && drain < |world.drains| && world.drains[drain] == Sending(chunk)
      modifies this`queue, this`world
      ensures Valid() && world == Apply(Cfg(), old(world), SendDone(drain, Classify(status)))
      ensures sending ==> drain < |world.drains| && world.drains[drain] == Sending(next)
      ensures status.None? || status.value == 429 || status.value >= 500 ==>
                && Effects.NewestOf(queue, chunk + old(queue), maxQueue) && !sending
                && Effects.Requeued(Cfg(), old(world), world, chunk)
                && world.drains == old(world.drains)[drain := Returned]
      ensures status.Some? && 200 <= status.value < 300 ==>
                && Effects.Finished(Cfg(), old(world), world, chunk, true)
                && world.sent == old(world.sent) + chunk && Effects.GoesOn(Cfg(), old(world), world, drain)
      ensures status.Some? && (status.value < 200 || 300 <= status.value < 500) && status.value != 429 ==>
                && Effects.Finished(Cfg(), old(world), world, chunk, false)
                && world.rejected == old(world.rejected) + chunk && Effects.GoesOn(Cfg(), old(world), world, drain)
    {
      hide Effects.GoesOn, Effects.Requeued, Effects.Finished, Effects.NewestOf, Apply, Faithful, Discipline.Bounded;
      var outcome := Classify(status);
      if outcome == Retry {
        Effects.RetryRequeues(Cfg(), world, drain);
        Effects.RequeuedNewest(Cfg(), world, Apply(Cfg(), world, SendDone(drain, Retry)), chunk);
        TakeBack(drain, chunk);
        sending, next := false, [];
      } else {
        Effects.FinalFinishes(Cfg(), world, drain, outcome);
        Effects.FinishedPlaces(Cfg(), world, Apply(Cfg(), world, SendDone(drain, outcome)), chunk, outcome == Sent);
        sending, next := GoOn(drain, chunk, outcome);
      }
    }

    /** The chunk goes back in front of the queue, and the drain ends. */
    method TakeBack(ghost drain: nat, chunk: Chunk)
      requires Valid() && Enabled(Cfg(), world, SendDone(drain, Retry)) && world.drains[drain] == Sending(chunk)
      modifies this`queue, this`world
      ensures Valid() && world == Apply(Cfg(), old(world), SendDone(drain, Retry))
    {
      hide Faithful;
      Discipline.StepTrims(Cfg(), world, SendDone(drain, Retry));
      queue := chunk + queue;
      var _ := TrimQueue();
      world := Apply(Cfg(), world, SendDone(drain, Retry));
    }

    /** The chunk is finished, and the drain goes on. */
    method GoOn(ghost drain: nat, chunk: Chunk, ghost outcome: Outcome) returns (sending: bool, next: Chunk)
      requires Valid() && Enabled(Cfg(), world, SendDone(drain, outcome)) && world.drains[drain] == Sending(chunk)
      requires !outcome.Retry?
      modifies this`queue, this`world
      ensures Valid() && world == Apply(Cfg(), old(world), SendDone(drain, outcome))
      ensures drain < |world.drains| && (sending ==> world.drains[drain] == Sending(next))
    {
      hide Faithful, LoopHead;
      world := Record(Cfg(), world.(drains := world.drains[drain := AwaitingToken]), chunk, outcome);
      sending, next := DrainLoop(drain);
    }

    /** The `whenComplete` callback of a drain. */
    method SettleDrain(ghost drain: nat)
      requires Valid() && Enabled(Cfg(), world, Settle(drain))
      modifies this`inFlight, this`world
      ensures Valid() && world == Apply(Cfg(), old(world), Settle(drain))
    {
      inFlight := false;
      world := Apply(Cfg(), world, Settle(drain));
    }

    /** Queue an event unless its signature was accepted less than one window ago; the
        bounded map answers exactly as the unbounded record of last acceptances would.
        The source converts the event when it is sent; `json` is that conversion, on
        the assumption that the caller does not change the event's context map in
        between. Under a negative `maxQueue` the event is queued, but the call raises. */
    method EnqueueEvent(event: FM.Event, now: int) returns (raised: bool)
      requires Valid() && clock <= now
      modifies this
      ensures Valid()
      ensures var sig := FM.Signature(event);
              var json := FM.Encode(FM.Converted(event, app, appVersion));
              if !enabled || (sig in old(lastAccepted) && now - old(lastAccepted)[sig] < dedupeWindow) then
                !raised && world == old(world) && lastAccepted == old(lastAccepted)
              else
                && (raised <==> maxQueue < 0)
                && world == ApplyEnqueue(Cfg(), old(world), json) && lastAccepted == old(lastAccepted)[sig := now]
      ensures clock == if enabled then now else old(clock)
    {
      hide FM.Signature, FM.Encode, FM.Converted, ApplyEnqueue;
      raised := false;
      if !enabled { return; }
      clock := now;
      var sig := FM.Signature(event);
      if sig in recent && now - recent[sig] < dedupeWindow { return; }
      Remember(sig, now);
      var json := FM.ToJson(event, app, appVersion);
      raised := Push(FM.Encode(json));
    }

    /** Note the acceptance; a map of more than 200 entries is pruned. */
    method Remember(sig: Text, now: int)
      requires Faithful() && clock == now
      modifies this`recent, this`lastAccepted
      ensures Faithful() && lastAccepted == old(lastAccepted)[sig := now]
    {
      recent := recent[sig := now];
      lastAccepted := lastAccepted[sig := now];
      if |recent| > 200 {
        recent := map s | s in recent && !(now - recent[s] > dedupeWindow) :: recent[s];
      }
    }

    /** Append, trim, and flush once a batch is full. */
    method Push(json: Text) returns (raised: bool)
      requires Valid()
      modifies this`queue, this`accepted, this`inFlight, this`world
      ensures Valid() && world == Apply(Cfg(), old(world), Enqueue(json))
      ensures raised <==> maxQueue < 0
    {
      var item := Item(accepted, json, Utf8Len(json));
      Discipline.StepTrims(Cfg(), world, Enqueue(json));
      ghost var w1 := SetQueue(Cfg(), world.(accepted := world.accepted + [item]), world.fields.queue + [item]);
      queue := queue + [item];
      accepted := accepted + 1;
      raised := TrimQueue();
      world := w1;
      if raised { return; }
      if |queue| >= batchSize { Flush(); }
    }
  }
}
