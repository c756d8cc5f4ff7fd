/** The delivery protocol of the React client (client.ts) and the Flutter client
    (client.dart) as a state machine. JavaScript and Dart run each callback to
    completion, so a step is the code between two suspension points: a call from
    application code, a timer tick, or the continuation of one of the promises the
    client is waiting for. Starting a drain calls the token provider synchronously,
    before `inFlight` is assigned; the provider may itself call the client, so that
    call and its return are steps of their own. Every interleaving is a legal run. */
module Delivery {
  import opened Wrappers
  import opened Utf16
  import opened Json
  import opened Chunking
  import Wire

  datatype Platform = React | Flutter

  /** `transport` is false for a React client that found no `fetch`. With a negative
      `maxQueue`, which the Flutter client accepts, trimming raises. */
  datatype Config = Config(platform: Platform, maxBatch: nat, maxQueue: int, transport: bool)

  /** What the constructors guarantee. */
  predicate ValidConfig(cfg: Config)
  {
    && 1 <= cfg.maxBatch <= Wire.MAX_EVENTS_PER_REQUEST
    && (cfg.platform.React? ==> 1 <= cfg.maxQueue)
    && (cfg.platform.Flutter? ==> cfg.transport)
  }

  datatype Outcome = Sent | Dropped | Retry

  /** One run of `drain` that has not been released by its `finally` callback: inside
      its call of the token provider, waiting for the token, waiting for a response,
      or returned. */
  datatype Drain = CallingProvider | AwaitingToken | Sending(chunk: Chunk) | Returned

  /** The client object's fields that the protocol uses. */
  datatype Fields = Fields(queue: Chunk, inFlight: bool, backingOff: bool)

  /** The client, its pending continuations, and what became of every event. */
  datatype World = World(
    fields: Fields, drains: seq<Drain>, unloads: seq<Chunk>, accepted: Chunk, sent: Chunk, rejected: Chunk,
    trimmed: Chunk, discarded: Chunk, retries: nat)

  const INIT := World(Fields([], false, false), [], [], [], [], [], [], [], 0)

  datatype Step =
    | Enqueue(json: Text)                  // an event that passed deduplication
    | Tick
    | Flush
    | ProviderReturns(drain: nat)          // the call of the token provider returns
    | TokenReady(drain: nat)
    | SendDone(drain: nat, outcome: Outcome)
    | Settle(drain: nat)                   // the `finally` callback
    | Unload(throwAt: Option<nat>)         // the send of this chunk throws synchronously
    | UnloadReply(request: nat, outcome: Outcome)

  /** Some drain is inside its call of the token provider. */
  predicate Calling(w: World)
  {
    exists i :: 0 <= i < |w.drains| && w.drains[i].CallingProvider?
  }

  /** Drain `i` made the innermost of these calls. */
  predicate Innermost(w: World, i: nat)
  {
    && i < |w.drains| && w.drains[i].CallingProvider?
    && forall j :: i < j < |w.drains| ==> !w.drains[j].CallingProvider?
  }

  /** Calls of the client can happen at any time, also from inside the provider;
      timers and continuations wait until no code of the client is running. */
  predicate Enabled(cfg: Config, w: World, s: Step)
  {
    match s
    case Enqueue(json) => cfg.platform.React? ==> Utf8Len(json) <= Wire.MAX_EVENT_BYTES
    case Flush => true
    case Unload(_) => cfg.platform.React?
    case ProviderReturns(i) => Innermost(w, i)
    case Tick => !Calling(w)
    case TokenReady(i) => !Calling(w) && i < |w.drains| && w.drains[i].AwaitingToken?
    case SendDone(i, o) =>
      !Calling(w) && i < |w.drains| && w.drains[i].Sending? && (!cfg.transport ==> o.Dropped?)
    case Settle(i) => !Calling(w) && i < |w.drains| && w.drains[i].Returned?
    case UnloadReply(i, _) => !Calling(w) && cfg.platform.React? && i < |w.unloads|
  }

  // ---- the queue -------------------------------------------------------------

  /** How many events trimming removes; with a negative bound it raises instead. */
  function ExcessLen(queue: Chunk, max: int): (n: nat)
    ensures n <= |queue|
  {
    if 0 <= max < |queue| then |queue| - max else 0
  }

  /** Replace the queue by `queue`, trimmed to its newest `maxQueue` events. */
  function SetQueue(cfg: Config, w: World, queue: Chunk): World
  {
    var n := ExcessLen(queue, cfg.maxQueue);
    w.(fields := w.fields.(queue := queue[n..]), trimmed := w.trimmed + queue[..n])
  }

  /** How many events the next request of a drain carries. */
  function NextLen(cfg: Config, queue: Chunk): nat
  {
    if cfg.platform.React? then ChunkLen(queue, cfg.maxBatch, Wire.MAX_REQUEST_BYTES)
    else if |queue| < cfg.maxBatch then |queue| else cfg.maxBatch
  }

  // ---- steps -----------------------------------------------------------------

  /** `flush`, up to the drain's call of the token provider. A drain that finds the
      queue empty returns without that call, and its promise is stored at once. */
  function StartFlush(cfg: Config, w: World): World
  {
    if w.fields.inFlight || (cfg.platform.Flutter? && w.fields.queue == []) then w
    else if w.fields.queue == [] then
      w.(fields := w.fields.(inFlight := true), drains := w.drains + [Returned])
    else w.(drains := w.drains + [CallingProvider])
  }

  /** The head of the drain's loop: return if the queue is empty, else send. */
  function LoopHead(cfg: Config, w: World, i: nat): World
    requires i < |w.drains|
  {
    if w.fields.queue == [] then
      w.(fields := w.fields.(backingOff := w.fields.backingOff && cfg.platform.Flutter?),
         drains := w.drains[i := Returned])
    else
      ChunkBounds(cfg, w.fields.queue);
      var n := NextLen(cfg, w.fields.queue);
      w.(fields := w.fields.(queue := w.fields.queue[n..]), drains := w.drains[i := Sending(w.fields.queue[..n])])
  }

  function Record(cfg: Config, w: World, chunk: Chunk, o: Outcome): World
  {
    if o.Sent? then w.(sent := w.sent + chunk)
    else if cfg.transport then w.(rejected := w.rejected + chunk)
    else w.(discarded := w.discarded + chunk)
  }

  function ApplyEnqueue(cfg: Config, w: World, json: Text): World
  {
    var item := Item(|w.accepted|, json, Utf8Len(json));
    var w1 := SetQueue(cfg, w.(accepted := w.accepted + [item]), w.fields.queue + [item]);
    if cfg.maxQueue >= 0 && |w1.fields.queue| >= cfg.maxBatch && !w1.fields.inFlight && !w1.fields.backingOff
    then StartFlush(cfg, w1) else w1
  }

  function ApplySendDone(cfg: Config, w: World, i: nat, o: Outcome): World
    requires i < |w.drains| && w.drains[i].Sending?
  {
    var chunk := w.drains[i].chunk;
    if o.Retry? then
      var w1 := SetQueue(cfg, w, chunk + w.fields.queue);
      w1.(fields := w1.fields.(backingOff := w1.fields.backingOff || cfg.platform.React?),
          drains := w.drains[i := Returned], retries := w.retries + 1)
    else
      LoopHead(cfg, Record(cfg, w.(drains := w.drains[i := AwaitingToken]), chunk, o), i)
  }

  /** How the loop of `flushOnUnload` divides the queue: the chunks it hands over,
      the chunk whose send throws, and what it leaves queued. */
  datatype Division = Division(requests: seq<Chunk>, lost: Chunk, rest: Chunk)

  function Divide(cfg: Config, queue: Chunk, throwAt: Option<nat>): (d: Division)
    requires ValidConfig(cfg)
    ensures |d.rest| <= |queue|
    ensures throwAt.None? ==> d.rest == [] && d.lost == []
    decreases |queue|
  {
    if queue == [] then Division([], [], [])
    else
      ChunkLenLongest(queue, cfg.maxBatch, UNLOAD_CHUNK_BYTES);
      var n := ChunkLen(queue, cfg.maxBatch, UNLOAD_CHUNK_BYTES);
      if throwAt == Some(0) then Division([], queue[..n], queue[n..])
      else
        var d := Divide(cfg, queue[n..], if throwAt.Some? then Some(throwAt.value - 1) else None);
        d.(requests := [queue[..n]] + d.requests)
  }

  /** One turn of that loop. */
  lemma DivideTurn(cfg: Config, queue: Chunk, throwAt: Option<nat>)
    requires ValidConfig(cfg)
    ensures var n := ChunkLen(queue, cfg.maxBatch, UNLOAD_CHUNK_BYTES);
            && n <= |queue|
            && (queue == [] ==> Divide(cfg, queue, throwAt) == Division([], [], []))
            && (queue != [] && throwAt == Some(0) ==>
                  n > 0 && Divide(cfg, queue, throwAt) == Division([], queue[..n], queue[n..]))
            && (queue != [] && throwAt != Some(0) ==>
                  var d := Divide(cfg, queue[n..], if throwAt.Some? then Some(throwAt.value - 1) else None);
                  n > 0 && Divide(cfg, queue, throwAt) == Division([queue[..n]] + d.requests, d.lost, d.rest))
  {
    ChunkLenLongest(queue, cfg.maxBatch, UNLOAD_CHUNK_BYTES);
    hide ChunkLen;
  }

  /** The loop has handed over `requests`, `queue` is left, and `left` counts down to
      the send that throws: what is still to come completes the division `whole`. */
  predicate Underway(cfg: Config, requests: seq<Chunk>, queue: Chunk, left: Option<nat>, whole: Division)
    requires ValidConfig(cfg)
  {
    var d := Divide(cfg, queue, left);
    requests + d.requests == whole.requests && d.lost == whole.lost && d.rest == whole.rest
  }

  lemma UnderwayStarts(cfg: Config, queue: Chunk, throwAt: Option<nat>)
    requires ValidConfig(cfg)
    ensures Underway(cfg, [], queue, throwAt, Divide(cfg, queue, throwAt))
  {
    hide Divide;
    assert [] + Divide(cfg, queue, throwAt).requests == Divide(cfg, queue, throwAt).requests;
  }

  /** Taking `chunk` off the queue either completes the division, because its send
      throws, or leaves the loop underway. */
  lemma UnderwayTurn(cfg: Config, requests: seq<Chunk>, chunk: Chunk, rest: Chunk, left: Option<nat>, whole: Division)
    requires ValidConfig(cfg) && chunk + rest != []
    requires |chunk| == ChunkLen(chunk + rest, cfg.maxBatch, UNLOAD_CHUNK_BYTES)
    requires Underway(cfg, requests, chunk + rest, left, whole)
    ensures chunk != []
    ensures left == Some(0) ==> whole == Division(requests, chunk, rest)
    ensures left != Some(0) ==>
              Underway(cfg, requests + [chunk], rest, if left.Some? then Some(left.value - 1) else None, whole)
  {
    DivideTurn(cfg, chunk + rest, left);
    hide Divide, ChunkLen;
    assert (chunk + rest)[..|chunk|] == chunk && (chunk + rest)[|chunk|..] == rest;
    if left == Some(0) {
      assert requests + [] == requests;
    } else {
      var d := Divide(cfg, rest, if left.Some? then Some(left.value - 1) else None);
      assert requests + ([chunk] + d.requests) == (requests + [chunk]) + d.requests;
    }
  }

  lemma UnderwayEnds(cfg: Config, requests: seq<Chunk>, left: Option<nat>, whole: Division)
    requires ValidConfig(cfg) && Underway(cfg, requests, [], left, whole)
    ensures whole == Division(requests, [], [])
  {
    assert requests + [] == requests;
  }

  /** `flushOnUnload`. Without `fetch` a chunk goes to a beacon, or nowhere, and
      nothing more is heard of it. */
  function ApplyUnload(cfg: Config, w: World, throwAt: Option<nat>): World
    requires ValidConfig(cfg)
  {
    var d := Divide(cfg, w.fields.queue, throwAt);
    var w1 := w.(fields := w.fields.(queue := d.rest));
    if cfg.transport then w1.(unloads := w.unloads + d.requests, discarded := w.discarded + d.lost)
    else w1.(discarded := w.discarded + (Flatten(d.requests) + d.lost))
  }

  function ApplyUnloadReply(cfg: Config, w: World, i: nat, o: Outcome): World
    requires i < |w.unloads|
  {
    var chunk := w.unloads[i];
    var w1 := w.(unloads := w.unloads[..i] + w.unloads[i + 1..]);
    if o.Retry? then SetQueue(cfg, w1, chunk + w.fields.queue)
    else if o.Sent? then w1.(sent := w.sent + chunk)
    else w1.(rejected := w.rejected + chunk)
  }

  function Apply(cfg: Config, w: World, s: Step): World
    requires ValidConfig(cfg) && Enabled(cfg, w, s)
  {
    match s
    case Enqueue(json) => ApplyEnqueue(cfg, w, json)
    case Tick => StartFlush(cfg, w.(fields := w.fields.(backingOff := false)))
    case Flush => StartFlush(cfg, w)
    case ProviderReturns(i) =>
      w.(fields := w.fields.(inFlight := true), drains := w.drains[i := AwaitingToken])
    case TokenReady(i) => LoopHead(cfg, w, i)
    case SendDone(i, o) => ApplySendDone(cfg, w, i, o)
    case Settle(i) =>
      w.(fields := w.fields.(inFlight := false), drains := w.drains[..i] + w.drains[i + 1..])
    case Unload(throwAt) => ApplyUnload(cfg, w, throwAt)
    case UnloadReply(i, o) => ApplyUnloadReply(cfg, w, i, o)
  }

  // ---- runs ------------------------------------------------------------------

  predicate Legal(cfg: Config, w: World, steps: seq<Step>)
    requires ValidConfig(cfg)
    decreases |steps|
  {
    steps == [] || (Enabled(cfg, w, steps[0]) && Legal(cfg, Apply(cfg, w, steps[0]), steps[1..]))
  }

  function Run(cfg: Config, w: World, steps: seq<Step>): World
    requires ValidConfig(cfg) && Legal(cfg, w, steps)
    decreases |steps|
  {
    if steps == [] then w else Run(cfg, Apply(cfg, w, steps[0]), steps[1..])
  }

  lemma RunSnoc(cfg: Config, w: World, steps: seq<Step>, s: Step)
    requires ValidConfig(cfg) && Legal(cfg, w, steps) && Enabled(cfg, Run(cfg, w, steps), s)
    ensures Legal(cfg, w, steps + [s]) && Run(cfg, w, steps + [s]) == Apply(cfg, Run(cfg, w, steps), s)
    decreases |steps|
  {
    hide Apply, Enabled;
    if steps == [] {
      assert steps + [s] == [s] && [s][1..] == [];
    } else {
      assert (steps + [s])[1..] == steps[1..] + [s];
      RunSnoc(cfg, Apply(cfg, w, steps[0]), steps[1..], s);
    }
  }

  /** Some drain or unload request is carrying this chunk. */
  predicate InFlight(w: World, chunk: Chunk)
  {
    (exists d :: d in w.drains && d == Sending(chunk)) || chunk in w.unloads
  }

  lemma ChunkBounds(cfg: Config, queue: Chunk)
    ensures NextLen(cfg, queue) <= |queue| && NextLen(cfg, queue) <= cfg.maxBatch
    ensures ValidConfig(cfg) && queue != [] ==> NextLen(cfg, queue) > 0
  {
    ChunkLenLongest(queue, cfg.maxBatch, Wire.MAX_REQUEST_BYTES);
  }
}
