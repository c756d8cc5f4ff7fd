/** Nothing is lost and nothing is acknowledged twice: over every run, each accepted
    event is in exactly one place. */
module Conservation {
  import opened Wrappers
  import opened Chunking
  import opened Delivery

  /** How often `x` occurs in `items`. */
  function Occurs(items: Chunk, x: Item): nat { multiset(items)[x] }

  function InDrain(d: Drain, x: Item): nat
  {
    if d.Sending? then Occurs(d.chunk, x) else 0
  }

  function InDrains(ds: seq<Drain>, x: Item): nat
  {
    if ds == [] then 0 else InDrain(ds[0], x) + InDrains(ds[1..], x)
  }

  function InChunks(cs: seq<Chunk>, x: Item): nat
  {
    if cs == [] then 0 else Occurs(cs[0], x) + InChunks(cs[1..], x)
  }

  /** Occurrences of `x` over the seven places an event can be: waiting in the
      queue, travelling with a drain or with an unload request, or finished with. */
  function Places(w: World, x: Item): nat
  {
    Occurs(w.fields.queue, x) + InDrains(w.drains, x) + InChunks(w.unloads, x)
    + Occurs(w.sent, x) + Occurs(w.rejected, x) + Occurs(w.trimmed, x) + Occurs(w.discarded, x)
  }

  predicate Conserved(w: World, x: Item)
  {
    Places(w, x) == Occurs(w.accepted, x)
  }

  // ---- lists -----------------------------------------------------------------

  lemma OccursConcat(a: Chunk, b: Chunk, x: Item)
    ensures Occurs(a + b, x) == Occurs(a, x) + Occurs(b, x)
  {
  }

  lemma OccursSplit(q: Chunk, n: nat, x: Item)
    requires n <= |q|
    ensures Occurs(q[..n], x) + Occurs(q[n..], x) == Occurs(q, x)
  {
    assert q[..n] + q[n..] == q;
  }

  lemma {:induction false} DrainsUpdate(ds: seq<Drain>, i: nat, d: Drain, x: Item)
    requires i < |ds|
    ensures InDrains(ds[i := d], x) + InDrain(ds[i], x) == InDrains(ds, x) + InDrain(d, x)
  {
    if i == 0 {
      assert ds[0 := d][1..] == ds[1..];
    } else {
      assert ds[i := d][1..] == ds[1..][i - 1 := d];
      DrainsUpdate(ds[1..], i - 1, d, x);
    }
  }

  lemma {:induction false} DrainsRemove(ds: seq<Drain>, i: nat, x: Item)
    requires i < |ds|
    ensures InDrains(ds[..i] + ds[i + 1..], x) + InDrain(ds[i], x) == InDrains(ds, x)
  {
    if i == 0 {
      assert ds[..0] + ds[1..] == ds[1..];
    } else {
      DrainsRemove(ds[1..], i - 1, x);
      assert (ds[..i] + ds[i + 1..])[1..] == ds[1..][..i - 1] + ds[1..][i..];
    }
  }

  lemma {:induction false} DrainsAppend(ds: seq<Drain>, d: Drain, x: Item)
    ensures InDrains(ds + [d], x) == InDrains(ds, x) + InDrain(d, x)
  {
    if ds == [] {
      assert ds + [d] == [d] && [d][1..] == [];
    } else {
      DrainsAppend(ds[1..], d, x);
      assert (ds + [d])[1..] == ds[1..] + [d];
    }
  }

  lemma {:induction false} ChunksRemove(cs: seq<Chunk>, i: nat, x: Item)
    requires i < |cs|
    ensures InChunks(cs[..i] + cs[i + 1..], x) + Occurs(cs[i], x) == InChunks(cs, x)
  {
    if i == 0 {
      assert cs[..0] + cs[1..] == cs[1..];
    } else {
      ChunksRemove(cs[1..], i - 1, x);
      assert (cs[..i] + cs[i + 1..])[1..] == cs[1..][..i - 1] + cs[1..][i..];
    }
  }

  lemma {:induction false} ChunksConcat(a: seq<Chunk>, b: seq<Chunk>, x: Item)
    ensures InChunks(a + b, x) == InChunks(a, x) + InChunks(b, x)
  {
    if a == [] {
      assert a + b == b;
    } else {
      ChunksConcat(a[1..], b, x);
      assert (a + b)[1..] == a[1..] + b;
    }
  }

  lemma {:induction false} FlattenOccurs(cs: seq<Chunk>, x: Item)
    ensures Occurs(Flatten(cs), x) == InChunks(cs, x)
  {
    if cs == [] {
    } else {
      FlattenOccurs(cs[1..], x);
      OccursConcat(cs[0], Flatten(cs[1..]), x);
    }
  }

  // ---- each step moves events, it never makes or loses one --------------------

  lemma SetQueuePlaces(cfg: Config, w: World, queue: Chunk, x: Item)
    ensures Places(SetQueue(cfg, w, queue), x) + Occurs(w.fields.queue, x) == Places(w, x) + Occurs(queue, x)
  {
    hide Occurs;
    var n := ExcessLen(queue, cfg.maxQueue);
    OccursSplit(queue, n, x);
    OccursConcat(w.trimmed, queue[..n], x);
  }

  lemma StartFlushPlaces(cfg: Config, w: World, x: Item)
    ensures Places(StartFlush(cfg, w), x) == Places(w, x)
    ensures StartFlush(cfg, w).accepted == w.accepted
  {
    hide Occurs;
    DrainsAppend(w.drains, Returned, x);
    DrainsAppend(w.drains, CallingProvider, x);
  }

  lemma LoopHeadPlaces(cfg: Config, w: World, i: nat, x: Item)
    requires i < |w.drains| && w.drains[i].AwaitingToken?
    ensures Places(LoopHead(cfg, w, i), x) == Places(w, x)
    ensures LoopHead(cfg, w, i).accepted == w.accepted
  {
    hide Occurs, NextLen;
    var n := NextLen(cfg, w.fields.queue);
    ChunkBounds(cfg, w.fields.queue);
    OccursSplit(w.fields.queue, n, x);
    DrainsUpdate(w.drains, i, Returned, x);
    DrainsUpdate(w.drains, i, Sending(w.fields.queue[..n]), x);
  }

  lemma RecordPlaces(cfg: Config, w: World, chunk: Chunk, o: Outcome, x: Item)
    ensures Places(Record(cfg, w, chunk, o), x) == Places(w, x) + Occurs(chunk, x)
  {
    hide Occurs;
    OccursConcat(w.sent, chunk, x);
    OccursConcat(w.rejected, chunk, x);
    OccursConcat(w.discarded, chunk, x);
  }

  lemma SendDonePlaces(cfg: Config, w: World, i: nat, o: Outcome, x: Item)
    requires i < |w.drains| && w.drains[i].Sending?
    ensures Places(ApplySendDone(cfg, w, i, o), x) == Places(w, x)
    ensures ApplySendDone(cfg, w, i, o).accepted == w.accepted
  {
    hide Occurs, InDrains, LoopHead;
    var chunk := w.drains[i].chunk;
    if o.Retry? {
      DrainsUpdate(w.drains, i, Returned, x);
      SetQueuePlaces(cfg, w, chunk + w.fields.queue, x);
      OccursConcat(chunk, w.fields.queue, x);
    } else {
      var w0 := w.(drains := w.drains[i := AwaitingToken]);
      DrainsUpdate(w.drains, i, AwaitingToken, x);
      RecordPlaces(cfg, w0, chunk, o, x);
      LoopHeadPlaces(cfg, Record(cfg, w0, chunk, o), i, x);
    }
  }

  lemma {:induction false} DivideOccurs(cfg: Config, queue: Chunk, throwAt: Option<nat>, x: Item)
    requires ValidConfig(cfg)
    ensures var d := Divide(cfg, queue, throwAt);
            InChunks(d.requests, x) + Occurs(d.lost, x) + Occurs(d.rest, x) == Occurs(queue, x)
    decreases |queue|
  {
    if queue == [] {
    } else {
      ChunkLenLongest(queue, cfg.maxBatch, UNLOAD_CHUNK_BYTES);
      var n := ChunkLen(queue, cfg.maxBatch, UNLOAD_CHUNK_BYTES);
      hide Occurs, ChunkLen;
      OccursSplit(queue, n, x);
      if throwAt != Some(0) {
        var rest := if throwAt.Some? then Some(throwAt.value - 1) else None;
        DivideOccurs(cfg, queue[n..], rest, x);
        var requests := Divide(cfg, queue[n..], rest).requests;
        assert ([queue[..n]] + requests)[1..] == requests;
      }
    }
  }

  lemma UnloadPlaces(cfg: Config, w: World, throwAt: Option<nat>, x: Item)
    requires ValidConfig(cfg)
    ensures Places(ApplyUnload(cfg, w, throwAt), x) == Places(w, x)
  {
    hide Occurs, Divide;
    var d := Divide(cfg, w.fields.queue, throwAt);
    DivideOccurs(cfg, w.fields.queue, throwAt, x);
    ChunksConcat(w.unloads, d.requests, x);
    FlattenOccurs(d.requests, x);
    OccursConcat(Flatten(d.requests), d.lost, x);
    OccursConcat(w.discarded, d.lost, x);
    OccursConcat(w.discarded, Flatten(d.requests) + d.lost, x);
  }

  lemma UnloadReplyPlaces(cfg: Config, w: World, i: nat, o: Outcome, x: Item)
    requires i < |w.unloads|
    ensures Places(ApplyUnloadReply(cfg, w, i, o), x) == Places(w, x)
  {
    hide Occurs;
    var chunk := w.unloads[i];
    ChunksRemove(w.unloads, i, x);
    OccursConcat(w.sent, chunk, x);
    OccursConcat(w.rejected, chunk, x);
    OccursConcat(chunk, w.fields.queue, x);
    SetQueuePlaces(cfg, w.(unloads := w.unloads[..i] + w.unloads[i + 1..]), chunk + w.fields.queue, x);
  }

  lemma EnqueuePlaces(cfg: Config, w: World, json: seq<Utf16.Unit>, x: Item)
    ensures var item := Item(|w.accepted|, json, Json.Utf8Len(json));
            var r := ApplyEnqueue(cfg, w, json);
            Places(r, x) == Places(w, x) + Occurs([item], x) && r.accepted == w.accepted + [item]
  {
    hide Occurs, StartFlush;
    var item := Item(|w.accepted|, json, Json.Utf8Len(json));
    var w0 := w.(accepted := w.accepted + [item]);
    OccursConcat(w.fields.queue, [item], x);
    SetQueuePlaces(cfg, w0, w.fields.queue + [item], x);
    StartFlushPlaces(cfg, SetQueue(cfg, w0, w.fields.queue + [item]), x);
  }

  /** Only `Enqueue` accepts, and it accepts one event with the next id. */
  predicate Numbered(w: World) { forall i :: 0 <= i < |w.accepted| ==> w.accepted[i].id == i }

  lemma StepConserves(cfg: Config, w: World, s: Step, x: Item)
    requires ValidConfig(cfg) && Enabled(cfg, w, s) && Conserved(w, x) && Numbered(w)
    ensures Conserved(Apply(cfg, w, s), x) && Numbered(Apply(cfg, w, s))
  {
    hide Occurs, InDrains, LoopHead, StartFlush, ApplySendDone, Divide, ApplyEnqueue;
    match s
    case Enqueue(json) =>
      EnqueuePlaces(cfg, w, json, x);
      OccursConcat(w.accepted, [Item(|w.accepted|, json, Json.Utf8Len(json))], x);
    case Tick =>
      StartFlushPlaces(cfg, w.(fields := w.fields.(backingOff := false)), x);
    case Flush =>
      StartFlushPlaces(cfg, w, x);
    case ProviderReturns(i) =>
      DrainsUpdate(w.drains, i, AwaitingToken, x);
    case TokenReady(i) =>
      LoopHeadPlaces(cfg, w, i, x);
    case SendDone(i, o) =>
      SendDonePlaces(cfg, w, i, o, x);
    case Settle(i) =>
      DrainsRemove(w.drains, i, x);
    case Unload(throwAt) =>
      UnloadPlaces(cfg, w, throwAt, x);
    case UnloadReply(i, o) =>
      UnloadReplyPlaces(cfg, w, i, o, x);
  }

  lemma {:induction false} RunConserves(cfg: Config, w: World, steps: seq<Step>, x: Item)
    requires ValidConfig(cfg) && Legal(cfg, w, steps) && Conserved(w, x) && Numbered(w)
    ensures Conserved(Run(cfg, w, steps), x) && Numbered(Run(cfg, w, steps))
    decreases |steps|
  {
    if steps == [] {
    } else {
      StepConserves(cfg, w, steps[0], x);
      RunConserves(cfg, Apply(cfg, w, steps[0]), steps[1..], x);
    }
  }

  // ---- exactly one place -----------------------------------------------------

  lemma {:induction false} DistinctCount(items: Chunk, k: nat)
    requires k < |items| && forall i :: 0 <= i < |items| ==> items[i].id == i
    ensures Occurs(items, items[k]) == 1
    decreases |items|
  {
    var last := |items| - 1;
    assert items == items[..last] + [items[last]];
    if k < last {
      DistinctCount(items[..last], k);
    } else {
      assert items[last] !in items[..last];
    }
  }

  /** In every reachable state each accepted event, with the text it was accepted
      with, is exactly once in exactly one of the seven places. */
  lemma ExactlyOnePlace(cfg: Config, steps: seq<Step>, id: nat)
    requires ValidConfig(cfg) && Legal(cfg, INIT, steps)
    requires id < |Run(cfg, INIT, steps).accepted|
    ensures var w := Run(cfg, INIT, steps); w.accepted[id].id == id && Places(w, w.accepted[id]) == 1
  {
    var w := Run(cfg, INIT, steps);
    RunConserves(cfg, INIT, steps, w.accepted[id]);
    DistinctCount(w.accepted, id);
  }

  /** Conversely, nothing is anywhere that was not accepted. */
  lemma OnlyAccepted(cfg: Config, steps: seq<Step>, x: Item)
    requires ValidConfig(cfg) && Legal(cfg, INIT, steps)
    requires Places(Run(cfg, INIT, steps), x) > 0
    ensures var w := Run(cfg, INIT, steps); x.id < |w.accepted| && w.accepted[x.id] == x
  {
    RunConserves(cfg, INIT, steps, x);
    var w := Run(cfg, INIT, steps);
    assert x in w.accepted;
  }
}
