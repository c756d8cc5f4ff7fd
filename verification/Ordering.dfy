/** Order of delivery in runs without `flushOnUnload`, for both clients. */
module Ordering {
  import opened Chunking
  import opened Delivery
  import opened Discipline

  predicate Increasing(s: Chunk) { forall i, j :: 0 <= i < j < |s| ==> s[i].id < s[j].id }

  /** Every event of `a` was accepted before every event of `b`. */
  predicate Below(a: Chunk, b: Chunk) { forall x, y :: x in a && y in b ==> x.id < y.id }

  predicate Known(s: Chunk, next: nat) { forall x :: x in s ==> x.id < next }

  /** What the single drain is sending. */
  function Flying(w: World): Chunk
  {
    if |w.drains| == 1 && w.drains[0].Sending? then w.drains[0].chunk else []
  }

  /** Sent, in flight and queued events are in acceptance order, and whatever was
      trimmed is older than all that is queued. An event in flight may be older than
      a trimmed one, but only while the queue is full, so that it could not return. */
  predicate InLine(cfg: Config, sent: Chunk, flying: Chunk, queue: Chunk, trimmed: Chunk, next: nat)
  {
    && Increasing(sent) && Increasing(flying) && Increasing(queue)
    && Below(sent, flying) && Below(sent, queue) && Below(flying, queue)
    && Known(sent, next) && Known(flying, next) && Known(queue, next)
    && Below(trimmed, queue)
    && (|queue| == cfg.maxQueue || Below(trimmed, flying))
    && Known(trimmed, next)
  }

  predicate Ordered(cfg: Config, w: World)
  {
    && SingleFlight(w) && w.unloads == [] && Bounded(cfg, w)
    && InLine(cfg, w.sent, Flying(w), w.fields.queue, w.trimmed, |w.accepted|)
  }

  lemma IncreasingConcat(a: Chunk, b: Chunk)
    requires Increasing(a) && Increasing(b) && Below(a, b)
    ensures Increasing(a + b)
  {
    forall i, j | 0 <= i < j < |a + b| ensures (a + b)[i].id < (a + b)[j].id {
      if i < |a| <= j {
        assert a[i] in a && b[j - |a|] in b;
      }
    }
  }

  lemma IncreasingCut(s: Chunk, n: nat)
    requires n <= |s| && Increasing(s)
    ensures Increasing(s[..n]) && Increasing(s[n..]) && Below(s[..n], s[n..])
    ensures forall x :: x in s[..n] ==> x in s
    ensures forall x :: x in s[n..] ==> x in s
  {
  }

  lemma LoopHeadOrdered(cfg: Config, w: World)
    requires ValidConfig(cfg) && |w.drains| == 1 && w.drains[0].AwaitingToken? && Ordered(cfg, w)
    ensures Ordered(cfg, LoopHead(cfg, w, 0)) && LoopHead(cfg, w, 0).sent == w.sent
  {
    hide NextLen;
    var queue := w.fields.queue;
    if queue != [] {
      ChunkBounds(cfg, queue);
      IncreasingCut(queue, NextLen(cfg, queue));
    }
  }

  lemma RequeueInLine(cfg: Config, sent: Chunk, flying: Chunk, queue: Chunk, trimmed: Chunk, next: nat)
    requires InLine(cfg, sent, flying, queue, trimmed, next)
    ensures var q := flying + queue;
            var n := ExcessLen(q, cfg.maxQueue);
            InLine(cfg, sent, [], q[n..], trimmed + q[..n], next)
  {
    var q := flying + queue;
    var n := ExcessLen(q, cfg.maxQueue);
    IncreasingConcat(flying, queue);
    IncreasingCut(q, n);
    if |queue| == cfg.maxQueue {
      assert q[n..] == queue;
    }
  }

  lemma RequeueOrdered(cfg: Config, w: World)
    requires ValidConfig(cfg) && |w.drains| == 1 && w.drains[0].Sending? && Ordered(cfg, w)
    ensures Ordered(cfg, ApplySendDone(cfg, w, 0, Retry))
  {
    hide InLine;
    RequeueInLine(cfg, w.sent, w.drains[0].chunk, w.fields.queue, w.trimmed, |w.accepted|);
  }

  lemma StartFlushOrdered(cfg: Config, w: World)
    requires Ordered(cfg, w) && !Reenters(cfg, w, Flush)
    ensures Ordered(cfg, StartFlush(cfg, w)) && StartFlush(cfg, w).sent == w.sent
  {
    assert Flying(StartFlush(cfg, w)) == Flying(w);
  }

  /** A new event is above everything known. */
  lemma AppendKnown(a: Chunk, q: Chunk, item: Item)
    requires Below(a, q) && Known(a, item.id)
    ensures Below(a, q + [item]) && Known(a, item.id + 1)
  {
  }

  lemma AppendLine(q: Chunk, item: Item)
    requires Increasing(q) && Known(q, item.id)
    ensures Increasing(q + [item]) && Known(q + [item], item.id + 1)
  {
    IncreasingConcat(q, [item]);
  }

  /** Keeping only `q[n..]` of a queue and trimming `q[..n]`. */
  lemma CutBelow(a: Chunk, q: Chunk, n: nat)
    requires n <= |q| && Below(a, q)
    ensures Below(a, q[n..])
  {
  }

  lemma CutTrims(trimmed: Chunk, q: Chunk, n: nat, next: nat)
    requires n <= |q| && Increasing(q) && Below(trimmed, q) && Known(q, next) && Known(trimmed, next)
    ensures Increasing(q[n..]) && Below(trimmed + q[..n], q[n..])
    ensures Known(q[n..], next) && Known(trimmed + q[..n], next)
  {
    IncreasingCut(q, n);
  }

  lemma AppendInLine(cfg: Config, sent: Chunk, flying: Chunk, queue: Chunk, trimmed: Chunk, item: Item)
    requires InLine(cfg, sent, flying, queue, trimmed, item.id)
    requires cfg.maxQueue >= 0 ==> |queue| <= cfg.maxQueue
    ensures var q := queue + [item];
            var n := ExcessLen(q, cfg.maxQueue);
            InLine(cfg, sent, flying, q[n..], trimmed + q[..n], item.id + 1)
  {
    hide Below, Known, Increasing;
    var q := queue + [item];
    var n := ExcessLen(q, cfg.maxQueue);
    AppendLine(queue, item);
    AppendKnown(sent, queue, item);
    AppendKnown(flying, queue, item);
    AppendKnown(trimmed, queue, item);
    CutBelow(sent, q, n);
    CutBelow(flying, q, n);
    CutTrims(trimmed, q, n, item.id + 1);
    if n == 0 { assert trimmed + q[..n] == trimmed; }
  }

  lemma AppendOrdered(cfg: Config, w: World, item: Item)
    requires Ordered(cfg, w) && item.id == |w.accepted|
    ensures Ordered(cfg, SetQueue(cfg, w.(accepted := w.accepted + [item]), w.fields.queue + [item]))
  {
    hide InLine;
    AppendInLine(cfg, w.sent, Flying(w), w.fields.queue, w.trimmed, item);
  }

  lemma EnqueueOrdered(cfg: Config, w: World, json: seq<Utf16.Unit>)
    requires ValidConfig(cfg) && Ordered(cfg, w) && !Reenters(cfg, w, Enqueue(json))
    ensures Ordered(cfg, ApplyEnqueue(cfg, w, json)) && ApplyEnqueue(cfg, w, json).sent == w.sent
  {
    hide Json.Utf8Len, Ordered, StartFlush;
    var item := Item(|w.accepted|, json, Json.Utf8Len(json));
    var w1 := SetQueue(cfg, w.(accepted := w.accepted + [item]), w.fields.queue + [item]);
    AppendOrdered(cfg, w, item);
    if !Calling(w1) { StartFlushOrdered(cfg, w1); }
  }

  lemma StepOrdered(cfg: Config, w: World, s: Step)
    requires ValidConfig(cfg) && Enabled(cfg, w, s) && !s.Unload? && !Reenters(cfg, w, s) && Ordered(cfg, w)
    ensures Ordered(cfg, Apply(cfg, w, s))
    ensures w.sent <= Apply(cfg, w, s).sent
  {
    hide Divide, LoopHead, ApplyEnqueue, StartFlush, Record;
    match s
    case Enqueue(json) => EnqueueOrdered(cfg, w, json);
    case Tick => StartFlushOrdered(cfg, w.(fields := w.fields.(backingOff := false)));
    case Flush => StartFlushOrdered(cfg, w);
    case ProviderReturns(i) => assert Flying(Apply(cfg, w, s)) == Flying(w);
    case TokenReady(i) => LoopHeadOrdered(cfg, w);
    case SendDone(i, o) => if o.Retry? { RequeueOrdered(cfg, w); } else { DoneOrdered(cfg, w, o); }
    case Settle(i) =>
    case UnloadReply(i, o) =>
  }

  lemma DoneOrdered(cfg: Config, w: World, o: Outcome)
    requires ValidConfig(cfg) && |w.drains| == 1 && w.drains[0].Sending? && Ordered(cfg, w) && !o.Retry?
    ensures Ordered(cfg, ApplySendDone(cfg, w, 0, o)) && w.sent <= ApplySendDone(cfg, w, 0, o).sent
  {
    hide LoopHead;
    var w1 := Record(cfg, w.(drains := w.drains[0 := AwaitingToken]), w.drains[0].chunk, o);
    if o.Sent? { IncreasingConcat(w.sent, w.drains[0].chunk); }
    LoopHeadOrdered(cfg, w1);
  }

  predicate NoUnload(steps: seq<Step>) { forall s :: s in steps ==> !s.Unload? }

  lemma {:induction false} RunOrdered(cfg: Config, w: World, steps: seq<Step>)
    requires ValidConfig(cfg) && Legal(cfg, w, steps) && NoUnload(steps) && NoReentry(cfg, w, steps) && Ordered(cfg, w)
    ensures Ordered(cfg, Run(cfg, w, steps)) && w.sent <= Run(cfg, w, steps).sent
    decreases |steps|
  {
    hide Apply, Ordered, Reenters;
    if steps == [] {
    } else {
      assert steps[0] in steps;
      StepOrdered(cfg, w, steps[0]);
      RunOrdered(cfg, Apply(cfg, w, steps[0]), steps[1..]);
    }
  }

  /** Without unloads or re-entry, despite retries, requeues and trimming: events are sent in
      acceptance order over the whole run, what is in flight and queued continues
      that order, and every event given up is older than everything queued. */
  lemma SentInOrder(cfg: Config, steps: seq<Step>)
    requires ValidConfig(cfg) && Legal(cfg, INIT, steps) && NoUnload(steps) && NoReentry(cfg, INIT, steps)
    ensures var w := Run(cfg, INIT, steps);
            Increasing(w.sent + (Flying(w) + w.fields.queue)) && Below(w.trimmed, w.fields.queue)
  {
    RunOrdered(cfg, INIT, steps);
    var w := Run(cfg, INIT, steps);
    IncreasingConcat(Flying(w), w.fields.queue);
    IncreasingConcat(w.sent, Flying(w) + w.fields.queue);
  }
}
