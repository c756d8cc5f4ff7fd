/** What each step of the delivery protocol does, place by place, and what a timer tick
    leads to. */
module Effects {
  import opened Wrappers
  import opened Chunking
  import opened Delivery
  import opened Discipline

  /** `kept` is the newest `max` events of `offered`, or all if there are fewer; with a
      negative bound trimming raises and nothing goes. */
  predicate NewestOf(kept: Chunk, offered: Chunk, max: int)
  {
    && |kept| <= |offered| && offered[|offered| - |kept|..] == kept
    && |kept| == if 0 <= max < |offered| then max else |offered|
  }

  /** Nothing but the queue, the drains and the flags may differ. */
  predicate SameRecords(w: World, r: World)
  {
    && r.accepted == w.accepted && r.sent == w.sent && r.rejected == w.rejected && r.trimmed == w.trimmed
    && r.discarded == w.discarded && r.unloads == w.unloads && r.retries == w.retries
  }

  // ---- starting a drain --------------------------------------------------------

  /** A step adds a drain exactly when `inFlight` is unset and it is a tick, an explicit
      flush or an event that fills a batch while the client is not backing off. The
      drain calls its token provider exactly when something is queued. */
  lemma DrainStartsExactly(cfg: Config, w: World, s: Step)
    requires ValidConfig(cfg) && Enabled(cfg, w, s)
    ensures var r := Apply(cfg, w, s);
            && (|r.drains| == |w.drains| + 1 <==> Starts(cfg, w, s))
            && (Starts(cfg, w, s) ==>
                  r.drains == w.drains + [if r.fields.queue == [] then Returned else CallingProvider])
            && (!Starts(cfg, w, s) ==> |r.drains| <= |w.drains|)
            && ((s.Tick? || s.Flush?) ==> r.fields.queue == w.fields.queue && SameRecords(w, r))
  {
    hide Divide, NextLen;
    ChunkBounds(cfg, w.fields.queue);
  }

  /** What is spelled out by `Starts` for a tick: it flushes whatever the client is doing,
      unless a drain is in flight, and it always ends the backoff. */
  lemma TickFlushes(cfg: Config, w: World)
    requires ValidConfig(cfg) && !Calling(w)
    ensures var r := Apply(cfg, w, Tick);
            && !r.fields.backingOff && SameRecords(w, r) && r.fields.queue == w.fields.queue
            && (w.fields.inFlight ==> r.drains == w.drains)
            && (!w.fields.inFlight && w.fields.queue != [] ==> r.drains == w.drains + [CallingProvider])
            && (!w.fields.inFlight && w.fields.queue == [] ==>
                  r.drains == if cfg.platform.React? then w.drains + [Returned] else w.drains)
  {
  }

  // ---- what a drain takes ------------------------------------------------------

  /** Drain `i` takes `chunk` off the head of the queue, the longest it may send. */
  predicate Takes(cfg: Config, w: World, r: World, i: nat, chunk: Chunk)
    requires i < |w.drains|
  {
    && chunk + r.fields.queue == w.fields.queue && r.drains == w.drains[i := Sending(chunk)]
    && r.fields.backingOff == w.fields.backingOff
    && (cfg.platform.React? ==> LongestWithin(w.fields.queue, cfg.maxBatch, 1638400, |chunk|))
    && (cfg.platform.Flutter? ==>
          |chunk| == if |w.fields.queue| < cfg.maxBatch then |w.fields.queue| else cfg.maxBatch)
  }

  /** Drain `i` goes on from `w` to `r`: it takes the longest chunk it may send off the
      head of the queue or, with nothing queued, it returns and ends the backoff. */
  ghost predicate GoesOn(cfg: Config, w: World, r: World, i: nat)
    requires i < |w.drains|
  {
    && r.fields.inFlight == w.fields.inFlight
    && (w.fields.queue == [] ==>
          && r.fields.queue == [] && r.drains == w.drains[i := Returned]
          && r.fields.backingOff == (w.fields.backingOff && cfg.platform.Flutter?))
    && (w.fields.queue != [] ==> exists chunk :: Takes(cfg, w, r, i, chunk))
  }

  lemma LoopHeadGoesOn(cfg: Config, w: World, i: nat)
    requires ValidConfig(cfg) && i < |w.drains|
    ensures GoesOn(cfg, w, LoopHead(cfg, w, i), i) && SameRecords(w, LoopHead(cfg, w, i))
  {
    ChunkBounds(cfg, w.fields.queue);
    ChunkLenLongest(w.fields.queue, cfg.maxBatch, 1638400);
    hide ChunkLen, LongestWithin;
    var queue := w.fields.queue;
    var n := NextLen(cfg, queue);
    if queue != [] {
      assert queue[..n] + queue[n..] == queue && |queue[..n]| == n;
      assert Takes(cfg, w, LoopHead(cfg, w, i), i, queue[..n]);
    }
  }

  /** A token lets the drain go on. */
  lemma TokenLetsGo(cfg: Config, w: World, i: nat)
    requires ValidConfig(cfg) && Enabled(cfg, w, TokenReady(i))
    ensures var r := Apply(cfg, w, TokenReady(i)); GoesOn(cfg, w, r, i) && SameRecords(w, r)
  {
    LoopHeadGoesOn(cfg, w, i);
  }

  // ---- what becomes of a chunk -------------------------------------------------

  /** The chunk comes back in front of the queue; what no longer fits is trimmed. */
  predicate Requeued(cfg: Config, w: World, r: World, chunk: Chunk)
  {
    && NewestOf(r.fields.queue, chunk + w.fields.queue, cfg.maxQueue)
    && r.trimmed + r.fields.queue == w.trimmed + (chunk + w.fields.queue)
    && r.accepted == w.accepted && r.sent == w.sent && r.rejected == w.rejected && r.discarded == w.discarded
  }

  lemma RequeuedNewest(cfg: Config, w: World, r: World, chunk: Chunk)
    requires Requeued(cfg, w, r, chunk)
    ensures NewestOf(r.fields.queue, chunk + w.fields.queue, cfg.maxQueue)
  {
  }

  lemma SetQueueRequeues(cfg: Config, w: World, chunk: Chunk)
    ensures Requeued(cfg, w, SetQueue(cfg, w, chunk + w.fields.queue), chunk)
  {
    var q := chunk + w.fields.queue;
    var n := ExcessLen(q, cfg.maxQueue);
    assert q[..n] + q[n..] == q;
    assert (w.trimmed + q[..n]) + q[n..] == w.trimmed + (q[..n] + q[n..]);
  }

  /** A drain's chunk that may be sent again comes back, and the drain ends; the React
      client backs off. */
  lemma RetryRequeues(cfg: Config, w: World, i: nat)
    requires ValidConfig(cfg) && Enabled(cfg, w, SendDone(i, Retry))
    ensures var r := Apply(cfg, w, SendDone(i, Retry));
            && Requeued(cfg, w, r, w.drains[i].chunk)
            && r.drains == w.drains[i := Returned] && r.unloads == w.unloads && r.retries == w.retries + 1
            && r.fields.inFlight == w.fields.inFlight
            && r.fields.backingOff == (w.fields.backingOff || cfg.platform.React?)
  {
    SetQueueRequeues(cfg, w, w.drains[i].chunk);
  }

  /** The chunk is finished: delivered, rejected or, without a transport, discarded. */
  predicate Finished(cfg: Config, w: World, r: World, chunk: Chunk, delivered: bool)
  {
    && r.accepted == w.accepted && r.trimmed == w.trimmed && r.retries == w.retries
    && r.sent == (if delivered then w.sent + chunk else w.sent)
    && r.rejected == (if !delivered && cfg.transport then w.rejected + chunk else w.rejected)
    && r.discarded == (if !delivered && !cfg.transport then w.discarded + chunk else w.discarded)
  }

  lemma FinishedPlaces(cfg: Config, w: World, r: World, chunk: Chunk, delivered: bool)
    requires Finished(cfg, w, r, chunk, delivered)
    ensures delivered ==> r.sent == w.sent + chunk
    ensures !delivered && cfg.transport ==> r.rejected == w.rejected + chunk
    ensures !delivered && !cfg.transport ==> r.discarded == w.discarded + chunk
  {
  }

  lemma FinalFinishes(cfg: Config, w: World, i: nat, o: Outcome)
    requires ValidConfig(cfg) && Enabled(cfg, w, SendDone(i, o)) && !o.Retry?
    ensures var r := Apply(cfg, w, SendDone(i, o));
            Finished(cfg, w, r, w.drains[i].chunk, o.Sent?) && r.unloads == w.unloads && GoesOn(cfg, w, r, i)
  {
    var w1 := Record(cfg, w.(drains := w.drains[i := AwaitingToken]), w.drains[i].chunk, o);
    LoopHeadGoesOn(cfg, w1, i);
    var r := LoopHead(cfg, w1, i);
    hide LoopHead, LongestWithin;
    if w.fields.queue == [] {
      assert w1.drains[i := Returned] == w.drains[i := Returned];
    } else {
      var chunk :| Takes(cfg, w1, r, i, chunk);
      assert w1.drains[i := Sending(chunk)] == w.drains[i := Sending(chunk)];
      assert Takes(cfg, w, r, i, chunk);
    }
  }

  /** The reply to an unload request finishes its chunk or brings it back, and touches no
      drain and no flag. */
  lemma UnloadReplyMeans(cfg: Config, w: World, i: nat, o: Outcome)
    requires ValidConfig(cfg) && Enabled(cfg, w, UnloadReply(i, o))
    ensures var r := Apply(cfg, w, UnloadReply(i, o));
            var chunk := w.unloads[i];
            && r.unloads == w.unloads[..i] + w.unloads[i + 1..] && r.drains == w.drains && r.retries == w.retries
            && r.fields.inFlight == w.fields.inFlight && r.fields.backingOff == w.fields.backingOff
            && (o.Retry? ==> Requeued(cfg, w, r, chunk))
            && (!o.Retry? ==>
                  && r.fields.queue == w.fields.queue && r.trimmed == w.trimmed && r.accepted == w.accepted
                  && r.discarded == w.discarded
                  && r.sent == (if o.Sent? then w.sent + chunk else w.sent)
                  && r.rejected == (if o.Sent? then w.rejected else w.rejected + chunk))
  {
    SetQueueRequeues(cfg, w.(unloads := w.unloads[..i] + w.unloads[i + 1..]), w.unloads[i]);
  }

  /** An unload hands its requests over, and they stay open until they are answered;
      without `fetch` they are gone at once. */
  lemma UnloadMeans(cfg: Config, w: World, throwAt: Option<nat>)
    requires ValidConfig(cfg) && Enabled(cfg, w, Unload(throwAt))
    ensures var r := Apply(cfg, w, Unload(throwAt));
            && r.drains == w.drains && r.retries == w.retries && r.accepted == w.accepted && r.sent == w.sent
            && r.rejected == w.rejected && r.trimmed == w.trimmed
            && r.fields.inFlight == w.fields.inFlight && r.fields.backingOff == w.fields.backingOff
            && (throwAt.None? ==> r.fields.queue == [])
            && exists requests: seq<Chunk>, lost: Chunk ::
                 && Flatten(requests) + lost + r.fields.queue == w.fields.queue
                 && (throwAt.None? ==> lost == [])
                 && r.unloads == (if cfg.transport then w.unloads + requests else w.unloads)
                 && r.discarded == w.discarded + if cfg.transport then lost else Flatten(requests) + lost
  {
    DivideConcat(cfg, w.fields.queue, throwAt);
    hide Divide;
    var d := Divide(cfg, w.fields.queue, throwAt);
    assert Flatten(d.requests) + d.lost + d.rest == w.fields.queue;
  }

  // ---- progress ----------------------------------------------------------------

  /** No drain, and nothing stored that would keep one from starting. */
  predicate Settled(w: World) { w.drains == [] && !w.fields.inFlight }

  /** Answers after which nothing is sent again. */
  predicate Final(cfg: Config, answers: seq<Outcome>)
  {
    forall o :: o in answers ==> !o.Retry? && (!cfg.transport ==> o.Dropped?)
  }

  function Answered(answers: seq<Outcome>): seq<Step>
  {
    if answers == [] then [] else [SendDone(0, answers[0])] + Answered(answers[1..])
  }

  /** One final answer: the drain returns, or sends the next chunk. */
  lemma OneAnswer(cfg: Config, w: World, o: Outcome)
    requires ValidConfig(cfg) && !o.Retry? && (!cfg.transport ==> o.Dropped?)
    requires |w.drains| == 1 && w.drains[0].Sending?
    ensures Enabled(cfg, w, SendDone(0, o))
    ensures var r := Apply(cfg, w, SendDone(0, o));
            && r.trimmed == w.trimmed && r.retries == w.retries && |r.drains| == 1
            && (o.Sent? ==> r.sent == w.sent + w.drains[0].chunk)
            && (w.fields.queue == [] ==>
                  r.drains == [Returned] && r.fields.queue == [] && (cfg.platform.React? ==> !r.fields.backingOff))
            && (w.fields.queue != [] ==>
                  && r.drains[0].Sending? && r.drains[0].chunk + r.fields.queue == w.fields.queue
                  && |r.fields.queue| < |w.fields.queue|)
            && (!w.fields.backingOff ==> !r.fields.backingOff)
  {
    FinalFinishes(cfg, w, 0, o);
    hide Apply, LongestWithin;
    if w.fields.queue != [] {
      ChunkTaken(cfg, w, Apply(cfg, w, SendDone(0, o)));
    }
  }

  lemma ChunkTaken(cfg: Config, w: World, r: World)
    requires ValidConfig(cfg) && |w.drains| == 1 && GoesOn(cfg, w, r, 0) && w.fields.queue != []
    ensures |r.drains| == 1 && r.drains[0].Sending? && r.drains[0].chunk + r.fields.queue == w.fields.queue
    ensures |r.fields.queue| < |w.fields.queue| && r.fields.backingOff == w.fields.backingOff
  {
    var chunk :| Takes(cfg, w, r, 0, chunk);
    assert |chunk| > 0;
  }

  lemma Joined(a: Chunk, b: Chunk, c: Chunk, d: Chunk)
    requires c + d == b
    ensures (a + c) + d == a + b
  {
  }

  /** How many final answers a drain needs that is sending a chunk. */
  lemma {:induction false} DrainsOut(cfg: Config, w: World, answers: seq<Outcome>) returns (n: nat)
    requires ValidConfig(cfg) && Final(cfg, answers) && |answers| > |w.fields.queue|
    requires |w.drains| == 1 && w.drains[0].Sending?
    ensures 0 < n <= |answers| && Legal(cfg, w, Answered(answers[..n]))
    ensures var r := Run(cfg, w, Answered(answers[..n]));
            && r.fields.queue == [] && r.drains == [Returned] && r.trimmed == w.trimmed && r.retries == w.retries
            && (cfg.platform.React? || !w.fields.backingOff ==> !r.fields.backingOff)
            && ((forall o :: o in answers ==> o.Sent?) ==>
                  r.sent == w.sent + w.drains[0].chunk + w.fields.queue)
    decreases |w.fields.queue|
  {
    hide Apply, Enabled, Run, Legal;
    var s := SendDone(0, answers[0]);
    assert answers[0] in answers;
    OneAnswer(cfg, w, answers[0]);
    var r := Apply(cfg, w, s);
    if w.fields.queue == [] {
      n := 1;
      RunEmpty(cfg, r);
      assert answers[..1] == [answers[0]] && answers[..1][1..] == [] && Answered(answers[..1]) == [s] + [];
      RunCons(cfg, w, s, []);
      Joined(w.sent + w.drains[0].chunk, [], [], []);
    } else {
      assert forall o :: o in answers[1..] ==> o in answers;
      var m := DrainsOut(cfg, r, answers[1..]);
      n := m + 1;
      assert answers[..n][1..] == answers[1..][..m] && answers[..n][0] == answers[0];
      RunCons(cfg, w, s, Answered(answers[1..][..m]));
      Joined(w.sent + w.drains[0].chunk, w.fields.queue, r.drains[0].chunk, r.fields.queue);
    }
  }

  /** The returned drain is released, and the next one may start. */
  lemma SettleReleases(cfg: Config, w: World, i: nat)
    requires ValidConfig(cfg) && Enabled(cfg, w, Settle(i))
    ensures var r := Apply(cfg, w, Settle(i));
            && r.drains == w.drains[..i] + w.drains[i + 1..] && !r.fields.inFlight && SameRecords(w, r)
            && r.fields.queue == w.fields.queue && r.fields.backingOff == w.fields.backingOff
            && (w.drains == [Returned] ==> Settled(r))
  {
  }

  /** The beginning of a tick's drain, up to its first request. */
  lemma TickSends(cfg: Config, w: World)
    requires ValidConfig(cfg) && Settled(w) && w.fields.queue != []
    ensures Enabled(cfg, w, Tick)
    ensures var w1 := Apply(cfg, w, Tick);
            Enabled(cfg, w1, ProviderReturns(0)) &&
            var w2 := Apply(cfg, w1, ProviderReturns(0));
            Enabled(cfg, w2, TokenReady(0)) &&
            var w3 := Apply(cfg, w2, TokenReady(0));
            && |w3.drains| == 1 && w3.drains[0].Sending? && w3.drains[0].chunk + w3.fields.queue == w.fields.queue
            && |w3.fields.queue| < |w.fields.queue| && !w3.fields.backingOff && SameRecords(w, w3)
  {
    TickFlushes(cfg, w);
    var w1 := Apply(cfg, w, Tick);
    assert w1.drains == [CallingProvider];
    var w2 := Apply(cfg, w1, ProviderReturns(0));
    assert w2 == w1.(fields := w1.fields.(inFlight := true), drains := [AwaitingToken]);
    assert Enabled(cfg, w2, TokenReady(0));
    TokenLetsGo(cfg, w2, 0);
    hide Apply, Takes;
    ChunkTaken(cfg, w2, Apply(cfg, w2, TokenReady(0)));
  }

  lemma Finish(cfg: Config, w: World, steps: seq<Step>)
    requires ValidConfig(cfg) && Legal(cfg, w, steps) && Run(cfg, w, steps).drains == [Returned]
    ensures var all := steps + [Settle(0)];
            Legal(cfg, w, all) &&
            var r := Run(cfg, w, steps);
            var t := Run(cfg, w, all);
            && Settled(t) && SameRecords(r, t) && t.fields.queue == r.fields.queue
            && t.fields.backingOff == r.fields.backingOff
  {
    var r := Run(cfg, w, steps);
    assert Enabled(cfg, r, Settle(0));
    hide Apply, Enabled, Run, Legal;
    SettleReleases(cfg, r, 0);
    RunSnoc(cfg, w, steps, Settle(0));
  }

  /** Progress: with a settled client, a tick followed by its provider's return, the
      token, only final answers and the drain's release empties the queue, loses nothing
      and leaves the client settled; if every answer is a success, exactly the queued
      events are sent, in order. */
  lemma TickDelivers(cfg: Config, w: World, answers: seq<Outcome>) returns (n: nat)
    requires ValidConfig(cfg) && Settled(w) && w.fields.queue != []
    requires Final(cfg, answers) && |answers| > |w.fields.queue|
    ensures n <= |answers|
    ensures var steps := [Tick] + ([ProviderReturns(0)] + ([TokenReady(0)] + Answered(answers[..n]))) + [Settle(0)];
            Legal(cfg, w, steps) &&
            var r := Run(cfg, w, steps);
            && r.fields.queue == [] && Settled(r) && r.trimmed == w.trimmed && r.retries == w.retries
            && !r.fields.backingOff
            && ((forall o :: o in answers ==> o.Sent?) ==> r.sent == w.sent + w.fields.queue)
  {
    hide Apply, Enabled, Run, Legal, Takes;
    TickSends(cfg, w);
    var w1 := Apply(cfg, w, Tick);
    var w2 := Apply(cfg, w1, ProviderReturns(0));
    var w3 := Apply(cfg, w2, TokenReady(0));
    n := DrainsOut(cfg, w3, answers);
    var rest := Answered(answers[..n]);
    RunCons(cfg, w2, TokenReady(0), rest);
    RunCons(cfg, w1, ProviderReturns(0), [TokenReady(0)] + rest);
    RunCons(cfg, w, Tick, [ProviderReturns(0)] + ([TokenReady(0)] + rest));
    Joined(w3.sent, w.fields.queue, w3.drains[0].chunk, w3.fields.queue);
    Finish(cfg, w, [Tick] + ([ProviderReturns(0)] + ([TokenReady(0)] + rest)));
  }
}
