/** One event with a separated surrogate pair costs a Flutter client a whole request: the
    gateway refuses it, and the client drops every event in it. */
module RefusedBatch {
  import opened Wrappers
  import opened Utf16
  import opened Json
  import opened Chunking
  import opened Delivery
  import opened Decoding
  import opened EndToEnd
  import FM = FlutterModels
  import FlutterClient
  import IngestModels
  import Wire

  /** A well-formed event whose stack is sent with a lone surrogate. */
  function Spoiler(): Origin
  {
    Origin(FM.Log(FM.Letters(340), FM.Emoji(4000)), Wire.LogType, None, None)
  }

  lemma SpoilerUnclean()
    ensures Documented(Spoiler()) && !Clean(Spoiler())
  {
    hide FM.Letters, FM.Emoji, FM.Converted, FM.Readable, FM.CleanCuts, FM.WellFormedInput, Lit;
    FM.SecondStageSeparates();
    FM.ReadableExactly(Spoiler().event, None, None);
  }

  /** Two events are queued, flushed and sent together. */
  function SharedRun(a: Text, b: Text): seq<Step>
  {
    [] + [Enqueue(a)] + [Enqueue(b)] + [Flush] + [ProviderReturns(0)] + [TokenReady(0)]
  }

  function Shared(a: Text, b: Text): Chunk { [Item(0, a, Utf8Len(a)), Item(1, b, Utf8Len(b))] }

  /** The client's default settings, or any that let two events share a request. */
  predicate Roomy(cfg: Config)
  {
    ValidConfig(cfg) && cfg.platform.Flutter? && cfg.maxBatch > 2 && cfg.maxQueue != 0 && cfg.maxQueue != 1
  }

  /** After both events are queued, and while the drain waits for its token. */
  function Queued(both: Chunk): World { INIT.(fields := Fields(both, false, false), accepted := both) }

  function Waiting(both: Chunk): World
  {
    INIT.(fields := Fields(both, true, false), accepted := both, drains := [AwaitingToken])
  }

  lemma BothQueued(cfg: Config, a: Text, b: Text)
    requires Roomy(cfg)
    ensures Apply(cfg, Apply(cfg, INIT, Enqueue(a)), Enqueue(b)) == Queued(Shared(a, b))
  {
    hide Utf8Len;
    var one := Item(0, a, Utf8Len(a));
    var w1 := Apply(cfg, INIT, Enqueue(a));
    assert w1 == INIT.(fields := Fields([one], false, false), accepted := [one]);
    assert [one] + [Item(1, b, Utf8Len(b))] == Shared(a, b);
  }

  lemma DrainStarts(cfg: Config, both: Chunk)
    requires Roomy(cfg) && both != []
    ensures var w := Apply(cfg, Queued(both), Flush);
            Enabled(cfg, w, ProviderReturns(0)) && Apply(cfg, w, ProviderReturns(0)) == Waiting(both)
  {
    assert Apply(cfg, Queued(both), Flush).drains == [CallingProvider];
    assert [CallingProvider][0 := AwaitingToken] == [AwaitingToken];
  }

  lemma BothLeave(cfg: Config, both: Chunk)
    requires Roomy(cfg) && |both| == 2
    ensures Enabled(cfg, Waiting(both), TokenReady(0))
    ensures var w := Apply(cfg, Waiting(both), TokenReady(0));
            && w.drains == [Sending(both)]
            && Enabled(cfg, w, SendDone(0, Dropped)) && Apply(cfg, w, SendDone(0, Dropped)).rejected == both
  {
    assert both[..2] == both;
    var w := Apply(cfg, Waiting(both), TokenReady(0));
    assert w.drains == [Sending(both)] && w.rejected == [];
    assert [] + both == both;
  }

  lemma SharedRequest(cfg: Config, a: Text, b: Text)
    requires Roomy(cfg)
    ensures Legal(cfg, INIT, SharedRun(a, b))
    ensures var w := Run(cfg, INIT, SharedRun(a, b));
            && w.drains == [Sending(Shared(a, b))]
            && Enabled(cfg, w, SendDone(0, Dropped)) && Apply(cfg, w, SendDone(0, Dropped)).rejected == Shared(a, b)
  {
    BothQueued(cfg, a, b);
    DrainStarts(cfg, Shared(a, b));
    BothLeave(cfg, Shared(a, b));
    AlwaysEnabled(cfg);
    hide Apply, Enabled, Shared, Utf8Len, Queued, Waiting;
    var s0: seq<Step> := [];
    RunSnoc(cfg, INIT, s0, Enqueue(a));
    hide Run, Legal;
    var s1 := s0 + [Enqueue(a)];
    RunSnoc(cfg, INIT, s1, Enqueue(b));
    RunSnoc(cfg, INIT, s1 + [Enqueue(b)], Flush);
    RunSnoc(cfg, INIT, s1 + [Enqueue(b)] + [Flush], ProviderReturns(0));
    RunSnoc(cfg, INIT, s1 + [Enqueue(b)] + [Flush] + [ProviderReturns(0)], TokenReady(0));
  }

  lemma AlwaysEnabled(cfg: Config)
    requires cfg.platform.Flutter?
    ensures forall w, json :: Enabled(cfg, w, Enqueue(json))
    ensures forall w :: Enabled(cfg, w, Flush)
  {
  }

  /** Any event that the gateway would accept by itself is lost when it shares a request
      with such an event: the request is within the body limit and refused, and the
      reply, 422, makes the client drop both events for good. */
  lemma OneSpoilsTheRest(cfg: Config, o: Origin)
    requires Roomy(cfg) && Documented(o) && Clean(o)
    ensures Acceptable(TextOf(o)) && Legal(cfg, INIT, SharedRun(TextOf(o), TextOf(Spoiler())))
    ensures var a, b := TextOf(o), TextOf(Spoiler());
            && !Accepts(BuildBody(Shared(a, b)), IngestModels.DEFAULTS)
            && Utf8Len(BuildBody(Shared(a, b))) <= Wire.MAX_REQUEST_BYTES
    ensures var chunk := Shared(TextOf(o), TextOf(Spoiler()));
            var w := Run(cfg, INIT, SharedRun(TextOf(o), TextOf(Spoiler())));
            var reply := SendDone(0, FlutterClient.Classify(Some(422)));
            InFlight(w, chunk) && Enabled(cfg, w, reply) && Apply(cfg, w, reply).rejected == chunk
  {
    hide TextOf, Spoiler, Documented, Clean, Acceptable, Written, Accepts, BuildBody, Utf8Len;
    hide Run, Legal, Apply, Enabled;
    var a, b := TextOf(o), TextOf(Spoiler());
    SpoilerUnclean();
    OriginAccepted(o);
    OriginAccepted(Spoiler());
    SharedRequest(cfg, a, b);
    SharedRefused(a, b);
    hide SharedRun, Shared;
    var w := Run(cfg, INIT, SharedRun(a, b));
    assert w.drains[0] in w.drains;
  }

  lemma SharedRefused(a: Text, b: Text)
    requires Written(a) && Written(b) && !Acceptable(b)
    requires Utf8Len(a) <= Wire.MAX_EVENT_BYTES && Utf8Len(b) <= Wire.MAX_EVENT_BYTES
    ensures !Accepts(BuildBody(Shared(a, b)), IngestModels.DEFAULTS)
    ensures Utf8Len(BuildBody(Shared(a, b))) <= Wire.MAX_REQUEST_BYTES
  {
    hide Written, Acceptable, Accepts, BuildBody, Utf8Len;
    var chunk := Shared(a, b);
    assert chunk[1] in chunk && chunk[1].json == b;
    BodyAcceptedExactly(chunk);
    BodyBytesExact(chunk);
    assert ItemBytes(chunk) == chunk[0].bytes + 1 + ItemBytes(chunk[1..]);
    assert ItemBytes(chunk[1..]) == chunk[1].bytes + 1 + ItemBytes(chunk[1..][1..]);
  }
}
