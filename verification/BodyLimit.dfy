/** The gateway's request-size limit (main.py): a declared length is checked first,
    then the bytes of the body are counted as they are received. */
module BodyLimit {
  import opened Wrappers
  import opened Json
  import opened Chunking
  import opened Delivery
  import Discipline
  import IngestModels
  import Wire

  /** An ASGI message: a piece of the body, or something else (a disconnect). */
  datatype Message = Body(bytes: nat) | Other

  function Size(m: Message): nat { if m.Body? then m.bytes else 0 }

  function Total(ms: seq<Message>): nat
  {
    if ms == [] then 0 else Size(ms[0]) + Total(ms[1..])
  }

  /** What an application that reads the whole body gets. */
  datatype Reading = Complete(handed: nat) | TooLarge(handed: nat)

  function Read(ms: seq<Message>, received: nat, handed: nat, limit: nat): Reading
  {
    if ms == [] then Complete(handed)
    else if ms[0].Body? && received + ms[0].bytes > limit then TooLarge(handed)
    else Read(ms[1..], received + Size(ms[0]), handed + Size(ms[0]), limit)
  }

  /** The response to a request: rejected up front, or left to the application. */
  function Handle(declared: Option<nat>, ms: seq<Message>, limit: nat): Reading
  {
    if declared.Some? && declared.value > limit then TooLarge(0) else Read(ms, 0, 0, limit)
  }

  lemma {:induction false} ReadExact(ms: seq<Message>, received: nat, limit: nat)
    requires received <= limit
    ensures var r := Read(ms, received, received, limit);
            && r.handed <= limit
            && (r.Complete? <==> received + Total(ms) <= limit)
            && (r.Complete? ==> r.handed == received + Total(ms))
    decreases ms
  {
    if ms != [] && !(ms[0].Body? && received + ms[0].bytes > limit) {
      ReadExact(ms[1..], received + Size(ms[0]), limit);
    }
  }

  /** However a body is cut into messages, the application is handed at most `limit`
      bytes, and reads all of it exactly when its total, and the declared length if
      there is one, are within the limit. */
  lemma SplitIndependent(declared: Option<nat>, ms: seq<Message>, ms': seq<Message>, limit: nat)
    requires Total(ms) == Total(ms')
    ensures var r := Handle(declared, ms, limit);
            && r.handed <= limit
            && (r.Complete? <==> Total(ms) <= limit && (declared.Some? ==> declared.value <= limit))
            && (r.Complete? ==> r == Handle(declared, ms', limit) == Complete(Total(ms)))
            && (r.TooLarge? <==> Handle(declared, ms', limit).TooLarge?)
  {
    ReadExact(ms, 0, limit);
    ReadExact(ms', 0, limit);
  }

  /** Every request a React client has in flight, drained or sent on unload, in any
      reachable state, passes the gateway's default limit and batch size, however
      its body is cut into messages. */
  lemma ClientRequestsPass(cfg: Config, steps: seq<Step>, chunk: Chunk, declared: Option<nat>, ms: seq<Message>)
    requires ValidConfig(cfg) && cfg.platform.React? && Legal(cfg, INIT, steps)
    requires InFlight(Run(cfg, INIT, steps), chunk)
    requires Total(ms) == Utf8Len(BuildBody(chunk)) && (declared.Some? ==> declared.value == Total(ms))
    ensures Handle(declared, ms, IngestModels.DEFAULTS.MaxRequestBytes()) == Complete(Utf8Len(BuildBody(chunk)))
    ensures 0 < |chunk| <= IngestModels.DEFAULTS.maxBatchEvents
  {
    Discipline.RequestsSized(cfg, INIT, steps);
    hide BuildBody, Utf8Len;
    SplitIndependent(declared, ms, ms, IngestModels.DEFAULTS.MaxRequestBytes());
  }

  lemma {:induction false} ItemBytesBound(chunk: Chunk)
    requires AllSized(chunk)
    ensures ItemBytes(chunk) <= (Wire.MAX_EVENT_BYTES + 1) * |chunk|
  {
    if chunk == [] {
    } else {
      assert chunk[0] in chunk && forall x :: x in chunk[1..] ==> x in chunk;
      ItemBytesBound(chunk[1..]);
    }
  }

  /** A body without a byte budget of its own, as the Flutter client sends it, passes
      the default limit exactly when its running count does; 99 events always do. */
  lemma BodyPassesExactly(chunk: Chunk, declared: Option<nat>, ms: seq<Message>)
    requires AllSized(chunk)
    requires Total(ms) == Utf8Len(BuildBody(chunk)) && (declared.Some? ==> declared.value == Total(ms))
    ensures Handle(declared, ms, IngestModels.DEFAULTS.MaxRequestBytes()).Complete? <==>
              BodyBytes(chunk) <= Wire.MAX_REQUEST_BYTES
    ensures |chunk| <= 99 ==> BodyBytes(chunk) <= Wire.MAX_REQUEST_BYTES
  {
    BodyBytesExact(chunk);
    ItemBytesBound(chunk);
    hide BuildBody, Utf8Len, ItemBytes;
    SplitIndependent(declared, ms, ms, IngestModels.DEFAULTS.MaxRequestBytes());
  }

  lemma {:induction false} FullItemBytes(chunk: Chunk)
    requires forall x :: x in chunk ==> x.bytes == Wire.MAX_EVENT_BYTES
    ensures ItemBytes(chunk) == (Wire.MAX_EVENT_BYTES + 1) * |chunk|
  {
    if chunk == [] {
    } else {
      assert chunk[0] in chunk && forall x :: x in chunk[1..] ==> x in chunk;
      FullItemBytes(chunk[1..]);
    }
  }

  /** 100 events at the event limit exceed the body limit by 112 bytes. */
  lemma FullBatchExceeds(chunk: Chunk)
    requires |chunk| == 100 && AllSized(chunk) && forall x :: x in chunk ==> x.bytes == Wire.MAX_EVENT_BYTES
    ensures Utf8Len(BuildBody(chunk)) == Wire.MAX_REQUEST_BYTES + 112
  {
    BodyBytesExact(chunk);
    FullItemBytes(chunk);
    hide BuildBody, Utf8Len, ItemBytes;
  }

  /** The wrapped `receive` of one request; `limit` is read once, before. */
  class LimitedReceive {
    const limit: nat
    var received: nat

    constructor (limit: nat)
      ensures this.limit == limit && received == 0
    {
      this.limit, received := limit, 0;
    }

    /** Pass a message on, or raise once the body is over the limit. */
    method Receive(m: Message) returns (ok: bool)
      modifies this
      ensures received == old(received) + Size(m)
      ensures ok <==> !(m.Body? && received > limit)
    {
      ok := true;
      if m.Body? {
        received := received + m.bytes;
        if received > limit { ok := false; }
      }
    }

    /** An application reading the whole body through this wrapper. */
    method ReadAll(ms: seq<Message>) returns (r: Reading)
      requires received == 0
      modifies this
      ensures r == Read(ms, 0, 0, limit) && r.handed <= limit
      ensures r.Complete? <==> Total(ms) <= limit
    {
      ReadExact(ms, 0, limit);
      var handed := 0;
      for i := 0 to |ms|
        invariant handed == received
        invariant Read(ms[i..], received, handed, limit) == Read(ms, 0, 0, limit)
      {
        var ok := Receive(ms[i]);
        assert ms[i..][1..] == ms[i + 1..];
        if !ok { return TooLarge(handed); }
        handed := handed + Size(ms[i]);
      }
      return Complete(handed);
    }
  }
}
