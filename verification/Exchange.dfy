/** One request of a React client and the gateway's answer to it: both halves of the
    delivery path together. */
module Exchange {
  import opened Wrappers
  import opened Chunking
  import opened Delivery
  import Effects
  import GatewayDedupe
  import Ingest
  import RateLimit
  import ReactClient

  /** The handler answers a drain's request, and the client takes the answer. A rate
      limited request changes nothing on the gateway, and its events go back in front of
      the client's queue; otherwise they are filed as delivered. */
  method Answer(client: ReactClient.TelemetryClient, ghost drain: nat, chunk: Chunk,
                limiter: RateLimit.RateLimiter, dedupe: GatewayDedupe.Deduper, ip: RateLimit.Ip, now: real,
                es: seq<Ingest.Incoming>, fallbackActive: bool)
    returns (emitted: seq<nat>)
    requires client.Valid() && client.transport
    requires !Calling(client.world) && drain < |client.world.drains| && client.world.drains[drain] == Sending(chunk)
    requires limiter.Valid() && limiter.clock <= now && dedupe.Valid()
    modifies client, limiter, dedupe
    ensures client.Valid() && limiter.Valid() && dedupe.Valid()
    ensures RateLimit.Limited(old(limiter.history), ip, now, limiter.limit) ==>
              && emitted == [] && dedupe.history == old(dedupe.history) && limiter.history == old(limiter.history)
              && Effects.NewestOf(client.queue, chunk + old(client.queue), client.maxQueue) && client.backingOff
              && client.world.sent == old(client.world.sent) && client.world.rejected == old(client.world.rejected)
    ensures !RateLimit.Limited(old(limiter.history), ip, now, limiter.limit) ==>
              && dedupe.history == old(dedupe.history) + Ingest.Presentations(es)
              && client.world.sent == old(client.world.sent) + chunk
              && client.world.rejected == old(client.world.rejected)
  {
    hide Effects.GoesOn;
    var status, written, mirrored := Ingest.HandleIngest(limiter, dedupe, ip, now, es, fallbackActive);
    emitted := written;
    var _, _ := client.ResumeAfterSend(drain, chunk, Some(status));
  }
}
