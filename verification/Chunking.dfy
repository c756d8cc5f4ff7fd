/** Request bodies and the byte budget of `takeChunk` (client.ts). */
module Chunking {
  import opened Utf16
  import opened Json
  import opened Wire

  /** An accepted event. `json` is its wire text and `bytes` the length the client
      remembers for it. `id` is its position among all accepted events; the source
      has no such field, it only gives each event an identity. */
  datatype Item = Item(id: nat, json: Text, bytes: nat)

  type Chunk = seq<Item>

  function Flatten(chunks: seq<Chunk>): Chunk
  {
    if chunks == [] then [] else chunks[0] + Flatten(chunks[1..])
  }

  const UNLOAD_CHUNK_BYTES := 60000

  const BODY_PREFIX: Text := Lit("{\"events\":[")
  const BODY_SUFFIX: Text := Lit("]}")
  const EMPTY_BODY_BYTES := |BODY_PREFIX| + |BODY_SUFFIX|

  /** `bytes` is the length of `json`, and at most one event's limit. */
  predicate Sized(item: Item) { item.bytes == Utf8Len(item.json) <= MAX_EVENT_BYTES }

  predicate AllSized(items: Chunk) { forall x :: x in items ==> Sized(x) }

  function Jsons(chunk: Chunk): seq<Text>
  {
    if chunk == [] then [] else [chunk[0].json] + Jsons(chunk[1..])
  }

  function BuildBody(chunk: Chunk): Text { BODY_PREFIX + Join(Jsons(chunk)) + BODY_SUFFIX }

  /** Bytes of the events of a chunk, each with one comma. */
  function ItemBytes(chunk: Chunk): nat
  {
    if chunk == [] then 0 else chunk[0].bytes + 1 + ItemBytes(chunk[1..])
  }

  /** The running count of `takeChunk` after taking `chunk`. */
  function BodyBytes(chunk: Chunk): nat
  {
    if chunk == [] then EMPTY_BODY_BYTES else EMPTY_BODY_BYTES + ItemBytes(chunk) - 1
  }

  lemma {:induction false} ItemBytesPlusOne(chunk: Chunk, item: Item)
    ensures ItemBytes(chunk + [item]) == ItemBytes(chunk) + item.bytes + 1
  {
    if chunk == [] {
      assert chunk + [item] == [item];
      assert ItemBytes([item]) == item.bytes + 1 + ItemBytes([]);
    } else {
      assert (chunk + [item])[1..] == chunk[1..] + [item];
      ItemBytesPlusOne(chunk[1..], item);
    }
  }

  lemma {:induction false} JsonsBytes(chunk: Chunk)
    requires AllSized(chunk)
    ensures PartBytes(Jsons(chunk)) == ItemBytes(chunk)
    ensures Jsons(chunk) == [] <==> chunk == []
  {
    if chunk == [] {
    } else {
      assert Sized(chunk[0]);
      assert forall x :: x in chunk[1..] ==> x in chunk;
      JsonsBytes(chunk[1..]);
    }
  }

  /** The running count is the exact UTF-8 length of the body that is sent. */
  lemma BodyBytesExact(chunk: Chunk)
    requires AllSized(chunk)
    ensures Utf8Len(BuildBody(chunk)) == BodyBytes(chunk)
  {
    JsonsBytes(chunk);
    WrapUtf8(BODY_PREFIX, Join(Jsons(chunk)), BODY_SUFFIX);
    if chunk != [] { JoinUtf8(Jsons(chunk)); }
  }

  /** The number of events `takeChunk` removes, counting on from `count` events
      and `bytes` bytes. */
  function CountFrom(queue: Chunk, maxBatch: nat, maxBytes: nat, count: nat, bytes: nat): nat
    requires count <= |queue|
    decreases |queue| - count
  {
    if count == |queue| || count >= maxBatch then count
    else
      var next := bytes + queue[count].bytes + (if count > 0 then 1 else 0);
      if count > 0 && next > maxBytes then count else CountFrom(queue, maxBatch, maxBytes, count + 1, next)
  }

  function ChunkLen(queue: Chunk, maxBatch: nat, maxBytes: nat): nat
  {
    CountFrom(queue, maxBatch, maxBytes, 0, EMPTY_BODY_BYTES)
  }

  /** `n` is the longest prefix within both budgets, the first event always going. */
  predicate LongestWithin(queue: Chunk, maxBatch: nat, maxBytes: nat, n: nat)
  {
    && n <= |queue|
    && (queue != [] && maxBatch > 0 ==> n > 0)
    && n <= maxBatch
    && (n > 1 ==> BodyBytes(queue[..n]) <= maxBytes)
    && (n == |queue| || n == maxBatch || BodyBytes(queue[..n + 1]) > maxBytes)
  }

  lemma BodyBytesStep(queue: Chunk, k: nat)
    requires k < |queue|
    ensures BodyBytes(queue[..k + 1]) == BodyBytes(queue[..k]) + queue[k].bytes + if k > 0 then 1 else 0
  {
    assert queue[..k + 1] == queue[..k] + [queue[k]];
    ItemBytesPlusOne(queue[..k], queue[k]);
  }

  lemma {:induction false} CountFromLongest(queue: Chunk, maxBatch: nat, maxBytes: nat, count: nat)
    requires count <= |queue| && count <= maxBatch
    requires count > 1 ==> BodyBytes(queue[..count]) <= maxBytes
    ensures var n := CountFrom(queue, maxBatch, maxBytes, count, BodyBytes(queue[..count]));
            count <= n && LongestWithin(queue, maxBatch, maxBytes, n)
    decreases |queue| - count
  {
    if count < |queue| && count < maxBatch {
      BodyBytesStep(queue, count);
      var next := BodyBytes(queue[..count + 1]);
      if !(count > 0 && next > maxBytes) {
        CountFromLongest(queue, maxBatch, maxBytes, count + 1);
      }
    }
  }

  lemma ChunkLenLongest(queue: Chunk, maxBatch: nat, maxBytes: nat)
    ensures LongestWithin(queue, maxBatch, maxBytes, ChunkLen(queue, maxBatch, maxBytes))
  {
    assert queue[..0] == [];
    CountFromLongest(queue, maxBatch, maxBytes, 0);
  }

  /** No other length meets that description, so greedy taking is optimal. */
  lemma LongestUnique(queue: Chunk, maxBatch: nat, maxBytes: nat, n: nat, m: nat)
    requires maxBatch > 0
    requires LongestWithin(queue, maxBatch, maxBytes, n) && LongestWithin(queue, maxBatch, maxBytes, m)
    ensures n == m
  {
    if n < m {
      BodyBytesMonotone(queue, n + 1, m);
    } else if m < n {
      BodyBytesMonotone(queue, m + 1, n);
    }
  }

  lemma {:induction false} BodyBytesMonotone(queue: Chunk, i: nat, j: nat)
    requires i <= j <= |queue|
    ensures BodyBytes(queue[..i]) <= BodyBytes(queue[..j])
    decreases j
  {
    if i < j {
      BodyBytesStep(queue, j - 1);
      BodyBytesMonotone(queue, i, j - 1);
    }
  }

  /** Under any budget that holds one event, every chunk's body is within it. */
  lemma ChunkFits(queue: Chunk, maxBatch: nat, maxBytes: nat)
    requires AllSized(queue) && queue != [] && maxBatch > 0
    requires maxBytes >= MAX_EVENT_BYTES + EMPTY_BODY_BYTES
    ensures var n := ChunkLen(queue, maxBatch, maxBytes);
            && 0 < n <= |queue| && n <= maxBatch
            && Utf8Len(BuildBody(queue[..n])) <= maxBytes
  {
    ChunkLenLongest(queue, maxBatch, maxBytes);
    var n := ChunkLen(queue, maxBatch, maxBytes);
    assert forall x :: x in queue[..n] ==> x in queue;
    BodyBytesExact(queue[..n]);
    if n == 1 {
      BodyBytesStep(queue, 0);
      assert queue[..0] == [];
      assert Sized(queue[0]);
    }
  }
}
