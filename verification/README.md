# Verified model of the telemetry delivery path

A Dafny model of how client telemetry travels in this repository: from an event
in a browser or mobile app, through the client queues, to the gateway's ingest
endpoint, its rate limit and deduplication, and the emitter's routing table.
`dafny verify dfyconfig.toml` checks everything.

## What is modelled

- **Text and size** (`Utf16.dfy`, `Json.dfy`, `JsonReader.dfy`). Strings are sequences of 16-bit
  units. The JSON text is built as `JSON.stringify` and `jsonEncode` build it
  (RFC 8259 section 7) and its UTF-8 length (RFC 3629 section 3) is proved equal
  to a size table that is additive at every cut, except that separating a
  surrogate pair costs 8 bytes. A reader for such texts gets back every object and
  request body that is written.
- **Wire shaping** (`Wire.dfy` for React, `FlutterModels.dfy` for Flutter): field
  caps, context rules, ids, and the shrinking of oversized events.
- **The contract** (`IngestModels.dfy`, `Validation.dfy`, `Contract.dfy`, `Decoding.dfy`): the
  gateway's field validators over code points, what they let through and what they refuse, the decoding of a request body into the fields
  they check, and the proof that every event the clients build from well-formed text
  is decoded and accepted as sent; for the Flutter client, exactly when none of its
  cuts separates a surrogate pair.
- **The delivery protocol** (`Chunking.dfy`, `Delivery.dfy`). JavaScript and Dart
  run each callback to completion, so a step is the code between two suspension
  points. Starting a drain calls the token provider before `inFlight` is assigned;
  the provider may call the client, so that call and its return are steps too. A
  world holds the client's fields, every suspended drain, every unload request that
  has not been answered, and what became of each event. Nothing in the world limits
  the number of drains; when there is only one is a theorem. `Conservation.dfy`,
  `Discipline.dfy` and `Ordering.dfy` prove properties of every run; `Effects.dfy` says
  what each step does and that a tick delivers. A send is an outcome (sent, dropped,
  retry) chosen by the environment.
- **End to end** (`EndToEnd.dfy`, `OversizedBatch.dfy`, `RefusedBatch.dfy`): over every
  run of a client, every request in flight is traced to the events that were enqueued.
  The React client's requests always fit the body limit and are decoded and validated
  event for event. For the Flutter client it is proved exactly when they are, with a
  run whose request is too large and one whose request is refused.
- **The client objects** (`ReactClient.dfy`, `FlutterClient.dfy`): classes whose
  methods are the code between two suspension points, with the loops of the
  source, each proved to take exactly one protocol step. `ClientDedupe.dfy` is the
  React client's bounded deduplication map.
- **Gateway state** (`RateLimit.dfy`, `GatewayDedupe.dfy`, `Ingest.dfy`,
  `BodyLimit.dfy`, `Stack.dfy`, `Emitter.dfy`): each bounded or pruned structure
  against the unbounded history it stands for. `Exchange.dfy` joins one request's client
  and handler.
- **Trace ids** (`TraceIds.dfy`): from random bytes to the emitted integer.

Clock readings, random bytes, probe results, response outcomes and whether a
provider can be created are parameters. Clocks are assumed not to run backwards
where a result needs it.

## Where the code and its documentation differ

The model follows the code.

- `docs/DESIGN.md` and `emit.py` speak of at most 32 per-app providers. There can
  be 33, the extra one being the fallback: `Emitter.ExceedsExactly` says exactly
  when, `Emitter.OneMoreThanDocumented` gives a run.
- `client.dart` lines 71-72 say that callers get the future of the flush in flight, and
  `client.ts` means the same by `inFlight`. The field is assigned only after the drain
  has called the token provider: a provider that flushes, or fills a batch, starts a
  second drain. `Discipline.OneDrainExactly` says that this is the only way,
  `Discipline.ReentryOverlaps` gives a run.
- `client.dart` line 11 says the client never throws into its caller. `enqueue` does
  exactly under a negative `maxQueue`: `FlutterClient.TelemetryClient.EnqueueEvent`.
- `client.ts` line 56 says backoff lasts until the next timer tick. A drain that
  finds the queue empty also ends it: `Discipline.BackoffEnds`, with the run
  `Discipline.BackoffEndsWithoutTick`.
- `models.dart` line 111 says cutting as many characters as there are excess bytes
  is enough. It is not when the cut separates a surrogate pair:
  `FlutterModels.SecondStageExact`, with the input
  `FlutterModels.SecondStageCanFail`. The event still fits in the end, because of
  the third stage. The same cut can also leave a lone surrogate in an event that is
  sent: `FlutterModels.ReadableExactly`, with the input
  `FlutterModels.SecondStageSeparates`. Such an event makes the gateway refuse the
  whole request, and the client drop every event in it: `EndToEnd.FlutterEndToEnd`,
  with the run `RefusedBatch.OneSpoilsTheRest`.
- `client.dart` line 66 speaks of gateway-sized chunks. A request has no byte budget,
  so 100 events at the event limit are 112 bytes over the gateway's body limit:
  `BodyLimit.BodyPassesExactly` says which bodies pass,
  `OversizedBatch.FlutterFitsExactly` for which settings all do, and
  `OversizedBatch.OversizedRequest` gives a run.
- `_is_duplicate` may let a duplicate through once its map overflows, as its own
  comment says: `GatewayDedupe.SlipsExactly` says exactly when, over every run, and
  `GatewayDedupe.DenseRunSlips` gives such runs for every size limit.

## Model

| member | source | states |
|---|---|---|
| Utf16.CutBytes | clients/react/obs-telemetry/src/models.ts:95-102 | serialized size is additive at every cut, plus 8 bytes exactly when the cut separates a pair |
| Utf16.JsonBytesBounds | clients/react/obs-telemetry/src/models.ts:156-157 | every unit costs between 1 and 6 serialized bytes |
| Utf16.CutWellFormed | clients/react/obs-telemetry/src/models.ts:95-102 | a prefix of well-formed text is well formed exactly when the cut separates no pair |
| Utf16.EncodeDecode | gateway/src/obs_gateway/ingest.py:90 | the code points the gateway sees are the same text, and hold a surrogate exactly when the text is not well formed |
| Utf16.CapCut | clients/react/obs-telemetry/src/models.ts:95-102 | `cap` keeps a prefix within the limit, one unit less than allowed exactly when it would end in a high surrogate; it separates no pair, keeps text well formed, and loses exactly the bytes it removes |
| Utf16.CapRemoves | clients/react/obs-telemetry/src/models.ts:156-157 | cutting n units with `cap` removes at least n serialized bytes |
| Json.EscapeUtf8 | clients/react/obs-telemetry/src/models.ts:90-93 | the size table is the UTF-8 length of the escaped text |
| JsonReader.StringRoundTrip | clients/react/obs-telemetry/src/client.ts:101-102 | a written JSON string is read back unit for unit and ends at its closing quote, whatever it contains and whatever follows |
| Json.StringifyUtf8 | clients/react/obs-telemetry/src/models.ts:150 | the byte length of a stringified object is the sum of its members' costs |
| JsonReader.ObjectRoundTrip | clients/react/obs-telemetry/src/models.ts:150 | a stringified object is read back member for member, with exactly the text after it left over |
| JsonReader.BodyRoundTrip | clients/react/obs-telemetry/src/client.ts:261-267 | a request body built from stringified objects is read back event for event |
| Wire.SanitizeApp | clients/react/obs-telemetry/src/models.ts:110-114 | the result is 1 to 64 characters of the gateway's alphabet, and an app that already fits is unchanged |
| Wire.ValidId | clients/react/obs-telemetry/src/models.ts:104-108 | a kept id is lowercase hex of the right length and not all zero; a valid id is kept unchanged |
| Wire.LowerId | clients/react/obs-telemetry/src/models.ts:104-108 | an id is valid after `toLowerCase` exactly when it is valid up to the case of its letters |
| Wire.ShapedContext | clients/react/obs-telemetry/src/models.ts:138-148 | the context on the wire has 1 to 32 entries with distinct keys within the caps, even where truncation merges keys, and stays well formed |
| Wire.BytesExact | clients/react/obs-telemetry/src/models.ts:150-154 | the measured byte length of the wire JSON is exactly the field-by-field sum used by the size proofs |
| Wire.OneCut | clients/react/obs-telemetry/src/models.ts:160-164 | after one cut of a field the event fits or the field is empty, and no other field changed |
| Wire.ToWire | clients/react/obs-telemetry/src/models.ts:122-167 | the loop of `toWire` cuts no field twice, ends with at most 16384 bytes of JSON, and computes the conversion that the rows below relate to the event field by field |
| Wire.ConvertedFits | clients/react/obs-telemetry/src/models.ts:150-166 | every event, whatever its texts, converts to at most 16384 bytes |
| Wire.SacrificeOrder | clients/react/obs-telemetry/src/models.ts:116-121 | an event that fits is untouched, the context goes first, a later text is shortened only when every earlier one is empty or absent, nothing after a partly kept text changes, and no cut separates a pair |
| Wire.TextsKept | clients/react/obs-telemetry/src/models.ts:122-166 | type and level are the event's, `info` by default; message, error, stack and url are prefixes of the field of the same name, there exactly when it is given, and whole up to their caps when the event fits; the version is always whole up to its cap |
| Wire.CapOptionExact | clients/react/obs-telemetry/src/models.ts:129-132 | a text within its cap is whole, a longer one as long as the cap allows without ending in half a pair |
| Wire.AppKept | clients/react/obs-telemetry/src/models.ts:110-114 | the app is the given one cut at 64 with every character outside the alphabet replaced, and `web` for an empty one |
| Wire.IdsKept | clients/react/obs-telemetry/src/models.ts:104-108 | an id is sent exactly when its lowercase form is hex of its length and not all zero, and is then that form |
| Wire.ContextKept | clients/react/obs-telemetry/src/models.ts:138-148 | a context that is sent holds exactly the last entry, after truncation, of every key among the first 32 with a nonempty key |
| Wire.SignatureTells | clients/react/obs-telemetry/src/models.ts:169-172 | events with the same type, message and stack have one signature, and without a bar in the message no others share it |
| Wire.LastWins | clients/react/obs-telemetry/src/models.ts:143-145 | building the context object keeps, for every truncated key, the last of its entries |
| FlutterModels.BytesExact | clients/flutter/obs_telemetry/lib/src/models.dart:79-80 | `_bytes` is exactly the member-by-member sum |
| FlutterModels.ToJson | clients/flutter/obs_telemetry/lib/src/models.dart:84-125 | the staged map updates end with at most 16384 encoded bytes and compute the conversion that the rows below relate to the event field by field |
| FlutterModels.ConvertedFits | clients/flutter/obs_telemetry/lib/src/models.dart:108-123 | every combination of fields ends within 16384 bytes, even where `substring` separates a pair |
| FlutterModels.DocumentedTypes | clients/flutter/obs_telemetry/lib/src/models.dart:61-62 | the four documented types are within the type length for which the bound holds |
| FlutterModels.SecondStageExact | clients/flutter/obs_telemetry/lib/src/models.dart:110-115 | shortening the stack alone suffices exactly when the removed text, less 8 bytes for a separated pair, is worth the excess |
| FlutterModels.SecondStageCanFail | clients/flutter/obs_telemetry/lib/src/models.dart:110-115 | an event that is one byte too large without its context is left 3 bytes too large by that stage |
| FlutterModels.FinalTexts | clients/flutter/obs_telemetry/lib/src/models.dart:84-125 | every text that is sent is a prefix of the original, cut where the stages say, and for a well-formed original well formed exactly when that cut separates no pair |
| FlutterModels.IdsAndAppKept | clients/flutter/obs_telemetry/lib/src/models.dart:84-96 | the level is the event's; an id is sent exactly when its trimmed, lowercased form is valid, in that form; the app is sent exactly when given, nonempty and within the alphabet, cut at 64 |
| FlutterModels.TrimExact | clients/flutter/obs_telemetry/lib/src/models.dart:76-96 | `trim` removes exactly the white space at both ends |
| FlutterModels.ContextKept | clients/flutter/obs_telemetry/lib/src/models.dart:97-109 | a context that is sent holds exactly the last entry of every truncated key among the first 32 with a nonempty key, and a nonempty context is sent exactly when the event fits with it |
| FlutterModels.LastResort | clients/flutter/obs_telemetry/lib/src/models.dart:116-123 | an event that loses its stack or url has no context, and its message and error are the originals cut at 1000 |
| FlutterModels.SignatureTells | clients/flutter/obs_telemetry/lib/src/models.dart:127-128 | events with the same type, message and stack have one signature, and without bars in type and message no others share it |
| FlutterModels.ReadableExactly | clients/flutter/obs_telemetry/lib/src/models.dart:76-125 | from well-formed texts the client sends only well-formed ones exactly when no cut of a text that survives separates a pair |
| FlutterModels.SecondStageSeparates | clients/flutter/obs_telemetry/lib/src/models.dart:110-115 | a well-formed event that no cap touches is sent, within the limit, with a lone surrogate in its stack |
| IngestModels.NormalizeNoop | gateway/src/obs_gateway/ingest.py:46 | strip and lower leave text alone that has no spaces and no capitals |
| Contract.SameBytes | gateway/src/obs_gateway/ingest.py:90 | gateway and client count the same escaped bytes for the same well-formed text |
| Contract.IdUnchanged | gateway/src/obs_gateway/ingest.py:43-49 | an id the client keeps passes `_hex_id` unchanged |
| Contract.EntriesAccepted | gateway/src/obs_gateway/ingest.py:34-37 | context entries within the client's unit caps are within the gateway's code-point caps |
| Contract.ConvertedCapped | clients/react/obs-telemetry/src/models.ts:122-167 | shrinking keeps every cap and keeps well-formed text well formed |
| Contract.DumpNoLarger | gateway/src/obs_gateway/ingest.py:88-93 | the gateway's size without defaults never exceeds the client's size |
| Contract.ClientEventAccepted | gateway/src/obs_gateway/ingest.py:52-93 | every React event with well-formed texts converts to a wire event that passes every validator with each field as sent |
| Contract.FlutterEventAccepted | gateway/src/obs_gateway/ingest.py:52-93 | so does every Flutter event of a documented type of which no cut separates a pair |
| Contract.ClientBatchAccepted | gateway/src/obs_gateway/ingest.py:96-106 | a batch of up to 100 such events is accepted |
| Contract.NamesArrive | clients/react/obs-telemetry/src/models.ts:7-9 | every type and level arrives at the gateway under its own name |
| Decoding.StringifyInjective | clients/react/obs-telemetry/src/models.ts:150 | different member lists have different texts |
| Decoding.FlutterDecoded | gateway/src/obs_gateway/ingest.py:52-67 | the text of a Flutter event is decoded to its fields exactly when it holds no lone surrogate |
| Decoding.ReactTextAcceptable | clients/react/obs-telemetry/src/models.ts:122-167 | the text of a converted React event is decoded to its eleven fields, each under its own name, and validated |
| Decoding.FlutterTextAcceptable | clients/flutter/obs_telemetry/lib/src/models.dart:84-125 | the text of a converted Flutter event of a documented type is accepted exactly when no cut separates a pair |
| Validation.RulesExactly | gateway/src/obs_gateway/ingest.py:52-86 | some size limit lets a raw event through exactly when every field rule holds of the fields as they arrive: names, code-point caps, app alphabet, ids, context bounds |
| Validation.SizeRefused | gateway/src/obs_gateway/ingest.py:88-93 | apart from the rules, an event is refused exactly when its size without defaults exceeds the limit |
| Validation.ValidatedSound | gateway/src/obs_gateway/ingest.py:52-93 | an event that got through meets every rule, and its fields are those that arrived, with level and ids normalized and defaults filled in |
| Validation.StripExact | gateway/src/obs_gateway/ingest.py:46 | `strip` removes exactly the white space at both ends |
| Validation.LowerExact | gateway/src/obs_gateway/ingest.py:46-49 | `lower` changes exactly the capitals, so an id is accepted in either case |
| Validation.AlphabetsAgree | gateway/src/obs_gateway/ingest.py:59 | client and gateway allow the same characters in an app name, the documented ones |
| Validation.DumpExact | gateway/src/obs_gateway/ingest.py:90 | for an event within the client's caps the measured size is the exact length of its JSON text without the members that hold their defaults |
| Validation.IdsParse | gateway/src/obs_gateway/emit.py:100-101 | the ids of every validated event parse to nonzero integers of 128 and 64 bits |
| Chunking.BodyBytesExact | clients/react/obs-telemetry/src/client.ts:261-267 | the running byte count is the exact UTF-8 length of the body |
| Chunking.ChunkLenLongest | clients/react/obs-telemetry/src/client.ts:225-236 | `takeChunk` takes the longest prefix within both budgets, and never nothing |
| Chunking.LongestUnique | clients/react/obs-telemetry/src/client.ts:224-236 | no other length meets that description |
| Chunking.ChunkFits | clients/react/obs-telemetry/src/client.ts:225-236 | with events of at most 16384 bytes every body is within a budget that holds one event |
| Conservation.StepConserves | clients/react/obs-telemetry/src/client.ts:90-178 | every step moves events between places and only accepting an event adds one |
| Conservation.ExactlyOnePlace | clients/react/obs-telemetry/src/client.ts:90-247 | in every reachable state each accepted event is once in exactly one of queue, drain, unload request, sent, rejected, trimmed, discarded |
| Conservation.OnlyAccepted | clients/react/obs-telemetry/src/client.ts:90-247 | nothing is in any of these places that was not accepted, with the text it was accepted with |
| Discipline.StepSingleFlight | clients/react/obs-telemetry/src/client.ts:113-121 | a step keeps a single drain single exactly when the token provider does not start another from inside its call |
| Discipline.OneDrainExactly | clients/flutter/obs_telemetry/lib/src/client.dart:71-78 | a run never has two drains at once exactly when no call of the token provider re-enters |
| Discipline.ReentryOverlaps | clients/react/obs-telemetry/src/client.ts:115-121 | a provider that flushes gives a second drain, on both clients |
| Discipline.StepCredit | clients/react/obs-telemetry/src/client.ts:161-178 | only a tick or an explicit flush raises the number of retries still possible |
| Discipline.RetryBound | clients/react/obs-telemetry/src/client.ts:81-121 | in every run without re-entry at most one drain exists, and drains fail retryably at most once more than there are ticks and explicit flushes |
| Discipline.QuietUntilWoken | clients/react/obs-telemetry/src/client.ts:105-107 | once backing off without an active drain, no drain becomes active until a tick or an explicit flush, whatever is enqueued |
| Discipline.BackoffEnds | clients/react/obs-telemetry/src/client.ts:56-57 | backoff ends exactly at a tick or when a drain finds the queue empty |
| Discipline.BackoffEndsWithoutTick | clients/react/obs-telemetry/src/client.ts:161-178 | for any event, a run without ticks in which backoff begins and ends |
| Discipline.StepTrims | clients/react/obs-telemetry/src/client.ts:238-247 | the queue stays within its bound, and only the oldest offered events are trimmed, only while `maxQueue` newer ones stay queued |
| Discipline.QueueBound | clients/flutter/obs_telemetry/lib/src/client.dart:60-64 | over every run the queue never exceeds a `maxQueue` that is not negative, and a negative one trims nothing |
| Discipline.UnloadCuts | clients/react/obs-telemetry/src/client.ts:129-154 | an unload divides the queue in order into requests of at most 60000 bytes; without a throwing send nothing is lost or left, with one only its chunk is lost |
| Discipline.UnloadGreedy | clients/react/obs-telemetry/src/client.ts:133-134 | every unload request is the longest prefix of what was left that is within 60000 bytes and a batch |
| Discipline.RequestsSized | clients/react/obs-telemetry/src/client.ts:165-167 | in every reachable state every request in flight is within its byte and event budget |
| Effects.DrainStartsExactly | clients/react/obs-telemetry/src/client.ts:105-121 | a step adds a drain exactly when none is in flight and it is a tick, an explicit flush (on Flutter with something queued) or an event that fills a batch while not backing off; the drain calls the provider exactly when something is queued |
| Effects.TickFlushes | clients/react/obs-telemetry/src/client.ts:83-86 | a tick ends the backoff and starts a drain unless one is in flight |
| Effects.TokenLetsGo | clients/react/obs-telemetry/src/client.ts:164-174 | with the token a drain takes the longest chunk it may send off the queue, or returns |
| Effects.RetryRequeues | clients/react/obs-telemetry/src/client.ts:168-172 | a retryable answer leaves exactly the newest `maxQueue` events of the chunk and the queue behind it, ends the drain and, on React, begins the backoff |
| Effects.FinalFinishes | clients/react/obs-telemetry/src/client.ts:165-174 | any other answer files the chunk in exactly one place and the drain goes on |
| Effects.UnloadReplyMeans | clients/react/obs-telemetry/src/client.ts:143-146 | the answer to an unload request files its chunk or brings it back and touches no drain and no flag |
| Effects.UnloadMeans | clients/react/obs-telemetry/src/client.ts:129-154 | an unload hands the queue over in order; what it hands over stays open until answered, and without `fetch` is gone |
| Effects.SettleReleases | clients/react/obs-telemetry/src/client.ts:116-118 | the `finally` callback releases the drain and lets the next one start |
| Effects.TickDelivers | clients/react/obs-telemetry/src/client.ts:81-178 | progress: with nothing in flight, a tick and only final answers empty the queue, lose nothing and leave nothing in flight; if all succeed exactly the queued events are sent, in order |
| Ordering.StepOrdered | clients/flutter/obs_telemetry/lib/src/client.dart:80-92 | a step without unload or re-entry keeps sent, in-flight and queued events in acceptance order and trimmed ones older than the queue |
| Ordering.SentInOrder | clients/react/obs-telemetry/src/client.ts:161-178 | over every run without unload and re-entry the sent events, then those in flight, then those queued are in acceptance order, and everything trimmed is older than everything queued |
| ReactClient.TelemetryClient.constructor | clients/react/obs-telemetry/src/client.ts:59-70 | batch size and queue bound are clamped, the client starts empty |
| ReactClient.TelemetryClient.TakeChunk | clients/react/obs-telemetry/src/client.ts:224-236 | removes the longest prefix within both budgets, and a body of events within the event limit fits |
| ReactClient.TelemetryClient.TrimQueue | clients/react/obs-telemetry/src/client.ts:244-247 | keeps exactly the newest `maxQueue` events |
| ReactClient.TelemetryClient.Requeue | clients/react/obs-telemetry/src/client.ts:238-242 | puts the chunk in front and keeps the newest `maxQueue` |
| ReactClient.TelemetryClient.PruneRecent | clients/react/obs-telemetry/src/client.ts:249-258 | keeps exactly the unexpired entries, and of those the newest 200 |
| ReactClient.TelemetryClient.Flush | clients/react/obs-telemetry/src/client.ts:113-121 | starts a drain exactly when none is in flight, up to its call of the token provider |
| ReactClient.TelemetryClient.ProviderReturned | clients/react/obs-telemetry/src/client.ts:116-118 | stores the promise only once the provider has returned |
| ReactClient.TelemetryClient.TimerTick | clients/react/obs-telemetry/src/client.ts:83-86 | takes the tick step of the protocol: with something queued and nothing in flight a drain starts, and the backoff ends in any case |
| ReactClient.TelemetryClient.DrainLoop | clients/react/obs-telemetry/src/client.ts:165-174 | either sends the next chunk, within the request limit, or ends the drain and the backoff |
| ReactClient.TelemetryClient.ResumeWithToken | clients/react/obs-telemetry/src/client.ts:164-167 | takes the token step of the protocol |
| ReactClient.TelemetryClient.ResumeAfterSend | clients/react/obs-telemetry/src/client.ts:167-174 | by status number: none, 429 and 500 or more bring the chunk back, keep the newest `maxQueue`, begin the backoff and end the drain; 200 to 299 files it as sent, any other as rejected, and without a transport it is discarded |
| ReactClient.TelemetryClient.SettleDrain | clients/react/obs-telemetry/src/client.ts:116-118 | releases the drain |
| ReactClient.TelemetryClient.EnqueueEvent | clients/react/obs-telemetry/src/client.ts:90-111 | an event is ignored exactly when disabled or suppressed; otherwise its wire JSON is queued and the map records it |
| ReactClient.TelemetryClient.HandOver | clients/react/obs-telemetry/src/client.ts:133-150 | the loop hands over exactly the chunks of the division and leaves exactly its rest |
| ReactClient.TelemetryClient.FlushOnUnload | clients/react/obs-telemetry/src/client.ts:129-154 | empties the queue into requests whose concatenation is the old queue when no send throws |
| ReactClient.TelemetryClient.UnloadReplied | clients/react/obs-telemetry/src/client.ts:143-146 | by status number: none, 429 and 500 or more bring the chunk back, 200 to 299 files it as sent, any other as rejected |
| ClientDedupe.PresentFaithful | clients/react/obs-telemetry/src/client.ts:93-99 | the map stays bounded and ordered by age, holds only latest acceptances, and lacks one only if it expired or was evicted |
| ClientDedupe.SuppressionExact | clients/react/obs-telemetry/src/client.ts:93-99 | after any run an event is suppressed exactly when its signature was accepted less than one window ago and a full map has not evicted it since |
| ClientDedupe.EvictsOldest | clients/react/obs-telemetry/src/client.ts:253-257 | an unexpired entry disappears only when 200 entries at least as new stay |
| FlutterClient.TelemetryClient.constructor | clients/flutter/obs_telemetry/lib/src/client.dart:16-28 | the batch size is clamped to 1..100, the client starts empty |
| FlutterClient.TelemetryClient.TrimQueue | clients/flutter/obs_telemetry/lib/src/client.dart:60-64 | keeps exactly the newest `maxQueue` events, and raises exactly when `maxQueue` is negative |
| FlutterClient.TelemetryClient.Flush | clients/flutter/obs_telemetry/lib/src/client.dart:73-78 | starts a drain exactly when none is in flight and something is queued, up to its call of the token provider |
| FlutterClient.TelemetryClient.ProviderReturned | clients/flutter/obs_telemetry/lib/src/client.dart:77 | stores the future only once the provider has returned |
| FlutterClient.TelemetryClient.TimerTick | clients/flutter/obs_telemetry/lib/src/client.dart:36 | takes the tick step of the protocol: with something queued and nothing in flight a drain starts |
| FlutterClient.TelemetryClient.DrainLoop | clients/flutter/obs_telemetry/lib/src/client.dart:82-91 | sends the next batch or ends the drain |
| FlutterClient.TelemetryClient.ResumeWithToken | clients/flutter/obs_telemetry/lib/src/client.dart:81-85 | takes the token step of the protocol |
| FlutterClient.TelemetryClient.ResumeAfterSend | clients/flutter/obs_telemetry/lib/src/client.dart:85-91 | by status number: none, 429 and 500 or more bring the chunk back, keep the newest `maxQueue` and end the drain; 200 to 299 files it as sent, any other as rejected |
| FlutterClient.TelemetryClient.SettleDrain | clients/flutter/obs_telemetry/lib/src/client.dart:77 | releases the drain |
| FlutterClient.TelemetryClient.EnqueueEvent | clients/flutter/obs_telemetry/lib/src/client.dart:41-58 | the pruned map suppresses exactly what the unbounded record of last acceptances would; an accepted event is queued, and the call raises exactly when `maxQueue` is negative |
| RateLimit.AnyWindowBounded | gateway/src/obs_gateway/ingest.py:115-127 | no closed window of 60 seconds holds more than the limit of accepted requests of one client |
| RateLimit.LimitedExactly | gateway/src/obs_gateway/ingest.py:122-127 | a client is limited exactly when `limit` or more of its accepted requests lie at most 60 seconds back |
| RateLimit.CountFresh | gateway/src/obs_gateway/ingest.py:121-124 | the window count over the full history is what remains after dropping a stale prefix |
| RateLimit.ForgetExpired | gateway/src/obs_gateway/ingest.py:117-120 | deleting a client whose last request is out of the window leaves the deques standing for the same history |
| RateLimit.RateLimiter.PruneClients | gateway/src/obs_gateway/ingest.py:117-120 | removes exactly the clients without a request in the window and changes no answer |
| RateLimit.RateLimiter.Fresh | gateway/src/obs_gateway/ingest.py:121-124 | the deque's length is the window count of the full history |
| RateLimit.RateLimiter.RateLimited | gateway/src/obs_gateway/ingest.py:115-127 | answers yes exactly when `limit` or more accepted requests of the client lie at most 60 seconds back, however the deques were pruned, and records exactly the accepted ones |
| GatewayDedupe.ExpectedExactly | gateway/src/obs_gateway/ingest.py:140-142 | the unbounded record says duplicate exactly when the signature was presented less than one window earlier |
| GatewayDedupe.SlipsExactly | gateway/src/obs_gateway/ingest.py:130-142 | over every run an answer is wrong exactly when it should have been duplicate and the map overflowed since the last presentation of this signature, this call included |
| GatewayDedupe.OverflowExactly | gateway/src/obs_gateway/ingest.py:132-139 | the map overflows at a call exactly when more signatures than it may hold were last presented within the window and after the last overflow |
| GatewayDedupe.RunWithin | gateway/src/obs_gateway/ingest.py:130-142 | over every run the map is part of the unbounded one, has at most one entry more than the limit, and no answer is a false positive |
| GatewayDedupe.OverflowIsDense | gateway/src/obs_gateway/ingest.py:136-139 | an overflow needs more than the limit of distinct signatures in one window |
| GatewayDedupe.SparseRunsExact | gateway/src/obs_gateway/ingest.py:130-142 | if no closed window holds more than the limit of distinct signatures, the map never overflows and every answer of the run is the unbounded map's |
| GatewayDedupe.DenseRunSlips | gateway/src/obs_gateway/ingest.py:136-139 | for every limit runs in which a duplicate slips through, at the call that clears the map and at a later one |
| GatewayDedupe.Deduper.IsDuplicate | gateway/src/obs_gateway/ingest.py:130-142 | the in-place pruning, clearing and refresh answer yes exactly when the signature was presented within the window and the map has not overflowed since |
| Ingest.BatchFilteredIdeally | gateway/src/obs_gateway/ingest.py:187-191 | under that condition a batch is filtered exactly as by an unbounded record |
| Ingest.HandleIngest | gateway/src/obs_gateway/ingest.py:176-224 | a limited request changes nothing and gets 429; otherwise exactly the non-duplicates are emitted, over all requests so far those an unbounded record lets through if no window is too dense, and mirrored while the fallback is active |
| Exchange.Answer | gateway/src/obs_gateway/ingest.py:182-184 | the handler and the client together: a rate limited request changes nothing at the gateway and its chunk goes back in front of the client's queue; an accepted one is presented and filed as sent |
| BodyLimit.SplitIndependent | gateway/src/obs_gateway/main.py:44-66 | the application is handed at most the limit and reads the whole body exactly when it is within the limit, however it is split |
| BodyLimit.ClientRequestsPass | gateway/src/obs_gateway/config.py:149-151 | every request a React client has in flight in any reachable state passes the default body and batch limits |
| BodyLimit.BodyPassesExactly | clients/flutter/obs_telemetry/lib/src/client.dart:83-107 | a body without a byte budget passes the default limit exactly when its running count does, and always with at most 99 events |
| BodyLimit.FullBatchExceeds | clients/flutter/obs_telemetry/lib/src/client.dart:28 | 100 events at the event limit exceed the body limit by 112 bytes |
| BodyLimit.LimitedReceive.Receive | gateway/src/obs_gateway/main.py:57-64 | counts body bytes and raises exactly when they exceed the limit |
| BodyLimit.LimitedReceive.ReadAll | gateway/src/obs_gateway/main.py:55-66 | reading everything succeeds exactly when the total is within the limit |
| Stack.LogReplays | gateway/src/obs_gateway/stack.py:114-144 | after any run of sweeps the log alone gives every component's health and the fallback state, and each component's records alternate, unhealthy first |
| Stack.SweepConsistent | gateway/src/obs_gateway/stack.py:119-128 | a sweep appends exactly the flips, so replaying the log still gives the current health |
| Stack.SweepTellsFallback | gateway/src/obs_gateway/stack.py:99-105 | after every sweep the newest record carries the current fallback state |
| Stack.FallbackFromLog | gateway/src/obs_gateway/stack.py:99-105 | the fallback is active exactly when the log says that some trigger component is down |
| Stack.ObservedExactly | gateway/src/obs_gateway/stack.py:120-122 | a sweep leaves exactly its results for the probed components and the rest as it was |
| Stack.SweepNotes | gateway/src/obs_gateway/stack.py:124-144 | a sweep appends one record for every result that flips, in order, with its detail, the previous detail and the fallback state, and no other |
| Stack.StackMonitor.CheckOnce | gateway/src/obs_gateway/stack.py:114-129 | the two loops of a sweep keep the log replaying to the current health; every new record carries the fallback state of the fully updated map |
| Stack.StackMonitor.RecordTransition | gateway/src/obs_gateway/stack.py:131-144 | appends one record with the current fallback state |
| Stack.StackMonitor.Snapshot | gateway/src/obs_gateway/stack.py:154-167 | degraded exactly when the log says some known component is down; the fallback is active exactly when the newest record says so, and exactly when the log says some trigger component is down |
| Emitter.SizedTotal | gateway/src/obs_gateway/emit.py:63-79 | at most 33 services, the extra one only ever the fallback |
| Emitter.StepBounded | gateway/src/obs_gateway/emit.py:63-79 | every request keeps at most 32 app services, and providers and loggers under the same keys |
| Emitter.ExceedsExactly | gateway/src/obs_gateway/emit.py:63-79 | the documented 32 is exceeded exactly by one more app on a full table without the fallback |
| Emitter.OneMoreThanDocumented | gateway/src/obs_gateway/emit.py:44-79 | a run of 33 apps that ends with 33 loggers |
| Emitter.RoutedExactly | gateway/src/obs_gateway/emit.py:63-79 | over every run an app is answered with its own service exactly when that is among the first 32 different services requested whose provider could be made, and with the fallback otherwise |
| Emitter.StableRouting | gateway/src/obs_gateway/emit.py:63-79 | between shutdowns an app once answered always gets the same logger, that of its own service if it came early enough and else that of the fallback |
| Emitter.RoutedByName | gateway/src/obs_gateway/emit.py:63-79 | by name: an app is filed under `frontend/` and its name if its service was among the first 32, and under `frontend` otherwise or without an app |
| Emitter.NamesDistinct | gateway/src/obs_gateway/emit.py:64 | different services have different names |
| Emitter.Emitter.LoggerFor | gateway/src/obs_gateway/emit.py:63-79 | answers and updates the table as specified; a failing provider stores nothing |
| Emitter.Emitter.Shutdown | gateway/src/obs_gateway/emit.py:113-118 | stops every provider and empties the table |
| TraceIds.PrintShape | clients/react/obs-telemetry/src/trace.ts:17 | two hex digits per byte, all zero only for the all-zero buffer |
| TraceIds.PrintInjective | clients/react/obs-telemetry/src/trace.ts:17 | distinct buffers print distinct ids |
| TraceIds.IdRoundTrip | gateway/src/obs_gateway/emit.py:100-101 | the printed id passes both checks unchanged, parses to the buffer's big-endian value, nonzero and in range, and prints back to itself (W3C Trace Context sections 3.2.2.3 and 3.2.2.4) |
| TraceIds.RandomHex | clients/react/obs-telemetry/src/trace.ts:12-18 | returns the print of the first draw that is not all zero, a valid id |
| EndToEnd.Provenance | clients/react/obs-telemetry/src/client.ts:90-178 | every event of a request in flight was enqueued with exactly its text |
| EndToEnd.BodyAcceptedExactly | gateway/src/obs_gateway/ingest.py:96-106 | the gateway accepts a request exactly when it has at most 100 events and every one is accepted, and then decodes them in order, one per item |
| EndToEnd.ReactEndToEnd | gateway/src/obs_gateway/ingest.py:52-106 | in every reachable state of a React client with well-formed events every request passes the body limit, however split, and is decoded and validated event for event |
| EndToEnd.FlutterEndToEnd | clients/flutter/obs_telemetry/lib/src/client.dart:80-125 | in every reachable state of a Flutter client with well-formed events of documented types a request is accepted exactly when the conversion of none of its events separates a pair; it passes the body limit exactly when its running count does |
| OversizedBatch.LargeEventExact | clients/flutter/obs_telemetry/lib/src/models.dart:84-125 | 100 events that are sent unchanged in exactly 16384 bytes each |
| OversizedBatch.LargeEventsDiffer | clients/flutter/obs_telemetry/lib/src/models.dart:127-128 | no two of them are duplicates of each other |
| OversizedBatch.OversizedRequest | clients/flutter/obs_telemetry/lib/src/client.dart:80-92 | for every client whose requests can carry 100 events, a run that ends with one request of these 100, over the body limit |
| OversizedBatch.FlutterFitsExactly | clients/flutter/obs_telemetry/lib/src/client.dart:28-64 | over all runs no request of a Flutter client exceeds the body limit exactly when its batch size or its queue bound is at most 99 |
| RefusedBatch.OneSpoilsTheRest | clients/flutter/obs_telemetry/lib/src/client.dart:105-130 | a run in which an acceptable event shares a request with one that was cut inside a pair: the gateway refuses the request and the client drops both |

## Left out

- HTTP, `fetch`, `sendBeacon`, abort timers, httpx and FastAPI: a send is an outcome, a probe a health result, and a body a text and a list of message sizes.
- Inputs outside the TypeScript and Dart types, such as a context value whose string conversion throws, and a `fetch` that calls back into the client synchronously.
- FlutterClient.TelemetryClient.EnqueueEvent: fixes an event's JSON when it is queued, while the source converts at send time; the two agree as long as the caller does not change the context map it passed in.
- JSON beyond the compact form the clients write (white space, other value types, repeated names), and the UTF-8 encoding and decoding of the text. That a string with a lone surrogate is rejected is an assumption about Pydantic, made in `Decoding.DecodeEvent`.
- A retry bound and an order of delivery for runs in which the token provider re-enters: conservation, bounds and sizes hold there too, but several drains may then fail and overtake each other.
- `toLowerCase`, `str.lower` and similar outside ASCII: no other character lowers into the tested alphabets.
- Non-integer batch sizes and queue bounds.
- FIFO order in runs with `flushOnUnload`: replies may put a chunk back behind newer events, so only conservation, bounds and sizes are claimed there.
- Floating-point rounding of the gateway's clock differences; times are reals.
- `_client_ip`, JWT verification and the SHA-256 signature: clients and signatures are opaque keys.
- OpenTelemetry providers, batching and export, and the rotating files and their errors: only the routing table and an append-only log are kept.
- `authz.py`, `auth.py`, `health.py`, `metrics.py`, environment parsing, UI handlers, the demo app and deployment configuration.
