/** The gateway's ingest contract (ingest.py): every field rule of `TelemetryEvent`,
    the whole-event size rule and the batch rule. Python strings are sequences of
    code points, so lengths here count code points, not UTF-16 units. */
module IngestModels {
  import opened Wrappers
  import Json
  import Utf16

  type Str = seq<int>

  const MAX_CONTEXT_ENTRIES := 32

  datatype Settings = Settings(maxEventBytes: nat, maxBatchEvents: nat) {
    function MaxRequestBytes(): nat { maxBatchEvents * maxEventBytes }
  }

  const DEFAULTS := Settings(16384, 100)

  /** An event as decoded from the request body; absent members are `None`. */
  datatype RawEvent = RawEvent(
    kind: Option<Str>, level: Option<Str>, message: Option<Str>, error: Option<Str>, stack: Option<Str>,
    url: Option<Str>, app: Option<Str>, appVersion: Option<Str>, traceId: Option<Str>, spanId: Option<Str>,
    context: Option<seq<(Str, Str)>>)

  /** A validated event. */
  datatype TelemetryEvent = TelemetryEvent(
    kind: Str, level: Str, message: Str, error: Option<Str>, stack: Option<Str>, url: Option<Str>,
    app: Option<Str>, appVersion: Option<Str>, traceId: Option<Str>, spanId: Option<Str>,
    context: seq<(Str, Str)>)

  function Py(s: string): Str { Utf16.Lit(s) }

  // ---- str methods -----------------------------------------------------------

  /** `str.isspace` */
  predicate Space(c: int)
  {
    9 <= c <= 13 || 28 <= c <= 32 || c in [0x85, 0xA0, 0x1680, 0x2028, 0x2029, 0x202F, 0x205F, 0x3000]
    || 0x2000 <= c <= 0x200A
  }

  function StripLeft(s: Str): Str
  {
    if s != [] && Space(s[0]) then StripLeft(s[1..]) else s
  }

  function StripRight(s: Str): Str
  {
    if s != [] && Space(s[|s| - 1]) then StripRight(s[..|s| - 1]) else s
  }

  function Strip(s: Str): Str { StripRight(StripLeft(s)) }

  /** `str.lower`, for the ASCII letters: no other character lowers into the sets
      of characters tested below. */
  function Lower(s: Str): Str
  {
    seq(|s|, i requires 0 <= i < |s| => if 0x41 <= s[i] <= 0x5A then s[i] + 0x20 else s[i])
  }

  lemma NormalizeNoop(s: Str)
    requires s != [] && forall i :: 0 <= i < |s| ==> !Space(s[i]) && !(0x41 <= s[i] <= 0x5A)
    ensures Lower(Strip(s)) == s
  {
  }

  // ---- field validators ------------------------------------------------------

  predicate EventType(s: Str) { s in [Py("log"), Py("error"), Py("event"), Py("perf")] }

  predicate Severity(s: Str)
  {
    s in [Py("trace"), Py("debug"), Py("info"), Py("warn"), Py("warning"), Py("error"), Py("fatal"), Py("critical")]
  }

  function HexId(value: Str, length: nat): Option<Str>
  {
    var v := Lower(Strip(value));
    if |v| != length || (exists i :: 0 <= i < |v| && !Json.HexUnit(v[i])) then None
    else if v != [] && forall i :: 0 <= i < |v| ==> v[i] == 0x30 then None
    else Some(v)
  }

  predicate IdAccepted(value: Option<Str>, length: nat) { value.Some? ==> HexId(value.value, length).Some? }

  function IdValue(value: Option<Str>, length: nat): Option<Str>
  {
    if value.Some? then HexId(value.value, length) else None
  }

  predicate Within(value: Option<Str>, max: nat) { value.Some? ==> |value.value| <= max }

  predicate AppChar(c: int)
  {
    0x30 <= c <= 0x39 || 0x41 <= c <= 0x5A || 0x61 <= c <= 0x7A || c in [0x2E, 0x5F, 0x2D]
  }

  predicate AppAccepted(app: Option<Str>)
  {
    app.Some? ==> 0 < |app.value| <= 64 && forall i :: 0 <= i < |app.value| ==> AppChar(app.value[i])
  }

  predicate ContextAccepted(context: seq<(Str, Str)>)
  {
    |context| <= MAX_CONTEXT_ENTRIES && forall e :: e in context ==> 1 <= |e.0| <= 128 && |e.1| <= 1024
  }

  function GetOr<T>(value: Option<T>, default: T): T { if value.Some? then value.value else default }

  // ---- serialized size without defaults --------------------------------------

  function CharBytes(c: int): nat
  {
    if c in [0x08, 0x09, 0x0A, 0x0C, 0x0D, 0x22, 0x5C] then 2
    else if c < 0x20 then 6
    else if c < 0x80 then 1
    else if c < 0x800 then 2
    else if c < 0x10000 then 3
    else 4
  }

  function StrBytes(s: Str): nat
  {
    if s == [] then 0 else CharBytes(s[0]) + StrBytes(s[1..])
  }

  /** Bytes of a string member (with one separator) whose key has `key` characters. */
  function MemberBytes(key: nat, value: Str): nat { key + 6 + StrBytes(value) }

  function OptBytes(key: nat, value: Option<Str>): nat
  {
    if value.Some? then MemberBytes(key, value.value) else 0
  }

  function EntriesBytes(es: seq<(Str, Str)>): nat
  {
    if es == [] then 0 else StrBytes(es[0].0) + StrBytes(es[0].1) + 6 + EntriesBytes(es[1..])
  }

  /** Bytes of the members that do not hold a default, each with one separator. */
  function DumpMembers(e: TelemetryEvent): nat
  {
    (if e.kind == Py("log") then 0 else MemberBytes(4, e.kind))
    + (if e.level == Py("info") then 0 else MemberBytes(5, e.level))
    + (if e.message == [] then 0 else MemberBytes(7, e.message))
    + OptBytes(5, e.error) + OptBytes(5, e.stack) + OptBytes(3, e.url) + OptBytes(3, e.app)
    + OptBytes(11, e.appVersion) + OptBytes(8, e.traceId) + OptBytes(7, e.spanId)
    + (if e.context == [] then 0 else 12 + EntriesBytes(e.context))
  }

  /** `len(model_dump_json(exclude_defaults=True).encode())` */
  function DumpBytes(e: TelemetryEvent): nat
  {
    if DumpMembers(e) == 0 then 2 else 1 + DumpMembers(e)
  }

  // ---- validation ------------------------------------------------------------

  predicate FieldsAccepted(raw: RawEvent)
  {
    && EventType(GetOr(raw.kind, Py("log")))
    && Severity(Lower(Strip(GetOr(raw.level, Py("info")))))
    && Within(raw.message, 2000) && Within(raw.error, 2000) && Within(raw.stack, 8000) && Within(raw.url, 2000)
    && AppAccepted(raw.app) && Within(raw.appVersion, 64)
    && IdAccepted(raw.traceId, 32) && IdAccepted(raw.spanId, 16)
    && ContextAccepted(GetOr(raw.context, []))
  }

  function Normalized(raw: RawEvent): TelemetryEvent
  {
    TelemetryEvent(
      GetOr(raw.kind, Py("log")), Lower(Strip(GetOr(raw.level, Py("info")))), GetOr(raw.message, []),
      raw.error, raw.stack, raw.url, raw.app, raw.appVersion, IdValue(raw.traceId, 32), IdValue(raw.spanId, 16),
      GetOr(raw.context, []))
  }

  /** The event the handler sees, or `None` where the request is rejected with 422. */
  function Validate(raw: RawEvent, settings: Settings): Option<TelemetryEvent>
  {
    if FieldsAccepted(raw) && DumpBytes(Normalized(raw)) <= settings.maxEventBytes
    then Some(Normalized(raw)) else None
  }

  predicate BatchAccepted(events: seq<RawEvent>, settings: Settings)
  {
    |events| <= settings.maxBatchEvents && forall e :: e in events ==> Validate(e, settings).Some?
  }
}
