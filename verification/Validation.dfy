/** What the gateway's validators let through and what they refuse (ingest.py), rule by
    rule, and what the emitter may rely on in an event that got through. */
module Validation {
  import opened Wrappers
  import opened Utf16
  import opened Json
  import opened IngestModels
  import opened Contract
  import opened Decoding
  import FM = FlutterModels
  import TraceIds
  import Wire

  // ---- normalizing -------------------------------------------------------------

  predicate Spaces(s: Str) { forall k :: 0 <= k < |s| ==> Space(s[k]) }

  /** `strip` removes exactly the white space at both ends. */
  predicate Strips(s: Str, t: Str)
  {
    && (t == [] || (!Space(t[0]) && !Space(t[|t| - 1])))
    && exists i, j :: 0 <= i <= j <= |s| && s[i..j] == t && Spaces(s[..i]) && Spaces(s[j..])
  }

  lemma {:induction false} StripLeftExact(s: Str) returns (i: nat)
    ensures i <= |s| && StripLeft(s) == s[i..] && Spaces(s[..i]) && (i < |s| ==> !Space(s[i]))
  {
    if s != [] && Space(s[0]) {
      i := StripLeftExact(s[1..]);
      assert s[1..][..i] == s[1..i + 1] && s[..i + 1] == [s[0]] + s[1..i + 1];
      i := i + 1;
    } else {
      i := 0;
    }
  }

  lemma {:induction false} StripRightExact(s: Str) returns (j: nat)
    ensures j <= |s| && StripRight(s) == s[..j] && Spaces(s[j..]) && (j > 0 ==> !Space(s[j - 1]))
  {
    var n := |s| - 1;
    if s != [] && Space(s[n]) {
      var t := s[..n];
      j := StripRightExact(t);
      hide Space;
      assert t[..j] == s[..j] && s[j..] == t[j..] + [s[n]];
      assert j > 0 ==> t[j - 1] == s[j - 1];
    } else {
      j := |s|;
      assert s[..j] == s && s[j..] == [];
    }
  }

  lemma StripExact(s: Str)
    ensures Strips(s, Strip(s))
  {
    var i := StripLeftExact(s);
    var j := StripRightExact(s[i..]);
    hide StripLeft, StripRight, Space;
    assert s[i..][..j] == s[i..i + j] && s[i..][j..] == s[i + j..];
    if j > 0 { assert s[i..][j - 1] == s[i + j - 1] && s[i..i + j][0] == s[i]; }
  }

  /** `lower` makes small letters of the capitals, so ids and levels may be written in
      either case. */
  lemma LowerExact(s: Str, length: nat)
    ensures Wire.HexId(Lower(s), length) <==> Wire.AnyCaseId(s, length)
    ensures |Lower(s)| == |s|
    ensures forall i :: 0 <= i < |s| ==>
              Lower(s)[i] == if 'A' as int <= s[i] <= 'Z' as int then s[i] - 'A' as int + 'a' as int else s[i]
  {
    var t := Lower(s);
    assert forall i :: 0 <= i < |s| ==> (HexUnit(t[i]) <==> Wire.AnyCaseHex(s[i]));
    assert forall i :: 0 <= i < |s| ==> (t[i] == 0x30 <==> s[i] == 0x30);
  }

  // ---- the rules ---------------------------------------------------------------

  /** Every field rule of an event, on the fields as they arrive. */
  predicate RulesMet(raw: RawEvent)
  {
    && (raw.kind.Some? ==> raw.kind.value in [Py("log"), Py("error"), Py("event"), Py("perf")])
    && (raw.level.Some? ==>
          Lower(Strip(raw.level.value)) in [Py("trace"), Py("debug"), Py("info"), Py("warn"), Py("warning"),
                                            Py("error"), Py("fatal"), Py("critical")])
    && (raw.message.Some? ==> |raw.message.value| <= 2000) && (raw.error.Some? ==> |raw.error.value| <= 2000)
    && (raw.stack.Some? ==> |raw.stack.value| <= 8000) && (raw.url.Some? ==> |raw.url.value| <= 2000)
    && (raw.app.Some? ==>
          0 < |raw.app.value| <= 64 && forall i :: 0 <= i < |raw.app.value| ==> AppChar(raw.app.value[i]))
    && (raw.appVersion.Some? ==> |raw.appVersion.value| <= 64)
    && (raw.traceId.Some? ==> Wire.HexId(Lower(Strip(raw.traceId.value)), 32))
    && (raw.spanId.Some? ==> Wire.HexId(Lower(Strip(raw.spanId.value)), 16))
    && (raw.context.Some? ==>
          |raw.context.value| <= 32 &&
          forall e :: e in raw.context.value ==> 1 <= |e.0| <= 128 && |e.1| <= 1024)
  }

  /** An event is let through by some size limit exactly when it meets every field rule, on
      the fields as they arrive. */
  lemma RulesExactly(raw: RawEvent)
    ensures (exists s: Settings :: Validate(raw, s).Some?) <==> RulesMet(raw)
  {
    FieldsExactly(raw);
    SizeApart(raw);
    hide FieldsAccepted, RulesMet, Validate;
  }

  lemma FieldsExactly(raw: RawEvent)
    ensures FieldsAccepted(raw) <==> RulesMet(raw)
  {
    IdRule(raw.traceId, 32);
    IdRule(raw.spanId, 16);
    NameRules(raw);
    hide HexId, IdAccepted, Wire.HexId, Strip, Lower, Py, EventType, Severity, AppChar;
    hide Within, AppAccepted, ContextAccepted, GetOr;
    WithinRule(raw.message, 2000);
    WithinRule(raw.error, 2000);
    WithinRule(raw.stack, 8000);
    WithinRule(raw.url, 2000);
    WithinRule(raw.appVersion, 64);
    AppRule(raw.app);
    ContextRule(raw.context);
  }

  lemma WithinRule(value: Option<Str>, max: nat)
    ensures Within(value, max) <==> (value.Some? ==> |value.value| <= max)
  {
  }

  lemma AppRule(app: Option<Str>)
    ensures AppAccepted(app) <==>
              (app.Some? ==> 0 < |app.value| <= 64 && forall i :: 0 <= i < |app.value| ==> AppChar(app.value[i]))
  {
  }

  lemma ContextRule(context: Option<seq<(Str, Str)>>)
    ensures ContextAccepted(GetOr(context, [])) <==>
              (context.Some? ==>
                 |context.value| <= 32 && forall e :: e in context.value ==> 1 <= |e.0| <= 128 && |e.1| <= 1024)
  {
  }

  lemma NameRules(raw: RawEvent)
    ensures EventType(GetOr(raw.kind, Py("log"))) <==>
              (raw.kind.Some? ==> raw.kind.value in [Py("log"), Py("error"), Py("event"), Py("perf")])
    ensures Severity(Lower(Strip(GetOr(raw.level, Py("info"))))) <==>
              (raw.level.Some? ==>
                 Lower(Strip(raw.level.value)) in [Py("trace"), Py("debug"), Py("info"), Py("warn"), Py("warning"),
                                                   Py("error"), Py("fatal"), Py("critical")])
  {
    DefaultLevel();
    hide Strip, Lower, Py;
  }

  lemma SizeApart(raw: RawEvent)
    ensures FieldsAccepted(raw) <==> exists s: Settings :: Validate(raw, s).Some?
  {
    hide DumpBytes, Normalized, FieldsAccepted;
    var n := DumpBytes(Normalized(raw));
    if FieldsAccepted(raw) { assert Validate(raw, Settings(n, 0)).Some?; }
  }

  lemma DefaultLevel()
    ensures Lower(Strip(Py("info"))) == Py("info")
  {
    WordDecodes("info");
  }

  lemma IdRule(value: Option<Str>, length: nat)
    requires length > 0
    ensures IdAccepted(value, length) <==> (value.Some? ==> Wire.HexId(Lower(Strip(value.value)), length))
    ensures IdAccepted(value, length) && value.Some? ==>
              IdValue(value, length) == Some(Lower(Strip(value.value)))
  {
    hide Lower, Strip;
  }

  /** The size rule, apart from all others: of two settings, the stricter one refuses the
      same event exactly if its size without defaults is over the limit. */
  lemma SizeRefused(raw: RawEvent, large: Settings, small: Settings)
    requires Validate(raw, large).Some?
    ensures var e := Validate(raw, large).value;
            Validate(raw, small) == if DumpBytes(e) <= small.maxEventBytes then Some(e) else None
  {
    hide DumpBytes, Normalized, FieldsAccepted;
  }

  /** An event that got through has only valid fields, and they are those that arrived,
      the level and the ids normalized and the defaults filled in. */
  lemma ValidatedSound(raw: RawEvent, s: Settings)
    requires Validate(raw, s).Some?
    ensures var e := Validate(raw, s).value;
            && e.kind in [Py("log"), Py("error"), Py("event"), Py("perf")]
            && e.level in [Py("trace"), Py("debug"), Py("info"), Py("warn"), Py("warning"), Py("error"), Py("fatal"),
                           Py("critical")]
            && |e.message| <= 2000 && (e.error.Some? ==> |e.error.value| <= 2000)
            && (e.stack.Some? ==> |e.stack.value| <= 8000) && (e.url.Some? ==> |e.url.value| <= 2000)
            && (e.app.Some? ==>
                  0 < |e.app.value| <= 64 && forall i :: 0 <= i < |e.app.value| ==> AppChar(e.app.value[i]))
            && (e.appVersion.Some? ==> |e.appVersion.value| <= 64)
            && (e.traceId.Some? ==> Wire.HexId(e.traceId.value, 32))
            && (e.spanId.Some? ==> Wire.HexId(e.spanId.value, 16))
            && |e.context| <= 32 && (forall x :: x in e.context ==> 1 <= |x.0| <= 128 && |x.1| <= 1024)
            && DumpBytes(e) <= s.maxEventBytes
    ensures var e := Validate(raw, s).value;
            && e.kind == (if raw.kind.Some? then raw.kind.value else Py("log"))
            && e.level == (if raw.level.Some? then Lower(Strip(raw.level.value)) else Py("info"))
            && e.message == (if raw.message.Some? then raw.message.value else [])
            && e.error == raw.error && e.stack == raw.stack && e.url == raw.url && e.app == raw.app
            && e.appVersion == raw.appVersion
            && e.traceId.Some? == raw.traceId.Some? && e.spanId.Some? == raw.spanId.Some?
            && (raw.traceId.Some? ==> e.traceId.value == Lower(Strip(raw.traceId.value)))
            && (raw.spanId.Some? ==> e.spanId.value == Lower(Strip(raw.spanId.value)))
            && e.context == (if raw.context.Some? then raw.context.value else [])
  {
    IdRule(raw.traceId, 32);
    IdRule(raw.spanId, 16);
    DefaultLevel();
    hide DumpBytes, HexId, Wire.HexId, Strip, Lower, Py;
  }

  /** The alphabet of app names is the same on both sides. */
  lemma AlphabetsAgree(u: int)
    ensures Wire.AppChar(u) <==> AppChar(u)
    ensures AppChar(u) <==>
              || 'A' as int <= u <= 'Z' as int || 'a' as int <= u <= 'z' as int || '0' as int <= u <= '9' as int
              || u == '.' as int || u == '_' as int || u == '-' as int
  {
    assert u in [0x2E, 0x5F, 0x2D] <==> u == 0x2E || u == 0x5F || u == 0x2D;
  }

  // ---- for the emitter ---------------------------------------------------------

  lemma {:induction false} HexParses(s: Str)
    requires forall i :: 0 <= i < |s| ==> HexUnit(s[i])
    ensures TraceIds.ParseHex(s) < TraceIds.Power(16, |s|)
    ensures (exists i :: 0 <= i < |s| && s[i] != 0x30) ==> TraceIds.ParseHex(s) > 0
    decreases |s|
  {
    if s == [] {
    } else {
      var n := |s| - 1;
      HexParses(s[..n]);
      assert TraceIds.Power(16, |s|) == 16 * TraceIds.Power(16, n);
      if i :| 0 <= i < |s| && s[i] != 0x30 {
        if i < n { assert s[..n][i] == s[i]; }
      }
    }
  }

  /** The ids of a validated event are parsed by `emit` to nonzero integers of 128 and 64
      bits, so they identify a trace and a span. */
  lemma IdsParse(raw: RawEvent, s: Settings)
    requires Validate(raw, s).Some?
    ensures var e := Validate(raw, s).value;
            && (e.traceId.Some? ==>
                  && (forall i :: 0 <= i < |e.traceId.value| ==> HexUnit(e.traceId.value[i]))
                  && 0 < TraceIds.ParseHex(e.traceId.value) < TraceIds.Power(16, 32))
            && (e.spanId.Some? ==>
                  && (forall i :: 0 <= i < |e.spanId.value| ==> HexUnit(e.spanId.value[i]))
                  && 0 < TraceIds.ParseHex(e.spanId.value) < TraceIds.Power(16, 16))
  {
    ValidatedSound(raw, s);
    hide Validate, TraceIds.Power, TraceIds.ParseHex, Py;
    var e := Validate(raw, s).value;
    if e.traceId.Some? { HexParses(e.traceId.value); }
    if e.spanId.Some? { HexParses(e.spanId.value); }
  }

  // ---- the measured size -------------------------------------------------------

  /** A member that holds its field's default. */
  predicate IsDefault(m: Member)
  {
    || m == (Lit("type"), Str(Lit("log"))) || m == (Lit("level"), Str(Lit("info")))
    || m == (Lit("message"), Str([])) || m == (Lit("context"), Map([]))
  }

  function WithoutDefaults(ms: seq<Member>): seq<Member>
  {
    if ms == [] then [] else (if IsDefault(ms[0]) then [] else [ms[0]]) + WithoutDefaults(ms[1..])
  }

  /** The cost of what is left. */
  function KeptCost(ms: seq<Member>): nat
  {
    if ms == [] then 0 else (if IsDefault(ms[0]) then 0 else MemberCost(ms[0])) + KeptCost(ms[1..])
  }

  lemma {:induction false} KeptCosts(ms: seq<Member>)
    ensures Cost(WithoutDefaults(ms)) == KeptCost(ms)
    ensures WithoutDefaults(ms) == [] <==> KeptCost(ms) == 0
  {
    hide IsDefault;
    if ms == [] {
    } else {
      KeptCosts(ms[1..]);
      if IsDefault(ms[0]) {
        assert WithoutDefaults(ms) == WithoutDefaults(ms[1..]);
      } else {
        assert WithoutDefaults(ms) == [ms[0]] + WithoutDefaults(ms[1..]);
        assert WithoutDefaults(ms)[1..] == WithoutDefaults(ms[1..]);
      }
    }
  }

  lemma {:induction false} KeptConcat(a: seq<Member>, b: seq<Member>)
    ensures KeptCost(a + b) == KeptCost(a) + KeptCost(b)
  {
    hide IsDefault;
    if a == [] {
      assert a + b == b;
    } else {
      KeptConcat(a[1..], b);
      assert (a + b)[1..] == a[1..] + b;
    }
  }

  /** No optional text is a default. */
  lemma KeptOpt(key: string, value: Option<Text>)
    requires Plain(key) && Lit(key) !in [Lit("type"), Lit("level"), Lit("message"), Lit("context")]
    ensures KeptCost(Wire.Opt(key, value)) == Wire.OptCost(|key|, value)
  {
    PlainBytes(key);
    hide Lit, JsonBytes;
    if value.Some? {
      assert Wire.Opt(key, value)[1..] == [];
    }
  }

  lemma KeptOne(m: Member)
    ensures KeptCost([m]) == if IsDefault(m) then 0 else MemberCost(m)
    ensures Cost([m]) == MemberCost(m)
  {
    hide IsDefault, MemberCost;
    assert [m][1..] == [] && KeptCost([]) == 0;
  }

  lemma ContextDefault(es: Wire.Entries)
    ensures IsDefault((Lit("context"), Map(es))) <==> es == []
  {
    hide Lit;
  }

  lemma KeptContext(context: Option<Wire.Entries>)
    ensures KeptCost(Wire.OptContext(context)) ==
              if context.None? || context.value == [] then 0 else 12 + EntryCost(context.value)
  {
    hide Lit, JsonBytes, EntryCost, KeptCost, IsDefault, MemberCost, Cost;
    Wire.ContextCosts(context);
    if context.Some? {
      ContextDefault(context.value);
      KeptOne((Lit("context"), Map(context.value)));
    } else {
      KeptNothing();
    }
  }

  lemma KeptNothing()
    ensures KeptCost([]) == 0
  {
  }

  lemma KeptText(key: string, value: Text)
    requires Plain(key)
    ensures var m: Member := (Lit(key), Str(value));
            KeptCost([m]) == if IsDefault(m) then 0 else |key| + 6 + JsonBytes(value)
  {
    PlainBytes(key);
    hide Lit, JsonBytes, IsDefault, KeptCost;
    KeptOne((Lit(key), Str(value)));
  }

  lemma KeptHead(kind: Text, level: Text, message: Text)
    ensures KeptCost([(Lit("type"), Str(kind)), (Lit("level"), Str(level)), (Lit("message"), Str(message))])
         == (if kind == Lit("log") then 0 else 10 + JsonBytes(kind))
            + (if level == Lit("info") then 0 else 11 + JsonBytes(level))
            + (if message == [] then 0 else 13 + JsonBytes(message))
  {
    KeptText("type", kind);
    KeptText("level", level);
    KeptText("message", message);
    Names();
    hide Lit, JsonBytes, KeptCost;
    var a: Member := (Lit("type"), Str(kind));
    var b: Member := (Lit("level"), Str(level));
    var c: Member := (Lit("message"), Str(message));
    assert [a, b, c] == [a] + ([b] + [c]);
    KeptConcat([a], [b] + [c]);
    KeptConcat([b], [c]);
  }

  /** What is left of a wire map's members, in bytes. */
  lemma KeptMembers(j: FM.JsonEvent)
    ensures KeptCost(FM.Members(j))
         == (if j.kind == Lit("log") then 0 else 10 + JsonBytes(j.kind))
            + (if j.level.Name() == Lit("info") then 0 else 11 + JsonBytes(j.level.Name()))
            + (if j.message == [] then 0 else 13 + JsonBytes(j.message))
            + Wire.OptCost(5, j.error) + Wire.OptCost(5, j.stack) + Wire.OptCost(3, j.url) + Wire.OptCost(3, j.app)
            + Wire.OptCost(11, j.appVersion) + Wire.OptCost(8, j.traceId) + Wire.OptCost(7, j.spanId)
            + (if j.context.None? || j.context.value == [] then 0 else 12 + EntryCost(j.context.value))
  {
    Names();
    KeptHead(j.kind, j.level.Name(), j.message);
    hide Lit, JsonBytes, KeptCost, Wire.OptCost;
    var head: seq<Member> :=
      [(Lit("type"), Str(j.kind)), (Lit("level"), Str(j.level.Name())), (Lit("message"), Str(j.message))];
    var c := Wire.OptContext(j.context);
    var s7 := Wire.Opt("span_id", j.spanId) + c;
    var s6 := Wire.Opt("trace_id", j.traceId) + s7;
    var s5 := Wire.Opt("app_version", j.appVersion) + s6;
    var s4 := Wire.Opt("app", j.app) + s5;
    var s3 := Wire.Opt("url", j.url) + s4;
    var s2 := Wire.Opt("stack", j.stack) + s3;
    var s1 := Wire.Opt("error", j.error) + s2;
    KeptConcat(head, s1);
    KeptConcat(Wire.Opt("error", j.error), s2);
    KeptConcat(Wire.Opt("stack", j.stack), s3);
    KeptConcat(Wire.Opt("url", j.url), s4);
    KeptConcat(Wire.Opt("app", j.app), s5);
    KeptConcat(Wire.Opt("app_version", j.appVersion), s6);
    KeptConcat(Wire.Opt("trace_id", j.traceId), s7);
    KeptConcat(Wire.Opt("span_id", j.spanId), c);
    KeptOpt("error", j.error);
    KeptOpt("stack", j.stack);
    KeptOpt("url", j.url);
    KeptOpt("app", j.app);
    KeptOpt("app_version", j.appVersion);
    KeptOpt("trace_id", j.traceId);
    KeptOpt("span_id", j.spanId);
    KeptContext(j.context);
  }

  /** The size that the gateway measures is the exact length of the JSON text of the event
      without the members that hold their defaults. */
  lemma DumpExact(j: FM.JsonEvent)
    requires Capped(j)
    ensures DumpBytes(Normalized(Received(j))) == Utf8Len(Stringify(WithoutDefaults(FM.Members(j))))
  {
    hide Stringify, WithoutDefaults, FM.Members, KeptCost, Cost, Capped, DumpMembers, Normalized, Received;
    StringifyUtf8(WithoutDefaults(FM.Members(j)));
    KeptCosts(FM.Members(j));
    DumpSum(j);
  }

  lemma DumpSum(j: FM.JsonEvent)
    requires Capped(j)
    ensures DumpMembers(Normalized(Received(j))) == KeptCost(FM.Members(j))
  {
    hide Decode, Lit, JsonBytes, StrBytes, Strip, Lower, FieldsAccepted, WellFormed, EntriesBytes, EntryCost, Capped;
    hide Wire.OptCost, OptBytes, IdValue, DecodeOption, DecodeEntries, KeptCost, FM.Members;
    CappedAccepted(j);
    KindKnown(j);
    KindSame(j);
    LevelAccepted(j.level);
    LevelSame(j.level);
    SameFieldBytes(j);
    EmptyMessage(j.message);
    CappedContext(j);
    j.level.NameBytes();
    KeptMembers(j);
  }

  lemma EmptyMessage(message: Text)
    ensures Decode(message) == [] <==> message == []
  {
    DecodeLength(message);
  }

  lemma CappedContext(j: FM.JsonEvent)
    requires Capped(j)
    ensures var es := if j.context.Some? then DecodeEntries(j.context.value) else [];
            && (es == [] <==> j.context.None? || j.context.value == [])
            && (j.context.Some? ==> EntriesBytes(es) == EntryCost(j.context.value))
  {
    hide Wire.EntryWellFormed, Wire.EntryWithin, TextWithin, Wire.HexId;
    SameContext(j.context);
  }

  lemma SameContext(context: Option<Wire.Entries>)
    requires context.Some? ==> forall e :: e in context.value ==> Wire.EntryWellFormed(e)
    ensures var es := if context.Some? then DecodeEntries(context.value) else [];
            && (es == [] <==> context.None? || context.value == [])
            && (context.Some? ==> EntriesBytes(es) == EntryCost(context.value))
  {
    if context.Some? { SameEntryBytes(context.value); }
  }

  lemma KindSame(j: FM.JsonEvent)
    requires Capped(j)
    ensures Decode(j.kind) == j.kind
  {
    hide Decode, Lit, WellFormed, Wire.HexId, TextWithin;
    var k: Wire.EventType :| j.kind == k.Name();
    NameSame(k);
  }

  lemma NameSame(k: Wire.EventType)
    ensures Decode(k.Name()) == k.Name()
  {
    hide Decode, Lit, Strip, Lower, WellFormed;
    WordDecodes("log");
    WordDecodes("error");
    WordDecodes("event");
    WordDecodes("perf");
  }

  lemma LevelSame(l: Wire.Level)
    ensures Decode(l.Name()) == l.Name()
  {
    hide Decode, Lit, Strip, Lower, WellFormed;
    WordDecodes("trace");
    WordDecodes("debug");
    WordDecodes("info");
    WordDecodes("warning");
    WordDecodes("error");
    WordDecodes("critical");
  }
}
