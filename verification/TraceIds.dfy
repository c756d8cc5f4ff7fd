/** Trace and span ids from the client's random bytes (trace.ts) to the integers of
    the emitted record (emit.py). */
module TraceIds {
  import opened Wrappers
  import opened Utf16
  import opened Json
  import Wire
  import IngestModels

  type Byte = b: int | 0 <= b < 256

  /** `b.toString(16)` */
  function ToHex(b: nat): Text
    requires b < 256
  {
    if b < 16 then [HexDigit(b)] else [HexDigit(b / 16), HexDigit(b % 16)]
  }

  /** `padStart(2, '0')` */
  function PadStart(s: Text): Text { if |s| < 2 then seq(2 - |s|, _ => 0x30) + s else s }

  /** The printed id of a byte buffer. */
  function Print(buf: seq<Byte>): Text
  {
    if buf == [] then [] else PadStart(ToHex(buf[0])) + Print(buf[1..])
  }

  predicate AllZero(buf: seq<Byte>) { forall i :: 0 <= i < |buf| ==> buf[i] == 0 }

  function BigEndian(buf: seq<Byte>): nat
  {
    if buf == [] then 0 else BigEndian(buf[..|buf| - 1]) * 256 + buf[|buf| - 1]
  }

  function Power(base: nat, n: nat): nat { if n == 0 then 1 else base * Power(base, n - 1) }

  /** `int(s, 16)` */
  function ParseHex(s: seq<int>): nat
    requires forall i :: 0 <= i < |s| ==> HexUnit(s[i])
  {
    if s == [] then 0 else ParseHex(s[..|s| - 1]) * 16 + HexOf(s[|s| - 1])
  }

  /** The fixed-width lowercase hexadecimal print of a number. */
  function FixedHex(v: nat, width: nat): Text
  {
    if width == 0 then [] else FixedHex(v / 16, width - 1) + [HexDigit(v % 16)]
  }

  // ---- printing ----------------------------------------------------------------

  lemma ByteText(b: Byte)
    ensures PadStart(ToHex(b)) == [HexDigit(b / 16), HexDigit(b % 16)]
  {
    if b < 16 {
      assert b / 16 == 0 && b % 16 == b;
    }
  }

  lemma {:induction false} PrintConcat(a: seq<Byte>, b: Byte)
    ensures Print(a + [b]) == Print(a) + [HexDigit(b / 16), HexDigit(b % 16)]
  {
    ByteText(b);
    if a == [] {
      assert a + [b] == [b] && [b][1..] == [];
      assert Print([b]) == PadStart(ToHex(b)) + Print([]);
    } else {
      assert (a + [b])[1..] == a[1..] + [b];
      PrintConcat(a[1..], b);
    }
  }

  /** Two hexadecimal digits per byte, all zero only for the all-zero buffer. */
  lemma {:induction false} PrintShape(buf: seq<Byte>)
    ensures |Print(buf)| == 2 * |buf|
    ensures forall i :: 0 <= i < |Print(buf)| ==> HexUnit(Print(buf)[i])
    ensures AllZero(buf) <==> forall i :: 0 <= i < |Print(buf)| ==> Print(buf)[i] == 0x30
    decreases |buf|
  {
    if buf == [] {
    } else {
      var a, b := buf[..|buf| - 1], buf[|buf| - 1];
      assert buf == a + [b];
      PrintConcat(a, b);
      PrintShape(a);
      var p := Print(a);
      assert Print(buf) == p + [HexDigit(b / 16), HexDigit(b % 16)];
      assert Print(buf)[|p|] == HexDigit(b / 16) && Print(buf)[|p| + 1] == HexDigit(b % 16);
      assert forall i :: 0 <= i < |p| ==> Print(buf)[i] == p[i];
      assert b == 0 <==> b / 16 == 0 && b % 16 == 0;
      assert forall i :: 0 <= i < |a| ==> buf[i] == a[i];
    }
  }

  // ---- parsing back ------------------------------------------------------------

  lemma {:induction false} ParsePrint(buf: seq<Byte>)
    requires forall i :: 0 <= i < |Print(buf)| ==> HexUnit(Print(buf)[i])
    ensures ParseHex(Print(buf)) == BigEndian(buf)
    decreases |buf|
  {
    if buf == [] {
    } else {
      var a, b := buf[..|buf| - 1], buf[|buf| - 1];
      assert buf == a + [b];
      PrintConcat(a, b);
      PrintShape(a);
      ParsePrint(a);
      var p := Print(a);
      var q := p + [HexDigit(b / 16)];
      assert Print(buf) == q + [HexDigit(b % 16)];
      assert Print(buf)[..|Print(buf)| - 1] == q && q[..|q| - 1] == p;
      hide Print, BigEndian;
      assert ParseHex(q) == ParseHex(p) * 16 + b / 16;
    }
  }

  lemma {:induction false} BigEndianRange(buf: seq<Byte>)
    ensures BigEndian(buf) < Power(256, |buf|)
    ensures BigEndian(buf) == 0 <==> AllZero(buf)
    decreases |buf|
  {
    if buf == [] {
    } else {
      var a, b := buf[..|buf| - 1], buf[|buf| - 1];
      BigEndianRange(a);
      assert BigEndian(a) * 256 + b < Power(256, |a|) * 256;
      assert forall i :: 0 <= i < |a| ==> buf[i] == a[i];
      if AllZero(a) && b == 0 {
        forall i | 0 <= i < |buf| ensures buf[i] == 0 { if i < |a| { assert a[i] == 0; } }
      }
    }
  }

  lemma {:induction false} FixedHexOfValue(buf: seq<Byte>)
    ensures FixedHex(BigEndian(buf), 2 * |buf|) == Print(buf)
    decreases |buf|
  {
    if buf == [] {
    } else {
      var a, b := buf[..|buf| - 1], buf[|buf| - 1];
      assert buf == a + [b];
      FixedHexOfValue(a);
      PrintConcat(a, b);
      var v := BigEndian(buf);
      assert v == BigEndian(a) * 256 + b;
      FixedHexTwo(v, 2 * |a|);
      hide Print, BigEndian, FixedHex;
      TwoDigits(v, BigEndian(a), b);
    }
  }

  lemma TwoDigits(v: nat, high: nat, b: Byte)
    requires v == high * 256 + b
    ensures v % 16 == b % 16 && v / 16 % 16 == b / 16 && v / 16 / 16 == high
  {
    assert v / 16 == high * 16 + b / 16;
  }

  lemma FixedHexTwo(v: nat, width: nat)
    ensures FixedHex(v, width + 2) == FixedHex(v / 16 / 16, width) + [HexDigit(v / 16 % 16), HexDigit(v % 16)]
  {
    assert FixedHex(v, width + 2) == FixedHex(v / 16, width + 1) + [HexDigit(v % 16)];
  }

  /** From random bytes to the emitted record: the printed id of a buffer that is not
      all zero passes the client's and the gateway's checks unchanged, the integer
      the gateway parses is the buffer's big-endian value, nonzero and in range, and
      printing that integer at full width gives the id back. */
  lemma IdRoundTrip(buf: seq<Byte>)
    requires buf != [] && !AllZero(buf)
    ensures var id := Print(buf);
            && Wire.HexId(id, 2 * |buf|) && Wire.ValidId(Some(id), 2 * |buf|) == Some(id)
            && IngestModels.HexId(Decode(id), 2 * |buf|) == Some(id)
            && (forall i :: 0 <= i < |id| ==> HexUnit(id[i]))
            && 0 < ParseHex(id) == BigEndian(buf) < Power(256, |buf|)
            && FixedHex(ParseHex(id), 2 * |buf|) == id
  {
    hide Print, BigEndian, ParseHex, FixedHex, Power, AllZero, Wire.HexId, Wire.ValidId, IngestModels.HexId, Decode;
    PrintShape(buf);
    PrintAccepted(buf);
    ParsePrint(buf);
    BigEndianRange(buf);
    FixedHexOfValue(buf);
  }

  lemma PrintAccepted(buf: seq<Byte>)
    requires buf != [] && !AllZero(buf)
    ensures Wire.HexId(Print(buf), 2 * |buf|)
    ensures IngestModels.HexId(Decode(Print(buf)), 2 * |buf|) == Some(Print(buf))
  {
    PrintShape(buf);
    var id := Print(buf);
    hide Print, AllZero, Decode;
    DecodeAscii(id);
    IngestModels.NormalizeNoop(id);
    hide IngestModels.Strip, IngestModels.Lower;
  }

  /** Distinct buffers print distinct ids. */
  lemma PrintFirst(a: seq<Byte>)
    requires a != []
    ensures |Print(a)| >= 2 && Print(a)[0] == HexDigit(a[0] / 16) && Print(a)[1] == HexDigit(a[0] % 16)
    ensures Print(a)[2..] == Print(a[1..])
  {
    ByteText(a[0]);
  }

  lemma SameByte(a: Byte, b: Byte)
    ensures HexDigit(a / 16) == HexDigit(b / 16) && HexDigit(a % 16) == HexDigit(b % 16) ==> a == b
  {
  }

  lemma {:induction false} PrintInjective(a: seq<Byte>, b: seq<Byte>)
    requires Print(a) == Print(b)
    ensures a == b
  {
    PrintShape(a);
    PrintShape(b);
    if a == [] {
    } else {
      PrintFirst(a);
      PrintFirst(b);
      hide Print;
      SameByte(a[0], b[0]);
      PrintInjective(a[1..], b[1..]);
      assert a == [a[0]] + a[1..] && b == [b[0]] + b[1..];
    }
  }

  /** `randomHex`: draw until the buffer is not all zero. The draws are an input, and
      one of them has to be usable, as the source otherwise never returns. */
  method RandomHex(draws: seq<seq<Byte>>, bytes: nat) returns (hex: Text)
    requires forall i :: 0 <= i < |draws| ==> |draws[i]| == bytes
    requires bytes > 0 && exists i :: 0 <= i < |draws| && !AllZero(draws[i])
    ensures Wire.HexId(hex, 2 * bytes)
    ensures exists i :: 0 <= i < |draws| && hex == Print(draws[i]) && !AllZero(draws[i])
                       && forall j :: 0 <= j < i ==> AllZero(draws[j])
  {
    var i := 0;
    while AllZero(draws[i])
      invariant 0 <= i < |draws|
      invariant forall j :: 0 <= j < i ==> AllZero(draws[j])
      decreases |draws| - i
    {
      if i + 1 == |draws| { assert false; }
      i := i + 1;
    }
    hex := Print(draws[i]);
    PrintShape(draws[i]);
  }
}
