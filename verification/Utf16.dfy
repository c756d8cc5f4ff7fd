/** Strings as JavaScript and Dart see them: sequences of 16-bit code units.
    Field caps count units; the event limit counts UTF-8 bytes of escaped JSON
    (RFC 8259 section 7, RFC 3629 section 3). This module relates the two. */
module Utf16 {
  import opened Wrappers

  type Unit = u: int | 0 <= u < 0x10000
  type Text = seq<Unit>

  /** An ASCII literal as units. */
  function Lit(s: string): (t: Text)
    ensures |t| == |s|
  {
    seq(|s|, i requires 0 <= i < |s| => (s[i] as int) % 0x10000)
  }

  predicate High(u: int) { 0xD800 <= u <= 0xDBFF }

  predicate Low(u: int) { 0xDC00 <= u <= 0xDFFF }

  /** `s` starts with a surrogate pair. */
  predicate Pair(s: Text) { |s| >= 2 && High(s[0]) && Low(s[1]) }

  /** Cutting `s` before index `k` separates the two halves of a pair. */
  predicate SplitsPair(s: Text, k: int)
  {
    0 < k < |s| && High(s[k - 1]) && Low(s[k])
  }

  // ---- serialized size -----------------------------------------------------

  predicate ShortEscape(u: int) { u in [0x08, 0x09, 0x0A, 0x0C, 0x0D, 0x22, 0x5C] }

  /** Bytes of one unit that is not half of a pair, inside a JSON string. */
  function UnitBytes(u: Unit): nat
  {
    if ShortEscape(u) then 2
    else if u < 0x20 then 6
    else if u < 0x80 then 1
    else if u < 0x800 then 2
    else if High(u) || Low(u) then 6
    else 3
  }

  /** UTF-8 bytes of the JSON form of `s`, without the quotes. */
  function JsonBytes(s: Text): nat
  {
    if s == [] then 0
    else if Pair(s) then 4 + JsonBytes(s[2..])
    else UnitBytes(s[0]) + JsonBytes(s[1..])
  }

  lemma {:induction false} JsonBytesBounds(s: Text)
    ensures |s| <= JsonBytes(s) <= 6 * |s|
  {
    if s == [] {
    } else if Pair(s) {
      JsonBytesBounds(s[2..]);
    } else {
      JsonBytesBounds(s[1..]);
    }
  }

  /** Printable ASCII that needs no escape. */
  predicate PlainUnit(u: int) { 0x20 <= u < 0x80 && u != 0x22 && u != 0x5C }

  predicate Plain(s: string) { forall i :: 0 <= i < |s| ==> PlainUnit(s[i] as int) }

  lemma {:induction false} PlainTextBytes(t: Text)
    requires forall i :: 0 <= i < |t| ==> PlainUnit(t[i])
    ensures JsonBytes(t) == |t|
  {
    if t == [] {
    } else {
      PlainTextBytes(t[1..]);
    }
  }

  lemma PlainBytes(s: string)
    requires Plain(s)
    ensures JsonBytes(Lit(s)) == |s|
  {
    PlainTextBytes(Lit(s));
  }

  /** A pair or a single unit in front of a cut text. */
  lemma PairFirst(s: Text, k: nat)
    requires 2 <= k <= |s| && Pair(s)
    ensures JsonBytes(s[..k]) == 4 + JsonBytes(s[2..][..k - 2]) && s[2..][k - 2..] == s[k..]
  {
    assert s[..k][2..] == s[2..][..k - 2];
  }

  lemma UnitFirst(s: Text, k: nat)
    requires 1 <= k <= |s| && (!Pair(s) || k == 1)
    ensures JsonBytes(s[..k]) == UnitBytes(s[0]) + JsonBytes(s[1..][..k - 1]) && s[1..][k - 1..] == s[k..]
  {
    assert s[..k][1..] == s[1..][..k - 1];
  }

  /** Size is additive at a cut, except that cutting a pair turns its 4 bytes
      into two escapes of 6. */
  lemma {:induction false} CutBytes(s: Text, k: nat)
    requires k <= |s|
    ensures JsonBytes(s[..k]) + JsonBytes(s[k..]) == JsonBytes(s) + if SplitsPair(s, k) then 8 else 0
  {
    if k == 0 {
      assert s[..0] == [] && s[0..] == s;
    } else if !Pair(s) {
      CutBytes(s[1..], k - 1);
      UnitFirst(s, k);
    } else if k == 1 {
      UnitFirst(s, 1);
      assert s[1..][1..] == s[2..] && s[1..][..0] == [];
    } else {
      CutBytes(s[2..], k - 2);
      PairFirst(s, k);
    }
  }

  // ---- well-formedness and code points -------------------------------------

  /** No lone surrogate. */
  predicate WellFormed(s: Text)
  {
    s == [] || if Pair(s) then WellFormed(s[2..]) else !High(s[0]) && !Low(s[0]) && WellFormed(s[1..])
  }

  predicate WellFormedOption(value: Option<Text>) { value.Some? ==> WellFormed(value.value) }

  lemma {:induction false} CutWellFormed(s: Text, k: nat)
    requires k <= |s| && WellFormed(s)
    ensures WellFormed(s[..k]) <==> !SplitsPair(s, k)
  {
    if k == 0 {
    } else if Pair(s) {
      if k == 1 {
      } else {
        CutWellFormed(s[2..], k - 2);
        assert s[..k][2..] == s[2..][..k - 2];
        if k == 2 && |s| > 2 {
          assert !Low(s[2]) by { assert s[2..][0] == s[2]; }
        }
      }
    } else {
      CutWellFormed(s[1..], k - 1);
      assert s[..k][1..] == s[1..][..k - 1];
    }
  }

  /** The Unicode code points of `s`, which is what Python's `str` holds. */
  function Decode(s: Text): seq<int>
  {
    if s == [] then []
    else if Pair(s) then [0x10000 + (s[0] - 0xD800) * 0x400 + (s[1] - 0xDC00)] + Decode(s[2..])
    else [s[0]] + Decode(s[1..])
  }

  lemma {:induction false} DecodeLength(s: Text)
    ensures |Decode(s)| <= |s|
    ensures s != [] ==> Decode(s) != []
  {
    if s == [] {
    } else if Pair(s) {
      DecodeLength(s[2..]);
    } else {
      DecodeLength(s[1..]);
    }
  }

  /** The units of a string of code points. */
  function Encode(points: seq<int>): seq<int>
  {
    if points == [] then []
    else
      var c := points[0];
      (if c < 0x10000 then [c] else [0xD800 + (c - 0x10000) / 0x400, 0xDC00 + c % 0x400]) + Encode(points[1..])
  }

  /** Decoding loses nothing, and leaves a surrogate exactly in text that is not well formed. */
  lemma {:induction false} EncodeDecode(s: Text)
    ensures Encode(Decode(s)) == s
    ensures forall c :: c in Decode(s) ==> 0 <= c <= 0x10FFFF
    ensures WellFormed(s) <==> forall c :: c in Decode(s) ==> !High(c) && !Low(c)
  {
    if s == [] {
    } else if Pair(s) {
      EncodeDecode(s[2..]);
      var c := Decode(s)[0];
      assert Decode(s)[1..] == Decode(s[2..]);
      assert (c - 0x10000) / 0x400 == s[0] - 0xD800 && c % 0x400 == s[1] - 0xDC00;
      assert s == [s[0], s[1]] + s[2..];
      assert Decode(s) == [c] + Decode(s[2..]);
    } else {
      EncodeDecode(s[1..]);
      assert Decode(s)[1..] == Decode(s[1..]);
      assert s == [s[0]] + s[1..];
      assert Decode(s) == [s[0]] + Decode(s[1..]);
    }
  }

  predicate Ascii(s: Text) { forall i :: 0 <= i < |s| ==> s[i] < 0x80 }

  lemma {:induction false} DecodeAscii(s: Text)
    requires Ascii(s)
    ensures Decode(s) == s && WellFormed(s)
  {
    if s == [] {
    } else {
      DecodeAscii(s[1..]);
      assert s == [s[0]] + s[1..];
    }
  }

  // ---- truncation ----------------------------------------------------------

  /** `cap`: at most `max` units, and one less where the last would be a high surrogate. */
  function Cap(value: Text, max: nat): (r: Text)
  {
    if |value| <= max then value
    else if max > 0 && High(value[max - 1]) then value[..max - 1]
    else value[..max]
  }

  /** `cap` returns the longest prefix of at most `max` units that does not end
      in a high surrogate; that cut never separates a pair, so what it removes is
      exactly what the size loses. */
  lemma {:induction false} CapCut(value: Text, max: nat)
    ensures var r := Cap(value, max);
            && |r| <= max
            && r <= value
            && !SplitsPair(value, |r|)
            && JsonBytes(r) + JsonBytes(value[|r|..]) == JsonBytes(value)
            && (|value| <= max ==> r == value)
            && (|value| > max ==> |r| >= max - 1)
            && (|value| > max > 0 ==> (|r| == max <==> !High(value[max - 1])))
            && (WellFormed(value) ==> WellFormed(r))
  {
    var r := Cap(value, max);
    CutBytes(value, |r|);
    assert r == value[..|r|];
    if WellFormed(value) { CutWellFormed(value, |r|); }
  }

  /** Removing `n` units with `cap` removes at least `n` bytes. */
  lemma {:induction false} CapRemoves(value: Text, n: nat)
    ensures n <= |value| ==> JsonBytes(Cap(value, |value| - n)) + n <= JsonBytes(value)
  {
    if n <= |value| {
      CapCut(value, |value| - n);
      JsonBytesBounds(value[|Cap(value, |value| - n)|..]);
    }
  }
}
