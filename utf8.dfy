/**
 UTF-8 as defined in section 3 of RFC 3629, with the well-formed byte sequences
 of section 4 of that RFC: the stateless encoder from codepoints to bytes, and
 the decoding function that the incremental decoder is specified by.
 */
module Utf8 {

  /** A byte as an unsigned value; Java's signed `byte` -30 is 0xE2 here. */
  type Byte = b: int | 0 <= b < 256

  /** Unicode scalar values: the codepoints UTF-8 can encode. */
  predicate IsScalar(cp: int)
  {
    0 <= cp <= 0x10FFFF && !(0xD800 <= cp <= 0xDFFF)
  }

  type Scalar = cp: int | 0 <= cp <= 0x10FFFF && !(0xD800 <= cp <= 0xDFFF)

  /** What the decoder emits for a byte that cannot start or continue a
      well-formed sequence. */
  const Replacement: Scalar := 0xFFFD

  // ---------------------------------------------------------------- encoding

  function EncodedLength(cp: Scalar): nat
  {
    if cp < 0x80 then 1 else if cp < 0x800 then 2 else if cp < 0x10000 then 3 else 4
  }

  /** The bytes of one scalar value: a lead byte carrying the high bits and
      continuation bytes carrying six bits each, from the highest. */
  function EncodeScalar(cp: Scalar): (r: seq<Byte>)
    ensures |r| == EncodedLength(cp)
  {
    var x: nat := cp;
    if x < 0x80 then [x as Byte]
    else if x < 0x800 then [(0xC0 + x / 64) as Byte, Cont(x)]
    else if x < 0x10000 then [(0xE0 + x / 64 / 64) as Byte, Cont(x / 64), Cont(x)]
    else
      assert x / 64 / 64 / 64 <= 4 by { Split64(x); Split64(x / 64); Split64(x / 64 / 64); }
      [(0xF0 + x / 64 / 64 / 64) as Byte, Cont(x / 64 / 64), Cont(x / 64), Cont(x)]
  }

  /** The continuation byte carrying the low six bits of `x`. */
  function Cont(x: nat): (b: Byte)
    ensures IsContinuation(b)
  {
    0x80 + x % 64
  }

  /** The encoder: each codepoint's bytes, in order. */
  function Encode(cps: seq<Scalar>): (r: seq<Byte>)
    ensures |cps| <= |r| <= 4 * |cps|
  {
    if cps == [] then [] else EncodeScalar(cps[0]) + Encode(cps[1..])
  }

  lemma {:induction false} EncodeAppend(a: seq<Scalar>, b: seq<Scalar>)
    ensures Encode(a + b) == Encode(a) + Encode(b)
    decreases |a|
  {
    if a == [] {
      assert a + b == b;
    } else {
      assert (a + b)[1..] == a[1..] + b;
      EncodeAppend(a[1..], b);
    }
  }

  // ---------------------------------------------------------------- decoding

  /** The length of the sequence a lead byte announces; 0 for a byte that is
      not a lead byte (a continuation byte, 0xC0, 0xC1, 0xF5 to 0xFF). */
  function SequenceLength(b: Byte): nat
  {
    if b < 0x80 then 1
    else if 0xC2 <= b <= 0xDF then 2
    else if 0xE0 <= b <= 0xEF then 3
    else if 0xF0 <= b <= 0xF4 then 4
    else 0
  }

  predicate IsContinuation(b: Byte)
  {
    0x80 <= b <= 0xBF
  }

  /** The range allowed for the byte that follows `lead`: narrower than a plain
      continuation byte where it excludes overlong forms (after 0xE0, 0xF0),
      surrogates (after 0xED) and values above U+10FFFF (after 0xF4). */
  predicate SecondByteOk(lead: Byte, b: Byte)
  {
    if lead == 0xE0 then 0xA0 <= b <= 0xBF
    else if lead == 0xED then 0x80 <= b <= 0x9F
    else if lead == 0xF0 then 0x90 <= b <= 0xBF
    else if lead == 0xF4 then 0x80 <= b <= 0x8F
    else IsContinuation(b)
  }

  /** The bytes at positions 1 to k-1 may follow the lead byte `s[0]`. */
  predicate TailOk(s: seq<Byte>, k: nat)
    requires 1 <= k <= |s|
  {
    (k >= 2 ==> SecondByteOk(s[0], s[1])) && forall j :: 2 <= j < k ==> IsContinuation(s[j])
  }

  function Min(a: nat, b: nat): nat
  {
    if a <= b then a else b
  }

  /** The value of a well-formed sequence: the payload bits of the lead byte
      followed by six bits from each continuation byte. */
  function Value(s: seq<Byte>): int
    requires 1 <= |s| <= 4
  {
    var b0: int := s[0];
    if |s| == 1 then b0
    else
      var b1: int := s[1];
      if |s| == 2 then (b0 - 0xC0) * 64 + (b1 - 0x80)
      else
        var b2: int := s[2];
        if |s| == 3 then ((b0 - 0xE0) * 64 + (b1 - 0x80)) * 64 + (b2 - 0x80)
        else
          var b3: int := s[3];
          (((b0 - 0xF0) * 64 + (b1 - 0x80)) * 64 + (b2 - 0x80)) * 64 + (b3 - 0x80)
  }

  lemma Split64(x: nat)
    ensures x == (x / 64) * 64 + x % 64 && 0 <= x % 64 < 64
  {
  }

  lemma Unsplit64(q: int, r: int)
    requires 0 <= r < 64
    ensures (q * 64 + r) / 64 == q && (q * 64 + r) % 64 == r
  {
  }

  /** A well-formed sequence encodes a scalar value, and it is the encoding of
      that value: the decoder accepts exactly what the encoder produces. */
  lemma WellFormedIsEncoding(s: seq<Byte>)
    requires 1 <= |s| <= 4 && SequenceLength(s[0]) == |s| && TailOk(s, |s|)
    ensures IsScalar(Value(s))
    ensures EncodeScalar(Value(s) as Scalar) == s
  {
    if |s| == 1 {
      assert s == [s[0]];
    } else if |s| == 2 {
      WellFormed2(s[0], s[1]);
      assert s == [s[0], s[1]];
    } else if |s| == 3 {
      assert IsContinuation(s[2]);
      WellFormed3(s[0], s[1], s[2]);
      assert s == [s[0], s[1], s[2]];
    } else {
      assert IsContinuation(s[2]) && IsContinuation(s[3]);
      WellFormed4(s[0], s[1], s[2], s[3]);
      assert s == [s[0], s[1], s[2], s[3]];
    }
  }

  lemma WellFormed2(b0: Byte, b1: Byte)
    requires SequenceLength(b0) == 2 && SecondByteOk(b0, b1)
    ensures IsScalar(Value([b0, b1])) && EncodeScalar(Value([b0, b1]) as Scalar) == [b0, b1]
  {
    var a, b := b0 - 0xC0, b1 - 0x80;
    var v := Value([b0, b1]);
    assert v == a * 64 + b;
    Unsplit64(a, b);
  }

  lemma WellFormed3(b0: Byte, b1: Byte, b2: Byte)
    requires SequenceLength(b0) == 3 && SecondByteOk(b0, b1) && IsContinuation(b2)
    ensures IsScalar(Value([b0, b1, b2])) && EncodeScalar(Value([b0, b1, b2]) as Scalar) == [b0, b1, b2]
  {
    var a, b, c := b0 - 0xE0, b1 - 0x80, b2 - 0x80;
    var v := Value([b0, b1, b2]);
    assert v == (a * 64 + b) * 64 + c;
    Unsplit64(a * 64 + b, c);
    Unsplit64(a, b);
    assert 0x800 <= v < 0x10000;
  }

  lemma WellFormed4(b0: Byte, b1: Byte, b2: Byte, b3: Byte)
    requires SequenceLength(b0) == 4 && SecondByteOk(b0, b1) && IsContinuation(b2) && IsContinuation(b3)
    ensures IsScalar(Value([b0, b1, b2, b3]))
    ensures EncodeScalar(Value([b0, b1, b2, b3]) as Scalar) == [b0, b1, b2, b3]
  {
    var a, b, c, d := b0 - 0xF0, b1 - 0x80, b2 - 0x80, b3 - 0x80;
    var v := Value([b0, b1, b2, b3]);
    assert v == ((a * 64 + b) * 64 + c) * 64 + d;
    Unsplit64((a * 64 + b) * 64 + c, d);
    Unsplit64(a * 64 + b, c);
    Unsplit64(a, b);
    assert 0x10000 <= v <= 0x10FFFF;
  }

  /** The encoder's bytes form a well-formed sequence whose value is the
      codepoint encoded. */
  lemma EncodingIsWellFormed(cp: Scalar)
    ensures var e := EncodeScalar(cp);
            SequenceLength(e[0]) == |e| && TailOk(e, |e|) && Value(e) == cp
  {
    if cp < 0x80 {
    } else if cp < 0x800 {
      Split64(cp);
      assert EncodeScalar(cp) == [0xC0 + cp / 64, 0x80 + cp % 64];
    } else if cp < 0x10000 {
      ThreeBytesWellFormed(cp);
    } else {
      FourBytesWellFormed(cp);
    }
  }

  lemma ThreeBytesWellFormed(cp: Scalar)
    requires 0x800 <= cp < 0x10000
    ensures var e := EncodeScalar(cp);
            SequenceLength(e[0]) == |e| && TailOk(e, |e|) && Value(e) == cp
  {
    var e := EncodeScalar(cp);
    Split64(cp);
    Split64(cp / 64);
    var q, b, c := cp / 64 / 64, cp / 64 % 64, cp % 64;
    assert cp == (q * 64 + b) * 64 + c;
    assert e == [0xE0 + q, 0x80 + b, 0x80 + c];
    if q == 0 { assert b >= 32; }
    if q == 13 { assert b < 32; }
    assert TailOk(e, 3);
  }

  lemma FourBytesWellFormed(cp: Scalar)
    requires 0x10000 <= cp
    ensures var e := EncodeScalar(cp);
            SequenceLength(e[0]) == |e| && TailOk(e, |e|) && Value(e) == cp
  {
    var e := EncodeScalar(cp);
    Split64(cp);
    Split64(cp / 64);
    Split64(cp / 64 / 64);
    var q, b, c, d := cp / 64 / 64 / 64, cp / 64 / 64 % 64, cp / 64 % 64, cp % 64;
    assert cp == ((q * 64 + b) * 64 + c) * 64 + d;
    assert e == [0xF0 + q, 0x80 + b, 0x80 + c, 0x80 + d];
    assert q <= 4;
    if q == 0 { assert b >= 16; }
    if q == 4 { assert b < 16; }
    assert TailOk(e, 4);
  }

  /** The result of looking at the front of the undecoded bytes. */
  datatype Step = Char(cp: int, size: nat) | Malformed | NeedMore

  function DecodeStep(s: seq<Byte>): (r: Step)
    requires s != []
    ensures r.Char? ==> 1 <= r.size <= |s| && r.size <= 4 && IsScalar(r.cp)
    ensures r.NeedMore? ==> |s| < 4
  {
    var n := SequenceLength(s[0]);
    if n == 0 then Malformed
    else
      var k := Min(n, |s|);
      if !TailOk(s, k) then Malformed
      else if k < n then NeedMore
      else
        WellFormedIsEncoding(s[..n]);
        assert TailOk(s[..n], n);
        Char(Value(s[..n]), n)
  }

  /** The undecoded bytes a decoder may hold between writes: nothing, or the
      start of a sequence that more bytes can still complete. */
  predicate Incomplete(p: seq<Byte>)
  {
    p == [] || DecodeStep(p).NeedMore?
  }

  datatype Decoded = Decoded(codePoints: seq<int>, pending: seq<Byte>)

  /** What a decided step emits: the codepoint, or `Replacement` for a
      malformed byte. */
  function Emitted(st: Step): int
  {
    if st.Char? then st.cp else Replacement
  }

  /** How many bytes a decided step consumes: the sequence, or the one
      malformed byte. */
  function Consumed(st: Step): nat
  {
    if st.Char? then st.size else 1
  }

  /** Decoding a byte string: every complete or malformed sequence from the
      front, the trailing incomplete sequence kept as pending. A malformed
      byte yields one `Replacement` and decoding resumes at the next byte. */
  function DecodeAll(s: seq<Byte>): (d: Decoded)
    ensures |d.pending| <= |s|
    ensures |d.codePoints| <= |s|
    decreases |s|
  {
    if s == [] then Decoded([], [])
    else
      var st := DecodeStep(s);
      if st.NeedMore? then Decoded([], s)
      else
        var d := DecodeAll(s[Consumed(st)..]);
        Decoded([Emitted(st)] + d.codePoints, d.pending)
  }

  /** One step of `DecodeAll` on a decided front. */
  lemma DecodeAllStep(s: seq<Byte>)
    requires s != [] && !DecodeStep(s).NeedMore?
    ensures var st := DecodeStep(s);
            1 <= Consumed(st) <= |s| &&
            DecodeAll(s) == Decoded([Emitted(st)] + DecodeAll(s[Consumed(st)..]).codePoints,
                                    DecodeAll(s[Consumed(st)..]).pending)
  {
  }

  /** What a decoder holds back is the tail of its input, and it is an
      incomplete sequence: decoding never sits on bytes it could decide. */
  lemma {:induction false} PendingIsIncompleteTail(s: seq<Byte>)
    ensures var p := DecodeAll(s).pending;
            p == s[|s| - |p|..] && Incomplete(p)
    decreases |s|
  {
    if s != [] && !DecodeStep(s).NeedMore? {
      var n := Consumed(DecodeStep(s));
      DecodeAllStep(s);
      PendingIsIncompleteTail(s[n..]);
      var p := DecodeAll(s).pending;
      assert s[n..][|s[n..]| - |p|..] == s[|s| - |p|..];
    }
  }

  /** The decoder only ever emits Unicode scalar values: what it decodes,
      or the replacement character. */
  lemma {:induction false} DecodedAreScalars(s: seq<Byte>)
    ensures forall i :: 0 <= i < |DecodeAll(s).codePoints| ==> IsScalar(DecodeAll(s).codePoints[i])
    decreases |s|
  {
    if s != [] && !DecodeStep(s).NeedMore? {
      var n := Consumed(DecodeStep(s));
      DecodeAllStep(s);
      DecodedAreScalars(s[n..]);
    }
  }

  /** Once the front of the bytes is decided, more bytes do not change it. */
  lemma StepExtend(s: seq<Byte>, t: seq<Byte>)
    requires s != [] && !DecodeStep(s).NeedMore?
    ensures DecodeStep(s + t) == DecodeStep(s)
  {
    var u := s + t;
    var n := SequenceLength(s[0]);
    assert u[0] == s[0];
    if n != 0 {
      var k, k' := Min(n, |s|), Min(n, |u|);
      assert k <= k';
      if !TailOk(s, k) {
        if k >= 2 && !SecondByteOk(s[0], s[1]) {
          assert u[1] == s[1];
        } else {
          var j :| 2 <= j < k && !IsContinuation(s[j]);
          assert u[j] == s[j];
        }
      } else {
        assert k == n;
        assert u[..n] == s[..n];
        assert forall j :: 1 <= j < n ==> u[j] == s[j];
      }
    }
  }

  /** Chunk invariance: decoding `a + b` in one go gives the same codepoints,
      and leaves the same pending bytes, as decoding `a` and then the bytes
      `a` left pending followed by `b`. */
  lemma {:induction false} DecodeAppend(a: seq<Byte>, b: seq<Byte>)
    ensures DecodeAll(a + b) ==
      Decoded(DecodeAll(a).codePoints + DecodeAll(DecodeAll(a).pending + b).codePoints,
              DecodeAll(DecodeAll(a).pending + b).pending)
    decreases |a|
  {
    if a == [] {
      assert a + b == b;
    } else if DecodeStep(a).NeedMore? {
      assert DecodeAll(a) == Decoded([], a);
    } else {
      var st := DecodeStep(a);
      var n := Consumed(st);
      DecodeAppend(a[n..], b);
      DecodeAllStep(a);
      FrontOfAppend(a, b);
      var d := DecodeAll(a[n..]);
      Assemble(Emitted(st), DecodeAll(a + b), DecodeAll(a[n..] + b), DecodeAll(a), d, DecodeAll(d.pending + b));
    }
  }

  /** Decoding `a + b` starts with the decided front of `a`. */
  lemma FrontOfAppend(a: seq<Byte>, b: seq<Byte>)
    requires a != [] && !DecodeStep(a).NeedMore?
    ensures var st := DecodeStep(a);
            var u := DecodeAll(a[Consumed(st)..] + b);
            DecodeAll(a + b) == Decoded([Emitted(st)] + u.codePoints, u.pending)
  {
    var n := Consumed(DecodeStep(a));
    StepExtend(a, b);
    DecodeAllStep(a + b);
    assert (a + b)[n..] == a[n..] + b;
  }

  /** The bookkeeping of one induction step of `DecodeAppend`. */
  lemma Assemble(e: int, whole: Decoded, u: Decoded, da: Decoded, d: Decoded, t: Decoded)
    requires whole == Decoded([e] + u.codePoints, u.pending)
    requires u == Decoded(d.codePoints + t.codePoints, t.pending)
    requires da == Decoded([e] + d.codePoints, d.pending)
    ensures whole == Decoded(da.codePoints + t.codePoints, t.pending)
  {
    assert [e] + (d.codePoints + t.codePoints) == ([e] + d.codePoints) + t.codePoints;
  }

  /** The decoder reads back the first codepoint of an encoding whatever
      follows it. */
  lemma StepEncoded(cp: Scalar, t: seq<Byte>)
    ensures DecodeStep(EncodeScalar(cp) + t) == Char(cp, EncodedLength(cp))
  {
    var e := EncodeScalar(cp);
    var s := e + t;
    var n := EncodedLength(cp);
    assert s[..n] == e;
    EncodingIsWellFormed(cp);
    assert forall j :: 0 <= j < n ==> s[j] == e[j];
    assert TailOk(s, n);
  }

  /** Round trip: decoding the encoder's bytes reproduces the codepoints and
      leaves nothing pending. */
  lemma {:induction false} DecodeEncode(cps: seq<Scalar>)
    ensures DecodeAll(Encode(cps)) == Decoded(cps, [])
    decreases |cps|
  {
    if cps != [] {
      var e := EncodeScalar(cps[0]);
      var rest := Encode(cps[1..]);
      assert Encode(cps) == e + rest;
      StepEncoded(cps[0], rest);
      DecodeAllStep(e + rest);
      assert (e + rest)[|e|..] == rest;
      DecodeEncode(cps[1..]);
      assert cps == [cps[0]] + cps[1..];
    }
  }

  /** Round trip through any split of the bytes: writing the encoding in two
      chunks, carrying the pending bytes from the first to the second, yields
      the codepoints in order and nothing pending. */
  lemma SplitRoundTrip(cps: seq<Scalar>, i: nat)
    requires i <= |Encode(cps)|
    ensures var e := Encode(cps);
            var d1 := DecodeAll(e[..i]);
            var d2 := DecodeAll(d1.pending + e[i..]);
            d1.codePoints + d2.codePoints == cps && d2.pending == []
  {
    var e := Encode(cps);
    assert e == e[..i] + e[i..];
    DecodeAppend(e[..i], e[i..]);
    DecodeEncode(cps);
  }

  /** Every well-formed sequence the decoder accepts is the encoding of what
      it outputs: decoding and then encoding gives back the bytes consumed. */
  lemma CharIsEncoding(s: seq<Byte>)
    requires s != [] && DecodeStep(s).Char?
    ensures EncodeScalar(DecodeStep(s).cp) == s[..DecodeStep(s).size]
  {
    var n := DecodeStep(s).size;
    assert TailOk(s[..n], n);
    WellFormedIsEncoding(s[..n]);
  }

  /** The encoder test: "A", the euro sign and U+102B7 (a supplementary
      character, a surrogate pair in Java's strings). */
  lemma EncodeExamples()
    ensures Encode([0x41]) == [0x41]
    ensures Encode([0x20AC]) == [0xE2, 0x82, 0xAC]
    ensures Encode([0x102B7]) == [0xF0, 0x90, 0x8A, 0xB7]
  {
  }

  /** Decoding those bytes gives the codepoints back. */
  lemma DecodeExamples()
    ensures DecodeAll([0x41]).codePoints == [0x41]
    ensures DecodeAll([0xE2, 0x82, 0xAC]).codePoints == [0x20AC]
    ensures DecodeAll([0xF0, 0x90, 0x8A, 0xB7]).codePoints == [0x102B7]
  {
    EncodeExamples();
    DecodeEncode([0x41]);
    DecodeEncode([0x20AC]);
    DecodeEncode([0x102B7]);
  }

  /** The euro sign written one byte at a time: nothing after the first and
      the second byte, which stay pending, and the codepoint after the third. */
  lemma EuroByteByByte()
    ensures DecodeAll([0xE2]) == Decoded([], [0xE2])
    ensures DecodeAll([0xE2] + [0x82]) == Decoded([], [0xE2, 0x82])
    ensures DecodeAll([0xE2, 0x82] + [0xAC]) == Decoded([0x20AC], [])
  {
    assert DecodeStep([0xE2]) == NeedMore;
    assert [0xE2] + [0x82] == [0xE2, 0x82];
    assert TailOk([0xE2, 0x82], 2);
    assert DecodeStep([0xE2, 0x82]) == NeedMore;
    assert [0xE2, 0x82] + [0xAC] == [0xE2, 0x82, 0xAC];
    DecodeExamples();
    assert DecodeAll([0xE2, 0x82, 0xAC]).pending == [] by {
      EncodeExamples();
      DecodeEncode([0x20AC]);
    }
  }
}
