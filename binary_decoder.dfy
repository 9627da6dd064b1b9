/**
 The binary codec as seen by a connection: the encoder turns the codepoints
 written to the terminal into UTF-8 bytes in one go, while the decoder is
 stateful. It keeps an incomplete multi-byte sequence from one `Write` to the
 next, and it hands the codepoints it decodes to its consumer in batches, no
 batch larger than the capacity of its scratch buffer.
 */
module BinaryDecoders {
  import opened Utf8

  /** The encoder: stateless, one call gives the bytes of all the codepoints. */
  function EncodeChunk(cps: seq<Scalar>): (r: seq<Byte>)
    ensures DecodeAll(r) == Decoded(cps, [])
  {
    DecodeEncode(cps);
    Encode(cps)
  }

  /** The codepoints of a list of batches, in order. */
  function Flatten(bs: seq<seq<int>>): seq<int>
  {
    if bs == [] then [] else bs[0] + Flatten(bs[1..])
  }

  /** Batches as a consumer sees them: none empty, none larger than the
      capacity, and every one but the last filled to capacity. */
  predicate IsBatching(bs: seq<seq<int>>, cap: nat)
  {
    (forall i :: 0 <= i < |bs| ==> 1 <= |bs[i]| <= cap) &&
    (forall i :: 0 <= i < |bs| - 1 ==> |bs[i]| == cap)
  }

  /** The reference cutting of a run of codepoints into batches of `cap`. */
  function Batches(s: seq<int>, cap: nat): (bs: seq<seq<int>>)
    requires cap >= 1
    decreases |s|
  {
    if s == [] then []
    else if |s| <= cap then [s]
    else [s[..cap]] + Batches(s[cap..], cap)
  }

  lemma {:induction false} FlattenAppend(a: seq<seq<int>>, b: seq<seq<int>>)
    ensures Flatten(a + b) == Flatten(a) + Flatten(b)
    decreases |a|
  {
    if a == [] {
      assert a + b == b;
    } else {
      assert (a + b)[1..] == a[1..] + b;
      FlattenAppend(a[1..], b);
    }
  }

  /** The reference cutting delivers every codepoint, in order, as a batching. */
  lemma {:induction false} BatchesAreBatching(s: seq<int>, cap: nat)
    requires cap >= 1
    ensures Flatten(Batches(s, cap)) == s
    ensures IsBatching(Batches(s, cap), cap)
    decreases |s|
  {
    if s != [] && |s| > cap {
      BatchesAreBatching(s[cap..], cap);
      assert s == s[..cap] + s[cap..];
      var rest := Batches(s[cap..], cap);
      assert Batches(s, cap) == [s[..cap]] + rest;
      assert forall i :: 1 <= i < |rest| + 1 ==> Batches(s, cap)[i] == rest[i - 1];
    }
  }

  /** A batching is determined by what it delivers: there is exactly one way
      to cut a run of codepoints into batches of `cap`. */
  lemma {:induction false} BatchingUnique(bs: seq<seq<int>>, cap: nat)
    requires cap >= 1 && IsBatching(bs, cap)
    ensures bs == Batches(Flatten(bs), cap)
    decreases |bs|
  {
    if bs != [] {
      var rest := bs[1..];
      assert IsBatching(rest, cap) by {
        assert forall i :: 0 <= i < |rest| ==> rest[i] == bs[i + 1];
      }
      BatchingUnique(rest, cap);
      var s := Flatten(bs);
      assert s == bs[0] + Flatten(rest);
      if rest == [] {
        assert s == bs[0];
      } else {
        assert |bs[0]| == cap;
        assert |Flatten(rest)| >= 1 by { assert |rest[0]| >= 1; assert Flatten(rest) == rest[0] + Flatten(rest[1..]); }
        assert s[..cap] == bs[0] && s[cap..] == Flatten(rest);
        assert bs == [bs[0]] + rest;
      }
    }
  }

  /** Nothing longer than the capacity is ever split: it arrives as one batch. */
  lemma SingleBatch(s: seq<int>, cap: nat)
    requires 1 <= |s| <= cap
    ensures Batches(s, cap) == [s]
  {
  }

  /** A full batch in front is cut off as it is. */
  lemma BatchesCons(a: seq<int>, t: seq<int>, cap: nat)
    requires cap >= 1 && |a| == cap
    ensures Batches(a + t, cap) == [a] + Batches(t, cap)
  {
    var s := a + t;
    if t == [] {
      assert s == a;
    } else {
      assert s[..cap] == a && s[cap..] == t;
    }
  }

  /** Full batches already delivered are a prefix of the batching of the
      whole run. */
  lemma {:induction false} BatchesAfterFull(bs: seq<seq<int>>, r: seq<int>, cap: nat)
    requires cap >= 1
    requires forall i :: 0 <= i < |bs| ==> |bs[i]| == cap
    ensures Batches(Flatten(bs) + r, cap) == bs + Batches(r, cap)
    decreases |bs|
  {
    if bs == [] {
      assert Flatten(bs) + r == r;
    } else {
      var rest := bs[1..];
      assert forall i :: 0 <= i < |rest| ==> |rest[i]| == cap by {
        assert forall i :: 0 <= i < |rest| ==> rest[i] == bs[i + 1];
      }
      BatchesAfterFull(rest, r, cap);
      var t := Flatten(rest) + r;
      assert Flatten(bs) == bs[0] + Flatten(rest);
      assert Flatten(bs) + r == bs[0] + t;
      BatchesCons(bs[0], t, cap);
      assert bs == [bs[0]] + rest;
      ConcatAssoc([bs[0]], rest, Batches(r, cap));
    }
  }

  /** Full batches deliver `cap` codepoints each. */
  lemma {:induction false} FlattenLength(bs: seq<seq<int>>, cap: nat)
    requires forall i :: 0 <= i < |bs| ==> |bs[i]| == cap
    ensures |Flatten(bs)| == |bs| * cap
    decreases |bs|
  {
    if bs != [] {
      FlattenLength(bs[1..], cap);
      assert |Flatten(bs)| == cap + (|bs| - 1) * cap;
    }
  }

  /** One decided step of the decoding loop: the codepoint it emits and
      where the next step starts; what is left decodes to that codepoint
      followed by what remains after it. */
  method NextStep(input: seq<Byte>, i: nat) returns (e: int, j: nat)
    requires i < |input| && !DecodeStep(input[i..]).NeedMore?
    ensures i < j <= |input|
    ensures DecodeAll(input[i..]).codePoints == [e] + DecodeAll(input[j..]).codePoints
    ensures DecodeAll(input[i..]).pending == DecodeAll(input[j..]).pending
  {
    var t := input[i..];
    var st := DecodeStep(t);
    e, j := Emitted(st), i + Consumed(st);
    DecodeAllStep(t);
    assert t[Consumed(st)..] == input[j..];
  }

  /** Decoding stops, emitting nothing, at the end of the bytes or in front
      of an incomplete sequence. */
  lemma DecodeStops(s: seq<Byte>)
    requires s == [] || DecodeStep(s).NeedMore?
    ensures DecodeAll(s) == Decoded([], s)
  {
  }

  lemma ConcatAssoc<T>(a: seq<T>, b: seq<T>, c: seq<T>)
    ensures a + (b + c) == (a + b) + c
  {
  }

  /** When decoding stops, the full batches and what is left in the
      scratch buffer are the reference cutting of everything decoded. */
  lemma FinalBatches(full: seq<seq<int>>, last: seq<int>, tail: seq<Byte>, total: Decoded, cap: nat)
    requires 0 <= |last| < cap
    requires forall j :: 0 <= j < |full| ==> |full[j]| == cap
    requires tail == [] || DecodeStep(tail).NeedMore?
    requires total.codePoints == (Flatten(full) + last) + DecodeAll(tail).codePoints
    requires total.pending == DecodeAll(tail).pending
    ensures Batches(total.codePoints, cap) == full + (if last == [] then [] else [last])
    ensures total.pending == tail
  {
    DecodeStops(tail);
    assert total.codePoints == Flatten(full) + last;
    BatchesAfterFull(full, last, cap);
    if last != [] {
      SingleBatch(last, cap);
    }
  }

  class BinaryDecoder {
    /** The bytes of the incomplete sequence carried over to the next write. */
    var pending: seq<Byte>
    /** The scratch buffer the decoded codepoints are gathered in. */
    const buffer: array<int>

    ghost predicate Valid()
      reads this
    {
      buffer.Length >= 1 && Incomplete(pending)
    }

    constructor (capacity: nat)
      requires capacity >= 1
      ensures Valid()
      ensures pending == [] && buffer.Length == capacity && fresh(buffer)
    {
      pending := [];
      buffer := new int[capacity];
    }

    /** Decodes the pending bytes followed by `data` and returns the batches
        handed to the consumer: the decoded codepoints cut at the capacity,
        with the trailing incomplete sequence kept for the next write. */
    method Write(data: seq<Byte>) returns (batches: seq<seq<int>>)
      requires Valid()
      modifies this, buffer
      ensures Valid()
      ensures batches == Batches(DecodeAll(old(pending) + data).codePoints, buffer.Length)
      ensures pending == DecodeAll(old(pending) + data).pending
      ensures Flatten(batches) == DecodeAll(old(pending) + data).codePoints
      ensures IsBatching(batches, buffer.Length)
    {
      var input := pending + data;
      batches, pending := DecodeInto(input);
      PendingIsIncompleteTail(input);
      BatchesAreBatching(DecodeAll(input).codePoints, buffer.Length);
    }

    /** Puts one codepoint in the scratch buffer, handing the buffer on as a
        batch when that fills it. */
    method Push(e: int, batches: seq<seq<int>>, filled: nat) returns (batches': seq<seq<int>>, filled': nat)
      requires filled < buffer.Length
      requires forall j :: 0 <= j < |batches| ==> |batches[j]| == buffer.Length
      modifies buffer
      ensures filled' < buffer.Length
      ensures forall j :: 0 <= j < |batches'| ==> |batches'[j]| == buffer.Length
      ensures Flatten(batches') + buffer[..filled'] == Flatten(batches) + old(buffer[..filled]) + [e]
    {
      buffer[filled] := e;
      assert buffer[..filled + 1] == old(buffer[..filled]) + [e];
      filled' := filled + 1;
      batches' := batches;
      if filled' == buffer.Length {
        var full := buffer[..filled'];
        FlattenAppend(batches, [full]);
        assert Flatten([full]) == full;
        batches' := batches + [full];
        filled' := 0;
      }
    }

    /** The decoding loop: one decided step at a time into the scratch
        buffer, which is handed on whenever it is full. It stops at the end
        of the input or in front of an incomplete sequence. */
    method DecodeFull(input: seq<Byte>) returns (batches: seq<seq<int>>, filled: nat, i: nat)
      requires buffer.Length >= 1
      modifies buffer
      ensures i <= |input| && (i == |input| || DecodeStep(input[i..]).NeedMore?)
      ensures filled < buffer.Length
      ensures forall j :: 0 <= j < |batches| ==> |batches[j]| == buffer.Length
      ensures DecodeAll(input).codePoints == (Flatten(batches) + buffer[..filled]) + DecodeAll(input[i..]).codePoints
      ensures DecodeAll(input).pending == DecodeAll(input[i..]).pending
    {
      i := 0;
      filled := 0;
      batches := [];
      ghost var done: seq<int> := [];
      ghost var total := DecodeAll(input);
      assert input[0..] == input;
      while i < |input| && !DecodeStep(input[i..]).NeedMore?
        invariant 0 <= i <= |input|
        invariant 0 <= filled < buffer.Length
        invariant forall j :: 0 <= j < |batches| ==> |batches[j]| == buffer.Length
        invariant done == Flatten(batches) + buffer[..filled]
        invariant total.codePoints == done + DecodeAll(input[i..]).codePoints
        invariant total.pending == DecodeAll(input[i..]).pending
        decreases |input| - i
      {
        var e, j := NextStep(input, i);
        ConcatAssoc(done, [e], DecodeAll(input[j..]).codePoints);
        batches, filled := Push(e, batches, filled);
        done := done + [e];
        i := j;
      }
    }

    /** The whole decoding: the full batches, then what is left in the
        scratch buffer as one last batch if it holds anything. */
    method DecodeInto(input: seq<Byte>) returns (batches: seq<seq<int>>, rest: seq<Byte>)
      requires buffer.Length >= 1
      modifies buffer
      ensures batches == Batches(DecodeAll(input).codePoints, buffer.Length)
      ensures rest == DecodeAll(input).pending
    {
      var filled, i;
      batches, filled, i := DecodeFull(input);
      var last := buffer[..filled];
      FinalBatches(batches, last, input[i..], DecodeAll(input), buffer.Length);
      if filled > 0 {
        batches := batches + [last];
      }
      rest := input[i..];
    }
  }

  /** ASCII is its own encoding. */
  lemma {:induction false} EncodeAscii(s: seq<Scalar>)
    requires forall i :: 0 <= i < |s| ==> s[i] < 0x80
    ensures Encode(s) == s
    decreases |s|
  {
    if s != [] {
      EncodeAscii(s[1..]);
      assert s == [s[0]] + s[1..];
    }
  }

  /** The overflow test: "ABCDE" through capacities 2 to 6. */
  lemma OverflowBatches()
    ensures Batches([65, 66, 67, 68, 69], 2) == [[65, 66], [67, 68], [69]]
    ensures Batches([65, 66, 67, 68, 69], 3) == [[65, 66, 67], [68, 69]]
    ensures Batches([65, 66, 67, 68, 69], 4) == [[65, 66, 67, 68], [69]]
    ensures Batches([65, 66, 67, 68, 69], 5) == [[65, 66, 67, 68, 69]]
    ensures Batches([65, 66, 67, 68, 69], 6) == [[65, 66, 67, 68, 69]]
  {
    var s := [65, 66, 67, 68, 69];
    assert s[..2] == [65, 66] && s[2..] == [67, 68, 69];
    assert s[2..][..2] == [67, 68] && s[2..][2..] == [69];
    assert s[..3] == [65, 66, 67] && s[3..] == [68, 69];
    assert s[..4] == [65, 66, 67, 68] && s[4..] == [69];
  }

  /** The decoder replaying the overflow test at one capacity. */
  method OverflowAt(cap: nat) returns (batches: seq<seq<int>>)
    requires cap >= 1
    ensures batches == Batches([65, 66, 67, 68, 69], cap)
  {
    var abcde: seq<Scalar> := [65, 66, 67, 68, 69];
    EncodeAscii(abcde);
    DecodeEncode(abcde);
    var d := new BinaryDecoder(cap);
    assert [] + abcde == abcde;
    batches := d.Write(abcde);
  }

  /** The overflow test: "ABCDE" through capacities 2 to 6. */
  method OverflowScenario() returns (b2: seq<seq<int>>, b3: seq<seq<int>>, b4: seq<seq<int>>,
                                     b5: seq<seq<int>>, b6: seq<seq<int>>)
    ensures b2 == [[65, 66], [67, 68], [69]] && b3 == [[65, 66, 67], [68, 69]]
    ensures b4 == [[65, 66, 67, 68], [69]]
    ensures b5 == [[65, 66, 67, 68, 69]] && b6 == [[65, 66, 67, 68, 69]]
  {
    OverflowBatches();
    b2 := OverflowAt(2);
    b3 := OverflowAt(3);
    b4 := OverflowAt(4);
    b5 := OverflowAt(5);
    b6 := OverflowAt(6);
  }

  /** The underflow test: the euro sign written one byte at a time is held
      back until its last byte arrives. */
  method UnderflowScenario() returns (b1: seq<seq<int>>, b2: seq<seq<int>>, b3: seq<seq<int>>)
    ensures b1 == [] && b2 == [] && b3 == [[0x20AC]]
  {
    var d := new BinaryDecoder(10);
    EuroByteByByte();
    b1 := d.Write([0xE2]);
    assert d.pending == [0xE2];
    b2 := d.Write([0x82]);
    assert d.pending == [0xE2, 0x82];
    b3 := d.Write([0xAC]);
  }

  /** The character test at any capacity: the encoder's bytes written to a
      fresh decoder come back as the codepoints, with nothing held back. */
  method CharsRoundTrip(cps: seq<Scalar>, cap: nat) returns (bytes: seq<Byte>, decoded: seq<int>, held: seq<Byte>)
    requires cap >= 1
    ensures bytes == Encode(cps) && decoded == cps && held == []
  {
    bytes := EncodeChunk(cps);
    var d := new BinaryDecoder(cap);
    assert [] + bytes == bytes;
    var batches := d.Write(bytes);
    decoded := Flatten(batches);
    held := d.pending;
  }
}
