/** Damage on the line: what the reader makes of a full buffer whose bytes were changed after encoding. The checksum
    covers the message, but not the overhead bytes that COBS puts in place of its zeros. */
module FrameDamage {
  import opened Options
  import opened Words
  import opened Cobs
  import opened SerialFraming

  /** The overhead bytes of a frame: the one in front of every group. */
  function Overhead(frame: seq<byte>): seq<byte>
    decreases |frame|
  {
    if |frame| == 0 || frame[0] == 0 || frame[0] > |frame| then []
    else [frame[0]] + Overhead(frame[frame[0]..])
  }

  predicate IsOverhead(frame: seq<byte>, i: nat)
    decreases |frame|
  {
    i < |frame| && 0 < frame[0] <= |frame| &&
    (i == 0 || (i >= frame[0] && IsOverhead(frame[frame[0]..], i - frame[0])))
  }

  // ---- Parities ----

  lemma {:induction false} ParitySnoc(data: seq<byte>, b: byte, k: nat)
    ensures Parity(data + [b], k) == (Parity(data, k) != Bit(b, k))
  {
    assert (data + [b])[..|data|] == data;
  }

  lemma {:induction false} ParityConcat(a: seq<byte>, b: seq<byte>, k: nat)
    ensures Parity(a + b, k) == (Parity(a, k) != Parity(b, k))
  {
    if |b| == 0 {
      assert a + b == a;
    } else {
      var n := |b| - 1;
      var init, last := b[..n], b[n];
      ParityConcat(a, init, k);
      ParitySnoc(a + init, last, k);
      ParitySnoc(init, last, k);
      LastByte(a, b);
    }
  }

  lemma {:induction false} LastByte(a: seq<byte>, b: seq<byte>)
    requires |b| > 0
    ensures var n := |b| - 1; b == b[..n] + [b[n]] && a + b == (a + b[..n]) + [b[n]]
  {
  }

  lemma {:induction false} ParityOfOne(b: byte, k: nat)
    ensures Parity([b], k) == Bit(b, k)
  {
    assert [] + [b] == [b];
    ParitySnoc([], b, k);
  }

  lemma {:induction false} SameChecksumIff(a: seq<byte>, b: seq<byte>)
    ensures Checksum(a) == Checksum(b) <==> forall k: nat :: Parity(a, k) == Parity(b, k)
  {
    forall k: nat ensures Bit(Checksum(a), k) == Parity(a, k) && Bit(Checksum(b), k) == Parity(b, k) {
      ChecksumBit(a, k);
      ChecksumBit(b, k);
    }
    if Checksum(a) != Checksum(b) {
      var k := DifferentBit(Checksum(a), Checksum(b));
      assert Parity(a, k) != Parity(b, k);
    }
  }

  /** Decoding drops the overhead bytes and puts in zeros, which no parity sees. */
  lemma {:induction false} ParityDecoded(frame: seq<byte>, k: nat)
    requires Decode(frame).Some?
    ensures Parity(Decode(frame).value, k) == (Parity(frame, k) != Parity(Overhead(frame), k))
    decreases |frame|
  {
    var c := frame[0];
    var group, rest := frame[1..c], frame[c..];
    assert frame == [c] + (group + rest);
    ParityOfOne(c, k);
    ParityConcat([c], group + rest, k);
    ParityConcat(group, rest, k);
    ParityConcat([c], Overhead(rest), k);
    if |rest| == 0 {
      assert Overhead(rest) == [];
    } else {
      var zero, tail: seq<byte> := if c < 255 then [0] else [], Decode(rest).value;
      ParityDecoded(rest, k);
      ParityConcat(group + zero, tail, k);
      ParityConcat(group, zero, k);
      ParityOfOne(0, k);
      ZeroHasNoBits(k);
      assert Decode(frame).value == group + zero + tail;
    }
  }

  ghost predicate AllEven(data: seq<byte>) {
    forall k: nat :: !Parity(data, k)
  }

  /** A message followed by its checksum is what has an even number of every bit. */
  lemma {:induction false} EndsInChecksumIff(d: seq<byte>)
    requires |d| > 0
    ensures var n := |d| - 1; d[n] == Checksum(d[..n]) <==> AllEven(d)
  {
    var n := |d| - 1;
    if d[n] == Checksum(d[..n]) {
      forall k: nat ensures !Parity(d, k) { ChecksumBit(d[..n], k); }
    } else {
      var k := DifferentBit(d[n], Checksum(d[..n]));
      ChecksumBit(d[..n], k);
      assert Parity(d, k);
    }
  }

  // ---- What is accepted ----

  /** A full buffer is accepted if and only if it decodes and the XOR of all its bytes is that of its overhead bytes. */
  lemma {:induction false} AcceptedIff(frame: seq<byte>)
    requires |frame| == FRAME_SIZE
    ensures DecodePacket(frame).Ok? <==> Decode(frame).Some? && Checksum(frame) == Checksum(Overhead(frame))
    ensures Decode(frame).Some? && !DecodePacket(frame).Ok? ==> DecodePacket(frame) == Err(ChecksumMismatch)
  {
    if Decode(frame).Some? {
      DecodeLength(frame);
      var d := Decode(frame).value;
      EndsInChecksumIff(d);
      EvenIff(frame);
    }
  }

  lemma {:induction false} EvenIff(frame: seq<byte>)
    requires Decode(frame).Some?
    ensures AllEven(Decode(frame).value) <==> Checksum(frame) == Checksum(Overhead(frame))
  {
    var d := Decode(frame).value;
    forall k: nat ensures Parity(d, k) == (Parity(frame, k) != Parity(Overhead(frame), k)) {
      ParityDecoded(frame, k);
    }
    SameChecksumIff(frame, Overhead(frame));
    if Checksum(frame) == Checksum(Overhead(frame)) {
      forall k: nat ensures !Parity(d, k) {
        assert Parity(frame, k) == Parity(Overhead(frame), k);
      }
    } else {
      var k: nat :| Parity(frame, k) != Parity(Overhead(frame), k);
      assert Parity(d, k);
    }
  }

  lemma {:induction false} ParityChange(data: seq<byte>, i: nat, b: byte, k: nat)
    requires i < |data|
    ensures Parity(data[i := b], k) == ((Parity(data, k) != Bit(data[i], k)) != Bit(b, k))
  {
    if Bit(data[i], k) == Bit(b, k) {
      SameParity(data, i, b, k);
    } else {
      ParityFlips(data, i, b, k);
    }
  }

  lemma {:induction false} SameParity(data: seq<byte>, i: nat, b: byte, k: nat)
    requires i < |data| && Bit(data[i], k) == Bit(b, k)
    ensures Parity(data[i := b], k) == Parity(data, k)
  {
    var n := |data| - 1;
    var changed := data[i := b];
    if i == n {
      assert changed[..n] == data[..n];
    } else {
      assert changed[..n] == data[..n][i := b];
      SameParity(data[..n], i, b, k);
    }
  }

  lemma {:induction false} ChecksumChange(data: seq<byte>, i: nat, b: byte)
    requires i < |data|
    ensures Checksum(data[i := b]) == Checksum([Checksum(data), data[i], b])
  {
    var three := [Checksum(data), data[i], b];
    forall k: nat ensures Parity(data[i := b], k) == Parity(three, k) {
      ParityChange(data, i, b, k);
      ChecksumBit(data, k);
      ParityOfOne(Checksum(data), k);
      ParitySnoc([Checksum(data)], data[i], k);
      ParitySnoc([Checksum(data)] + [data[i]], b, k);
      assert three == [Checksum(data)] + [data[i]] + [b];
    }
    SameChecksumIff(data[i := b], three);
  }

  /** One changed byte of an accepted frame, wherever it sits: the damaged frame is accepted if and only if it
      decodes and the XOR of its overhead bytes is that of the good frame's, the old and the new byte. */
  lemma {:induction false} DamageAcceptedIff(frame: seq<byte>, i: nat, b: byte)
    requires |frame| == FRAME_SIZE && i < FRAME_SIZE && DecodePacket(frame).Ok?
    ensures var bad := frame[i := b];
            DecodePacket(bad).Ok? <==>
            Decode(bad).Some? && Checksum(Overhead(bad)) == Checksum([Checksum(Overhead(frame)), frame[i], b])
  {
    AcceptedIff(frame);
    AcceptedIff(frame[i := b]);
    ChecksumChange(frame, i, b);
  }

  /** A nonzero change of a byte that is not an overhead byte alters neither the groups nor whether the frame
      decodes. */
  lemma {:induction false} DataChange(frame: seq<byte>, i: nat, b: byte)
    requires i < |frame| && b != 0 && Decode(frame).Some? && !IsOverhead(frame, i)
    ensures Decode(frame[i := b]).Some? && Overhead(frame[i := b]) == Overhead(frame)
    decreases |frame|
  {
    var c := frame[0];
    var bad := frame[i := b];
    if i < c {
      assert bad[c..] == frame[c..] && bad[1..c] == frame[1..c][i - 1 := b];
    } else {
      assert bad[1..c] == frame[1..c] && bad[c..] == frame[c..][i - c := b];
      DataChange(frame[c..], i - c, b);
    }
  }

  /** Every nonzero change of a byte that is not an overhead byte is reported as a checksum mismatch. */
  lemma {:induction false} DataDamageIsRejected(frame: seq<byte>, i: nat, b: byte)
    requires |frame| == FRAME_SIZE && i < FRAME_SIZE && DecodePacket(frame).Ok?
    requires !IsOverhead(frame, i) && b != 0 && b != frame[i]
    ensures DecodePacket(frame[i := b]) == Err(ChecksumMismatch)
  {
    var bad := frame[i := b];
    DataChange(frame, i, b);
    AcceptedIff(frame);
    AcceptedIff(bad);
    var k := DifferentBit(frame[i], b);
    ParityFlips(frame, i, b, k);
    SameChecksumIff(bad, frame);
  }

  /** Three bytes in front of others, one by one. */
  lemma {:induction false} Three(a: byte, b: byte, c: byte, x: seq<byte>)
    ensures [a, b, c] + x == [a] + ([b] + ([c] + x))
  {
  }

  /** A changed overhead byte that is not noticed: the frame of a message that starts with 1, 1, 0 is accepted as
      one that starts with three zeros when its first byte, 3, arrives as 1. */
  lemma {:induction false} OverheadDamageIsAccepted(rest: seq<byte>)
    requires |rest| == PACKET_SIZE - 2
    ensures var m: seq<byte> := [1, 1, 0] + rest;
            var frame := Encode(m + [Checksum(m)]);
            && |frame| == FRAME_SIZE && frame[0] == 3 && IsOverhead(frame, 0)
            && DecodePacket(frame) == Ok(m)
            && DecodePacket(frame[0 := 1]) == Ok([0, 0, 0] + rest)
  {
    var m: seq<byte>, other: seq<byte> := [1, 1, 0] + rest, [0, 0, 0] + rest;
    var tail := rest + [Checksum(m)];
    SameChecksum(rest);
    assert m + [Checksum(m)] == [1, 1, 0] + tail && other + [Checksum(other)] == [0, 0, 0] + tail;
    OneByteApart(tail);
    EncodedIsAccepted(m);
    EncodedIsAccepted(other);
  }

  lemma {:induction false} EncodedIsAccepted(m: seq<byte>)
    requires |m| == PACKET_SIZE + 1
    ensures |Encode(m + [Checksum(m)])| == FRAME_SIZE
    ensures DecodePacket(Encode(m + [Checksum(m)])) == Ok(m)
  {
    EncodeLength(m + [Checksum(m)]);
    AcceptedIffFrame(Encode(m + [Checksum(m)]), m);
  }

  lemma {:induction false} OneByteApart(tail: seq<byte>)
    ensures var frame := Encode([1, 1, 0] + tail);
            |frame| > 0 && frame[0] == 3 && frame[0 := 1] == Encode([0, 0, 0] + tail)
  {
    FrameOfOnes(tail);
    FrameOfZeros(tail);
    var code := Encode(tail);
    Three(3, 1, 1, code);
    Three(1, 1, 1, code);
    FirstByte(3, 1, [1] + ([1] + code));
  }

  lemma {:induction false} FirstByte(a: byte, b: byte, x: seq<byte>)
    ensures ([a] + x)[0] == a && ([a] + x)[0 := b] == [b] + x
  {
  }

  lemma {:induction false} FrameOfOnes(tail: seq<byte>)
    ensures Encode([1, 1, 0] + tail) == [3, 1, 1] + Encode(tail)
  {
    var group: seq<byte> := [1, 1];
    EncodeGroup(group, tail);
    Three(1, 1, 0, tail);
    Three(3, 1, 1, Encode(tail));
    assert group + [0] + tail == [1] + ([1] + ([0] + tail));
    assert [|group| + 1] + group + Encode(tail) == [3] + ([1] + ([1] + Encode(tail)));
  }

  lemma {:induction false} FrameOfZero(tail: seq<byte>)
    ensures Encode([0] + tail) == [1] + Encode(tail)
  {
    var group: seq<byte> := [];
    EncodeGroup(group, tail);
    assert group + [0] + tail == [0] + tail;
    assert [|group| + 1] + group + Encode(tail) == [1] + Encode(tail);
  }

  lemma {:induction false} FrameOfZeros(tail: seq<byte>)
    ensures Encode([0, 0, 0] + tail) == [1, 1, 1] + Encode(tail)
  {
    var one := [0] + tail;
    var two := [0] + one;
    FrameOfZero(tail);
    FrameOfZero(one);
    FrameOfZero(two);
    Three(0, 0, 0, tail);
    Three(1, 1, 1, Encode(tail));
  }

  lemma {:induction false} SameChecksum(rest: seq<byte>)
    ensures Checksum([1, 1, 0] + rest) == Checksum([0, 0, 0] + rest)
  {
    forall k: nat ensures Parity([1, 1, 0] + rest, k) == Parity([0, 0, 0] + rest, k) {
      ParityConcat([1, 1, 0], rest, k);
      ParityConcat([0, 0, 0], rest, k);
      ParityOfThree(1, 1, 0, k);
      ParityOfThree(0, 0, 0, k);
      ZeroHasNoBits(k);
    }
    SameChecksumIff([1, 1, 0] + rest, [0, 0, 0] + rest);
  }

  lemma {:induction false} ParityOfThree(a: byte, b: byte, c: byte, k: nat)
    ensures Parity([a, b, c], k) == ((Bit(a, k) != Bit(b, k)) != Bit(c, k))
  {
    ParityOfOne(a, k);
    ParitySnoc([a], b, k);
    ParitySnoc([a] + [b], c, k);
    assert [a, b, c] == [a] + [b] + [c];
  }

  // ---- What damage does to the stream ----

  /** Whatever the bytes of a frame turn into: a zero among them discards the frame, otherwise one read ends at its
      delimiter. Either way the messages after it are read as if nothing had happened. */
  lemma {:induction false} DamageStaysInFrame(bad: seq<byte>, more: seq<byte>)
    requires |bad| == FRAME_SIZE
    ensures 0 !in bad ==> ReadBytes([], bad + ([0] + more)) == (DecodePacket(bad), [0] + more)
    ensures 0 in bad ==> ReadBytes([], bad + ([0] + more)) == ReadBytes([], more)
  {
    if 0 !in bad {
      ReadFrame([], bad, [0] + more);
      assert [] + bad == bad;
    } else {
      var garbage := bad + [0];
      var z :| 0 <= z < |bad| && bad[z] == 0;
      forall i: nat | i <= |garbage| - FRAME_SIZE ensures ZeroWithin(garbage, i) {
        assert garbage[if i <= z then z else FRAME_SIZE] == 0;
      }
      assert [] + garbage == garbage && garbage + more == bad + ([0] + more);
      Resynchronise([], garbage, more);
    }
  }
}
