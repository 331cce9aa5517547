/** Serial packets: an XOR checksum, COBS, and a zero delimiter. The reader resynchronises on every zero. */
module SerialFraming {
  import opened Options
  import opened Words
  import opened Cobs

  const PACKET_SIZE: nat := 29
  const FRAME_SIZE: nat := PACKET_SIZE + 3

  datatype Failure = TimedOut | PortFailed | InvalidCobs | ChecksumMismatch | EndOfInput

  datatype Result = Ok(packet: seq<byte>) | Err(failure: Failure)

  /** One attempt to read a byte. */
  datatype Read = Byte(b: byte) | NoData | Failed | DeadlinePassed

  lemma {:induction false} XorBelow(a: nat, b: nat, n: nat)
    requires a < ShiftLeft(1, n) && b < ShiftLeft(1, n)
    ensures Xor(a, b) < ShiftLeft(1, n)
  {
    if n == 0 {
    } else {
      XorBelow(a / 2, b / 2, n - 1);
    }
  }

  function Checksum(data: seq<byte>): byte {
    if |data| == 0 then 0
    else
      var n := |data| - 1;
      assert ShiftLeft(1, 8) == 256;
      XorBelow(Checksum(data[..n]), data[n], 8);
      Xor(Checksum(data[..n]), data[n])
  }

  function Frame(message: seq<byte>): seq<byte> {
    Encode(message + [Checksum(message)]) + [0]
  }

  function DecodePacket(frame: seq<byte>): Result
    requires 1 < |frame| < 255
  {
    match Decode(frame)
    case None => Err(InvalidCobs)
    case Some(decoded) =>
      DecodeLength(frame);
      var n := |decoded| - 1;
      if decoded[n] != Checksum(decoded[..n]) then Err(ChecksumMismatch) else Ok(decoded[..n])
  }

  /** Reading one packet with some bytes already collected; also returns the input left over. */
  function ReadPacket(buffer: seq<byte>, input: seq<Read>): (Result, seq<Read>)
    requires |buffer| <= FRAME_SIZE
    decreases |input|
  {
    if |buffer| == FRAME_SIZE then (DecodePacket(buffer), input)
    else if |input| == 0 then (Err(EndOfInput), [])
    else
      match input[0]
      case DeadlinePassed => (Err(TimedOut), input[1..])
      case Failed => (Err(PortFailed), input[1..])
      case NoData => ReadPacket(buffer, input[1..])
      case Byte(b) => ReadPacket(if b == 0 then [] else buffer + [b], input[1..])
  }

  class SerialPort {
    var incoming: seq<Read>
    var outgoing: seq<byte>

    constructor (incoming: seq<Read>)
      ensures this.incoming == incoming && outgoing == []
    {
      this.incoming, outgoing := incoming, [];
    }
  }

  method WriteSerialPacket(port: SerialPort, data: seq<byte>)
    modifies port`outgoing
    ensures port.outgoing == old(port.outgoing) + Frame(data)
  {
    var bytes := data + [Checksum(data)];
    var encoded := Encode(bytes);
    encoded := encoded + [0];
    port.outgoing := port.outgoing + encoded;
  }

  method ReadSerialPacket(port: SerialPort) returns (r: Result)
    modifies port`incoming
    ensures (r, port.incoming) == ReadPacket([], old(port.incoming))
  {
    var packetBuffer: seq<byte> := [];
    while |packetBuffer| < FRAME_SIZE
      invariant |packetBuffer| <= FRAME_SIZE
      invariant ReadPacket(packetBuffer, port.incoming) == ReadPacket([], old(port.incoming))
      decreases |port.incoming|
    {
      if |port.incoming| == 0 {
        return Err(EndOfInput);
      }
      var next := port.incoming[0];
      port.incoming := port.incoming[1..];
      match next
      case DeadlinePassed => return Err(TimedOut);
      case Failed => return Err(PortFailed);
      case NoData =>
      case Byte(b) =>
        if b == 0 {
          packetBuffer := [];
        } else {
          packetBuffer := packetBuffer + [b];
        }
    }
    var decoded := Decode(packetBuffer);
    if decoded.None? {
      return Err(InvalidCobs);
    }
    DecodeLength(packetBuffer);
    var n := |decoded.value| - 1;
    var calcChecksum := Checksum(decoded.value[..n]);
    if decoded.value[n] != calcChecksum {
      return Err(ChecksumMismatch);
    }
    r := Ok(decoded.value[..n]);
  }

  // ---- Which frames are accepted ----

  /** A full buffer is accepted as message m exactly when it is the encoding of m and its checksum. */
  lemma {:induction false} AcceptedIffFrame(frame: seq<byte>, m: seq<byte>)
    requires |frame| == FRAME_SIZE
    ensures DecodePacket(frame) == Ok(m) <==> frame == Encode(m + [Checksum(m)])
  {
    if DecodePacket(frame) == Ok(m) {
      AcceptedDecodes(frame, m);
    }
    if frame == Encode(m + [Checksum(m)]) {
      FrameDecodes(frame, m);
    }
  }

  lemma {:induction false} AcceptedContents(frame: seq<byte>, m: seq<byte>)
    requires |frame| == FRAME_SIZE && DecodePacket(frame) == Ok(m)
    ensures Decode(frame) == Some(m + [Checksum(m)])
  {
    DecodeLength(frame);
    var d := Decode(frame).value;
    var n := |d| - 1;
    assert d == d[..n] + [d[n]];
  }

  lemma {:induction false} AcceptedDecodes(frame: seq<byte>, m: seq<byte>)
    requires |frame| == FRAME_SIZE && DecodePacket(frame) == Ok(m)
    ensures frame == Encode(m + [Checksum(m)])
  {
    AcceptedContents(frame, m);
    DecodeIsInverse(frame);
  }

  lemma {:induction false} FrameDecodes(frame: seq<byte>, m: seq<byte>)
    requires |frame| == FRAME_SIZE && frame == Encode(m + [Checksum(m)])
    ensures DecodePacket(frame) == Ok(m)
  {
    var data := m + [Checksum(m)];
    RoundTrip(data);
    assert data[..|m|] == m && data[|m|] == Checksum(m);
  }

  /** Whether an odd number of the bytes have bit k set. */
  predicate Parity(data: seq<byte>, k: nat) {
    if |data| == 0 then false else Parity(data[..|data| - 1], k) != Bit(data[|data| - 1], k)
  }

  lemma {:induction false} ChecksumBit(data: seq<byte>, k: nat)
    ensures Bit(Checksum(data), k) == Parity(data, k)
  {
    if |data| == 0 {
      ZeroHasNoBits(k);
    } else {
      var n := |data| - 1;
      ChecksumBit(data[..n], k);
      BitwiseBit((x, y) => x != y, Checksum(data[..n]), data[n], k);
    }
  }

  lemma {:induction false} DifferentBit(a: nat, b: nat) returns (k: nat)
    requires a != b
    ensures Bit(a, k) != Bit(b, k)
    decreases a + b
  {
    if a % 2 != b % 2 {
      k := 0;
    } else {
      k := DifferentBit(a / 2, b / 2);
      k := k + 1;
    }
  }

  lemma {:induction false} ParityFlips(data: seq<byte>, i: nat, b: byte, k: nat)
    requires i < |data| && Bit(data[i], k) != Bit(b, k)
    ensures Parity(data[i := b], k) != Parity(data, k)
  {
    var n := |data| - 1;
    var changed := data[i := b];
    if i == n {
      assert changed[..n] == data[..n];
    } else {
      assert changed[..n] == data[..n][i := b];
      ParityFlips(data[..n], i, b, k);
    }
  }

  /** Changing any one byte of a message or of its checksum is detected. */
  lemma OneByteDamageIsRejected(m: seq<byte>, i: nat, b: byte)
    requires |m| == PACKET_SIZE + 1 && i <= |m|
    requires b != (m + [Checksum(m)])[i]
    ensures |Encode((m + [Checksum(m)])[i := b])| == FRAME_SIZE
    ensures DecodePacket(Encode((m + [Checksum(m)])[i := b])) == Err(ChecksumMismatch)
  {
    var good := m + [Checksum(m)];
    var bad := good[i := b];
    EncodeLength(bad);
    RoundTrip(bad);
    if i == |m| {
      assert bad[..|m|] == m;
    } else {
      assert bad[..|m|] == m[i := b];
      var k := DifferentBit(m[i], b);
      ParityFlips(m, i, b, k);
      ChecksumBit(m, k);
      ChecksumBit(m[i := b], k);
    }
  }

  // ---- Streams ----

  /** An input that delivers bytes, possibly with pauses, and neither fails nor runs into a deadline. */
  predicate Delivers(input: seq<Read>) {
    forall i :: 0 <= i < |input| ==> input[i].Byte? || input[i].NoData?
  }

  function BytesOf(input: seq<Read>): seq<byte> {
    if |input| == 0 then [] else (if input[0].Byte? then [input[0].b] else []) + BytesOf(input[1..])
  }

  /** ReadPacket on plain bytes. */
  function ReadBytes(buffer: seq<byte>, bytes: seq<byte>): (Result, seq<byte>)
    requires |buffer| <= FRAME_SIZE
    decreases |bytes|
  {
    if |buffer| == FRAME_SIZE then (DecodePacket(buffer), bytes)
    else if |bytes| == 0 then (Err(EndOfInput), [])
    else ReadBytes(if bytes[0] == 0 then [] else buffer + [bytes[0]], bytes[1..])
  }

  lemma {:induction false} BytesRest(input: seq<Read>)
    requires |input| > 0
    ensures input[0].Byte? ==> BytesOf(input) == [input[0].b] + BytesOf(input[1..])
    ensures !input[0].Byte? ==> BytesOf(input) == BytesOf(input[1..])
  {
  }

  lemma {:induction false} ReadByte(buffer: seq<byte>, b: byte, rest: seq<byte>)
    requires |buffer| < FRAME_SIZE
    ensures ReadBytes(buffer, [b] + rest) == ReadBytes(if b == 0 then [] else buffer + [b], rest)
  {
    assert ([b] + rest)[1..] == rest;
  }

  lemma {:induction false} PausesDoNotMatter(buffer: seq<byte>, input: seq<Read>)
    requires |buffer| <= FRAME_SIZE && Delivers(input)
    ensures var (r, rest) := ReadPacket(buffer, input);
            Delivers(rest) && ReadBytes(buffer, BytesOf(input)) == (r, BytesOf(rest))
    decreases |input|
  {
    if |buffer| == FRAME_SIZE || |input| == 0 {
    } else {
      assert Delivers(input[1..]);
      BytesRest(input);
      if input[0].Byte? {
        var b := input[0].b;
        ReadByte(buffer, b, BytesOf(input[1..]));
        PausesDoNotMatter(if b == 0 then [] else buffer + [b], input[1..]);
      } else {
        PausesDoNotMatter(buffer, input[1..]);
      }
    }
  }

  predicate ZeroWithin(s: seq<byte>, i: nat)
    requires i + FRAME_SIZE <= |s|
  {
    exists k :: i <= k < i + FRAME_SIZE && s[k] == 0
  }

  /** No 32 consecutive nonzero bytes. */
  predicate NoLongRun(s: seq<byte>) {
    forall i: nat :: i <= |s| - FRAME_SIZE ==> ZeroWithin(s, i)
  }

  lemma {:induction false} Resynchronise(buffer: seq<byte>, garbage: seq<byte>, bytes: seq<byte>)
    requires |buffer| < FRAME_SIZE && 0 !in buffer && NoLongRun(buffer + garbage)
    requires |garbage| > 0 && garbage[|garbage| - 1] == 0
    ensures ReadBytes(buffer, garbage + bytes) == ReadBytes([], bytes)
    decreases |garbage|
  {
    var stream := garbage + bytes;
    assert stream[1..] == garbage[1..] + bytes;
    if |garbage| == 1 {
      assert garbage[1..] + bytes == bytes;
    } else if garbage[0] == 0 {
      SuffixNoLongRun(buffer + garbage, |buffer| + 1);
      assert (buffer + garbage)[|buffer| + 1..] == [] + garbage[1..];
      Resynchronise([], garbage[1..], bytes);
    } else {
      var more := buffer + [garbage[0]];
      assert more + garbage[1..] == buffer + garbage;
      assert |more| < FRAME_SIZE by {
        assert forall k :: 0 <= k < |more| ==> (buffer + garbage)[k] == more[k] && more[k] in more;
        assert |buffer + garbage| >= FRAME_SIZE ==> ZeroWithin(buffer + garbage, 0);
      }
      Resynchronise(more, garbage[1..], bytes);
    }
  }

  lemma SuffixNoLongRun(s: seq<byte>, k: nat)
    requires NoLongRun(s) && k <= |s|
    ensures NoLongRun(s[k..])
  {
    forall i: nat | i <= |s[k..]| - FRAME_SIZE ensures ZeroWithin(s[k..], i) {
      assert ZeroWithin(s, k + i);
      var j :| k + i <= j < k + i + FRAME_SIZE && s[j] == 0;
      assert s[k..][j - k] == 0;
    }
  }

  /** A zero byte empties the buffer, so what was collected before it no longer counts. */
  lemma RunAfterZero(buffer: seq<byte>, rest: seq<byte>)
    requires |buffer| < FRAME_SIZE
    ensures NoLongRun(buffer + ([0] + rest)) <==> NoLongRun(rest)
  {
    var s := buffer + ([0] + rest);
    assert s[|buffer|] == 0 && s[|buffer| + 1..] == rest;
    if NoLongRun(s) {
      SuffixNoLongRun(s, |buffer| + 1);
    }
    if NoLongRun(rest) {
      forall i: nat | i <= |s| - FRAME_SIZE ensures ZeroWithin(s, i) {
        if i > |buffer| {
          var j := i - (|buffer| + 1);
          assert ZeroWithin(rest, j);
          var k :| j <= k < j + FRAME_SIZE && rest[k] == 0;
          assert s[k + |buffer| + 1] == 0;
        }
      }
    }
  }

  lemma LongRunFills(buffer: seq<byte>, rest: seq<byte>)
    requires |buffer| == FRAME_SIZE && 0 !in buffer
    ensures !NoLongRun(buffer + rest)
  {
    var s := buffer + rest;
    assert forall k :: 0 <= k < FRAME_SIZE ==> s[k] == buffer[k] && buffer[k] in buffer;
    assert !ZeroWithin(s, 0);
  }

  /** A failing port or a passed deadline, and the error each of them is reported as. */
  predicate Fails(e: Read, failure: Failure) {
    (e.Failed? && failure == PortFailed) || (e.DeadlinePassed? && failure == TimedOut)
  }

  /** The first failure or passed deadline ends a read with its own error, unless 32 nonzero bytes came in a row before
      it: then the read is over already, with the same result as without it. */
  lemma {:induction false} FirstFailureEndsRead(buffer: seq<byte>, quiet: seq<Read>, e: Read, failure: Failure,
                                                rest: seq<Read>)
    requires |buffer| < FRAME_SIZE && 0 !in buffer && Delivers(quiet) && Fails(e, failure)
    ensures var (r, left) := ReadPacket(buffer, quiet + ([e] + rest));
            if NoLongRun(buffer + BytesOf(quiet)) then r == Err(failure) && left == rest
            else r == ReadPacket(buffer, quiet).0
    decreases |quiet|
  {
    var input := quiet + ([e] + rest);
    if |quiet| == 0 {
      assert buffer + BytesOf(quiet) == buffer;
      assert input[0] == e && input[1..] == rest;
    } else {
      assert input[0] == quiet[0] && input[1..] == quiet[1..] + ([e] + rest);
      assert Delivers(quiet[1..]);
      BytesRest(quiet);
      if quiet[0].NoData? {
        FirstFailureEndsRead(buffer, quiet[1..], e, failure, rest);
      } else if quiet[0].b == 0 {
        RunAfterZero(buffer, BytesOf(quiet[1..]));
        assert [] + BytesOf(quiet[1..]) == BytesOf(quiet[1..]);
        FirstFailureEndsRead([], quiet[1..], e, failure, rest);
      } else {
        var more := buffer + [quiet[0].b];
        assert more + BytesOf(quiet[1..]) == buffer + ([quiet[0].b] + BytesOf(quiet[1..]));
        if |more| == FRAME_SIZE {
          LongRunFills(more, BytesOf(quiet[1..]));
        } else {
          FirstFailureEndsRead(more, quiet[1..], e, failure, rest);
        }
      }
    }
  }

  lemma {:induction false} ReadFrame(buffer: seq<byte>, frame: seq<byte>, bytes: seq<byte>)
    requires |buffer| + |frame| == FRAME_SIZE && 0 !in frame
    ensures ReadBytes(buffer, frame + bytes) == (DecodePacket(buffer + frame), bytes)
    decreases |frame|
  {
    if |frame| == 0 {
      assert buffer + frame == buffer && frame + bytes == bytes;
    } else {
      assert frame[0] in frame;
      assert (frame + bytes)[1..] == frame[1..] + bytes;
      assert (buffer + [frame[0]]) + frame[1..] == buffer + frame;
      ReadFrame(buffer + [frame[0]], frame[1..], bytes);
    }
  }

  function Frames(messages: seq<seq<byte>>): seq<byte> {
    if |messages| == 0 then [] else Frame(messages[0]) + Frames(messages[1..])
  }

  /** n reads in a row. */
  function ReadMany(input: seq<Read>, n: nat): seq<Result>
    decreases n
  {
    if n == 0 then [] else var (r, rest) := ReadPacket([], input); [r] + ReadMany(rest, n - 1)
  }

  /** Garbage the reader recovers from: nothing, or anything that ends in a zero and has no 32 nonzero bytes in a
      row. */
  predicate Recoverable(garbage: seq<byte>) {
    |garbage| == 0 || (garbage[|garbage| - 1] == 0 && NoLongRun(garbage))
  }

  /** One read over a frame, after recoverable garbage; the frame's delimiter is left for the next read. */
  lemma {:induction false} ReadOne(garbage: seq<byte>, m: seq<byte>, more: seq<byte>)
    requires |m| == PACKET_SIZE + 1 && Recoverable(garbage)
    ensures ReadBytes([], garbage + (Frame(m) + more)) == (Ok(m), [0] + more)
  {
    var data := m + [Checksum(m)];
    var body := Encode(data);
    EncodeLength(data);
    EncodeHasNoZero(data);
    assert Frame(m) + more == body + ([0] + more);
    if |garbage| > 0 {
      assert [] + garbage == garbage;
      Resynchronise([], garbage, body + ([0] + more));
    } else {
      assert garbage + (Frame(m) + more) == body + ([0] + more);
    }
    ReadFrame([], body, [0] + more);
    assert [] + body == body;
    AcceptedIffFrame(body, m);
  }

  /** One read over such a stream returns its first message and leaves the stream of the others. */
  lemma {:induction false} ReadFirst(garbage: seq<byte>, messages: seq<seq<byte>>, input: seq<Read>)
    requires |messages| > 0 && |messages[0]| == PACKET_SIZE + 1
    requires Recoverable(garbage) && Delivers(input) && BytesOf(input) == garbage + Frames(messages)
    ensures var (r, rest) := ReadPacket([], input);
            r == Ok(messages[0]) && Delivers(rest) && BytesOf(rest) == [0] + Frames(messages[1..])
  {
    ReadOne(garbage, messages[0], Frames(messages[1..]));
    PausesDoNotMatter([], input);
  }

  function Oks(messages: seq<seq<byte>>): seq<Result> {
    seq(|messages|, i requires 0 <= i < |messages| => Ok(messages[i]))
  }

  /** Serial stream round trip: after any recoverable garbage, and however the bytes are spaced out in time,
      repeated reads over the frames of any list of 30-byte messages return exactly that list, in order. */
  lemma {:induction false} StreamRoundTrip(garbage: seq<byte>, messages: seq<seq<byte>>, input: seq<Read>)
    requires forall m <- messages :: |m| == 30
    requires Recoverable(garbage) && Delivers(input) && BytesOf(input) == garbage + Frames(messages)
    ensures ReadMany(input, |messages|) == Oks(messages)
    decreases |messages|
  {
    if |messages| == 0 {
    } else {
      var rest := ReadPacket([], input).1;
      ReadFirst(garbage, messages, input);
      ZeroIsRecoverable();
      StreamRoundTrip([0], messages[1..], rest);
      OksStep(messages);
    }
  }

  lemma OksStep(messages: seq<seq<byte>>)
    requires |messages| > 0
    ensures Oks(messages) == [Ok(messages[0])] + Oks(messages[1..])
  {
  }

  lemma ZeroIsRecoverable()
    ensures Recoverable([0])
  {
  }
}
