/** Datagrams, their sizes, and the fixed-size chunks they travel in.
    Packed structures (echo data, board ids, kick calibration) are carried as their packed bytes. */
module Datagrams {
  import opened Options

  const PAYLOAD_SIZE: nat := 28
  const DATAGRAM_CHUNK_SIZE: nat := PAYLOAD_SIZE - 1

  type ChunkData = s: seq<byte> | |s| == DATAGRAM_CHUNK_SIZE witness seq(DATAGRAM_CHUNK_SIZE, _ => 0)
  type EchoData = s: seq<byte> | |s| == 100 witness seq(100, _ => 0)
  type KickCalibration = s: seq<byte> | |s| == 55 witness seq(55, _ => 0)
  type BoardIds = s: seq<byte> | |s| == 84 witness seq(84, _ => 0)

  datatype CommandType = Echo | ReadRobotId | ReadBoardIds | ToggleKickCalibration | WriteKickCalibration

  datatype CommandDatagram =
    | EchoCommand(data: EchoData)
    | ReadRobotIdCommand
    | ReadBoardIdsCommand
    | ToggleKickCalibrationCommand(enable: bool)
    | WriteKickCalibrationCommand(calibration: KickCalibration)

  datatype ResponseType = EchoResponse | RobotIdResponse | BoardIdsResponse

  datatype ResponseDatagram =
    | EchoReply(data: EchoData)
    | RobotIdReply(id: byte)
    | BoardIdsReply(ids: BoardIds)

  /** One chunk: a type tag and exactly 27 bytes. */
  datatype Chunk<T> = Chunk(tag: T, data: ChunkData)

  function CommandSize(t: CommandType): nat {
    match t
    case Echo => 100
    case ReadRobotId => 0
    case ReadBoardIds => 0
    case ToggleKickCalibration => 1
    case WriteKickCalibration => 55
  }

  function ResponseSize(t: ResponseType): nat {
    match t
    case EchoResponse => 100
    case RobotIdResponse => 1
    case BoardIdsResponse => 84
  }

  /** The packed form of a command datagram; its length is the size listed for its type. */
  function CommandBytes(d: CommandDatagram): (r: (CommandType, seq<byte>))
    ensures |r.1| == CommandSize(r.0)
  {
    match d
    case EchoCommand(data) => (Echo, data)
    case ReadRobotIdCommand => (ReadRobotId, [])
    case ReadBoardIdsCommand => (ReadBoardIds, [])
    case ToggleKickCalibrationCommand(b) => (ToggleKickCalibration, [if b then 1 else 0])
    case WriteKickCalibrationCommand(c) => (WriteKickCalibration, c)
  }

  /** The robot's side: conversion of received bytes to a command; bytes past the datagram's size are ignored. */
  function CommandFromBytes(t: CommandType, data: seq<byte>): (r: Option<CommandDatagram>)
    ensures r.Some? <==> |data| >= CommandSize(t)
  {
    if |data| < CommandSize(t) then None
    else match t
      case Echo => Some(EchoCommand(data[..100]))
      case ReadRobotId => Some(ReadRobotIdCommand)
      case ReadBoardIds => Some(ReadBoardIdsCommand)
      case ToggleKickCalibration => Some(ToggleKickCalibrationCommand(data[0] != 0))
      case WriteKickCalibration => Some(WriteKickCalibrationCommand(data[..55]))
  }

  /** The robot can tell every command from its tag and bytes, whatever padding follows. */
  lemma CommandRoundTrip(d: CommandDatagram, padding: seq<byte>)
    ensures var (t, data) := CommandBytes(d); CommandFromBytes(t, data + padding) == Some(d)
  {
    var (t, data) := CommandBytes(d);
    assert (data + padding)[..|data|] == data;
  }

  /** The packed form of a response datagram, as a robot would send it. */
  function ResponseBytes(d: ResponseDatagram): (r: (ResponseType, seq<byte>))
    ensures |r.1| == ResponseSize(r.0)
  {
    match d
    case EchoReply(data) => (EchoResponse, data)
    case RobotIdReply(id) => (RobotIdResponse, [id])
    case BoardIdsReply(ids) => (BoardIdsResponse, ids)
  }

  /** Conversion of received bytes; bytes past the datagram's size are ignored.
      None stands for the conversion error. */
  function ResponseFromBytes(t: ResponseType, data: seq<byte>): (r: Option<ResponseDatagram>)
    ensures r.Some? <==> |data| >= ResponseSize(t)
    ensures r.Some? ==> ResponseBytes(r.value) == (t, data[..ResponseSize(t)])
  {
    assert |data| >= 1 ==> data[..1] == [data[0]];
    if |data| < ResponseSize(t) then None
    else match t
      case EchoResponse => Some(EchoReply(data[..100]))
      case RobotIdResponse => Some(RobotIdReply(data[0]))
      case BoardIdsResponse => Some(BoardIdsReply(data[..84]))
  }

  /** Appends zero bytes up to the chunk size. */
  function Pad(piece: seq<byte>): (r: ChunkData)
    requires |piece| <= DATAGRAM_CHUNK_SIZE
  {
    piece + seq(DATAGRAM_CHUNK_SIZE - |piece|, _ => 0)
  }

  /** How many chunks a datagram of the given size needs; an empty one still needs one. */
  function ChunkCount(size: nat): nat {
    if size == 0 then 1 else (size + DATAGRAM_CHUNK_SIZE - 1) / DATAGRAM_CHUNK_SIZE
  }

  function Split<T>(tag: T, data: seq<byte>): (r: seq<Chunk<T>>)
    ensures |r| == ChunkCount(|data|)
    ensures forall c <- r :: c.tag == tag
  {
    if |data| <= DATAGRAM_CHUNK_SIZE then [Chunk(tag, Pad(data))]
    else [Chunk(tag, data[..DATAGRAM_CHUNK_SIZE])] + Split(tag, data[DATAGRAM_CHUNK_SIZE..])
  }

  /** The bytes of some chunks, one after the other. */
  function Joined<T>(chunks: seq<Chunk<T>>): (r: seq<byte>)
    ensures |r| == DATAGRAM_CHUNK_SIZE * |chunks|
  {
    if |chunks| == 0 then [] else chunks[0].data + Joined(chunks[1..])
  }

  /** The chunks carry the data, followed by zeros only. */
  lemma {:induction false} SplitCarriesData<T>(tag: T, data: seq<byte>)
    ensures var bytes := Joined(Split(tag, data));
            && data <= bytes && forall i :: |data| <= i < |bytes| ==> bytes[i] == 0
    decreases |data|
  {
    var chunks := Split(tag, data);
    if |data| <= DATAGRAM_CHUNK_SIZE {
      assert Joined(chunks) == Pad(data) + Joined(chunks[1..]) == Pad(data);
    } else {
      var first, rest := data[..DATAGRAM_CHUNK_SIZE], data[DATAGRAM_CHUNK_SIZE..];
      SplitCarriesData(tag, rest);
      assert data == first + rest;
      assert chunks[1..] == Split(tag, rest) && Joined(chunks) == first + Joined(Split(tag, rest));
    }
  }

  /** The chunks of data that is not empty; of no data, none. */
  function SplitNonempty<T>(tag: T, data: seq<byte>): seq<Chunk<T>> {
    if |data| == 0 then [] else Split(tag, data)
  }

  lemma {:induction false} SplitStep<T>(tag: T, data: seq<byte>, n: nat)
    requires 0 < n <= |data|
    requires n == DATAGRAM_CHUNK_SIZE || (n == |data| && n < DATAGRAM_CHUNK_SIZE)
    ensures Split(tag, data) == [Chunk(tag, Pad(data[..n]))] + SplitNonempty(tag, data[n..])
  {
    assert n == |data| ==> data[..n] == data;
    assert n == DATAGRAM_CHUNK_SIZE ==> Pad(data[..n]) == data[..n];
  }

  function CommandChunks(d: CommandDatagram): (r: seq<Chunk<CommandType>>)
    ensures |r| > 0
  {
    Split(CommandBytes(d).0, CommandBytes(d).1)
  }

  function ResponseChunks(d: ResponseDatagram): (r: seq<Chunk<ResponseType>>)
    ensures |r| > 0
  {
    Split(ResponseBytes(d).0, ResponseBytes(d).1)
  }

  /** The chunk stream of a list of command datagrams. */
  function StreamOf(ds: seq<CommandDatagram>): seq<Chunk<CommandType>> {
    if ds == [] then [] else CommandChunks(ds[0]) + StreamOf(ds[1..])
  }

  lemma {:induction false} StreamConcat(a: seq<CommandDatagram>, b: seq<CommandDatagram>)
    ensures StreamOf(a + b) == StreamOf(a) + StreamOf(b)
  {
    if a == [] {
      assert a + b == b;
    } else {
      assert (a + b)[1..] == a[1..] + b;
      StreamConcat(a[1..], b);
    }
  }

  lemma {:induction false} StreamAppend(ds: seq<CommandDatagram>, d: CommandDatagram)
    ensures StreamOf(ds + [d]) == StreamOf(ds) + CommandChunks(d)
  {
    StreamConcat(ds, [d]);
    assert StreamOf([d]) == CommandChunks(d) + StreamOf([d][1..]);
  }

  // ---- The robot's side ----

  lemma CommandChunkCount(t: CommandType)
    ensures ChunkCount(CommandSize(t)) > 0 && CommandSize(t) <= DATAGRAM_CHUNK_SIZE * ChunkCount(CommandSize(t))
  {
  }

  /** What a robot makes of the chunks it has accepted: one command from every full group of a command's chunks. */
  function DecodeCommands(chunks: seq<Chunk<CommandType>>): seq<CommandDatagram>
    decreases |chunks|
  {
    if |chunks| == 0 then []
    else
      var t := chunks[0].tag;
      var k := ChunkCount(CommandSize(t));
      CommandChunkCount(t);
      if |chunks| < k then []
      else [CommandFromBytes(t, Joined(chunks[..k])).value] + DecodeCommands(chunks[k..])
  }

  lemma {:induction false} DecodeOne(d: CommandDatagram, rest: seq<Chunk<CommandType>>)
    ensures DecodeCommands(CommandChunks(d) + rest) == [d] + DecodeCommands(rest)
  {
    var (t, data) := CommandBytes(d);
    var chunks := CommandChunks(d);
    var stream := chunks + rest;
    SplitCarriesData(t, data);
    CommandRoundTrip(d, Joined(chunks)[|data|..]);
    assert Joined(chunks) == data + Joined(chunks)[|data|..];
    assert chunks[0] in chunks && stream[0] == chunks[0];
    assert stream[..|chunks|] == chunks && stream[|chunks|..] == rest;
  }

  lemma {:induction false} DecodePart(d: CommandDatagram, n: nat)
    requires n < |CommandChunks(d)|
    ensures DecodeCommands(CommandChunks(d)[..n]) == []
  {
    if n > 0 {
      assert CommandChunks(d)[..n][0] == CommandChunks(d)[0] && CommandChunks(d)[0] in CommandChunks(d);
    }
  }

  lemma PrefixOfSum<T>(a: seq<T>, b: seq<T>, n: nat)
    requires n <= |a| + |b|
    ensures (a + b)[..n] == if n < |a| then a[..n] else a + b[..n - |a|]
  {
  }

  lemma PrefixCons<T>(x: T, a: seq<T>, b: seq<T>)
    requires a <= b
    ensures [x] + a <= [x] + b
  {
  }

  /** The first n chunks of a stream decode to a prefix of its commands, and the whole stream to all of them. */
  lemma {:induction false} DecodePrefix(ds: seq<CommandDatagram>, n: nat)
    requires n <= |StreamOf(ds)|
    ensures DecodeCommands(StreamOf(ds)[..n]) <= ds
    ensures n == |StreamOf(ds)| ==> DecodeCommands(StreamOf(ds)[..n]) == ds
  {
    if ds == [] {
    } else {
      var first, rest := CommandChunks(ds[0]), StreamOf(ds[1..]);
      PrefixOfSum(first, rest, n);
      if n < |first| {
        DecodePart(ds[0], n);
      } else {
        var m := n - |first|;
        DecodePrefix(ds[1..], m);
        DecodeOne(ds[0], rest[..m]);
        PrefixCons(ds[0], DecodeCommands(rest[..m]), ds[1..]);
        assert ds == [ds[0]] + ds[1..];
      }
    }
  }
}
