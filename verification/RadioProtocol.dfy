/** The per-robot protocol object: a stop-and-wait sender with a one-bit sequence number, and the
    reassembly buffer for response datagrams. `Host` is the value of the object's fields; the class at the
    end updates those fields in place and is specified by the functions on `Host`. */
module RadioProtocol {
  import opened Options
  import opened Datagrams
  import opened PacketCounter

  type Bit = b: int | 0 <= b <= 1

  datatype Header = Header(counter: nat, acknum: Bit)

  datatype Payload<T> = Payload(seqnum: Bit, chunk: Chunk<T>)

  /** A packet; the constructor is the header's datagram flag. */
  datatype Packet<T, R> =
    | Regular(header: Header, regular: R)
    | Datagram(header: Header, payload: Payload<T>)

  /** The reassembly buffer. */
  datatype Rx = Rx(tag: Option<ResponseType>, buf: seq<byte>)

  datatype Host = Host(
    counter: nat,
    datagramQueue: seq<CommandDatagram>,
    chunkQueue: seq<Chunk<CommandType>>,
    outstanding: Option<Payload<CommandType>>,
    cycles: nat,
    lastSent: Bit,
    lastReceived: Bit,
    rx: Rx)

  datatype RxResult<R> = RegularResult(regular: R) | DatagramResult(datagram: ResponseDatagram) | IncompleteDatagram

  const EMPTY_RX := Rx(None, [])
  const NEW_HOST := Host(0, [], [], None, 0, 1, 1, EMPTY_RX)

  function SaturatingIncrement(n: nat): nat {
    if n < 255 then n + 1 else 255
  }

  // ---- The operations on values ----

  function Queue(h: Host, d: CommandDatagram): Host {
    h.(datagramQueue := h.datagramQueue + [d])
  }

  /** Takes the next chunk, ingesting the next datagram when the chunk queue is empty. */
  function TakeChunk(h: Host): (r: (Host, Option<Chunk<CommandType>>))
    ensures r.1.None? <==> h.chunkQueue == [] && h.datagramQueue == []
  {
    if h.chunkQueue != [] then
      (h.(chunkQueue := h.chunkQueue[1..]), Some(h.chunkQueue[0]))
    else if h.datagramQueue != [] then
      var chunks := CommandChunks(h.datagramQueue[0]);
      (h.(datagramQueue := h.datagramQueue[1..], chunkQueue := chunks[1..]), Some(chunks[0]))
    else
      (h, None)
  }

  function Send<RC>(h0: Host, regular: RC): (Host, Packet<CommandType, RC>) {
    var header := Header(h0.counter, h0.lastReceived);
    var h := h0.(counter := (h0.counter + 1) % COUNTER_RANGE);
    if h.outstanding.Some? && h.cycles >= 1 then
      (h.(cycles := 0), Datagram(header, h.outstanding.value))
    else
      var (h', next) := TakeChunk(h);
      if h.outstanding.None? && next.Some? then
        var payload := Payload(1 - h.lastSent, next.value);
        (h'.(lastSent := 1 - h.lastSent, outstanding := Some(payload), cycles := 0), Datagram(header, payload))
      else
        (h.(cycles := SaturatingIncrement(h.cycles)), Regular(header, regular))
  }

  /** True when the packet acknowledges the outstanding chunk. */
  predicate Acks<RR>(h: Host, p: Packet<ResponseType, RR>) {
    h.outstanding.Some? && h.outstanding.value.seqnum == p.header.acknum
  }

  /** Feeds one received chunk to the reassembly buffer. */
  function Feed(rx: Rx, c: Chunk<ResponseType>): (r: (Rx, Option<ResponseDatagram>)) {
    var kept := if rx.tag.Some? && rx.tag.value != c.tag then [] else rx.buf;
    var buf := kept + c.data;
    if |buf| >= ResponseSize(c.tag) then (EMPTY_RX, ResponseFromBytes(c.tag, buf))
    else (Rx(Some(c.tag), buf), None)
  }

  function Receive<RR>(h0: Host, p: Packet<ResponseType, RR>): (Host, RxResult<RR>) {
    var h := if Acks(h0, p) then h0.(outstanding := None) else h0;
    match p
    case Regular(_, regular) => (h, RegularResult(regular))
    case Datagram(_, payload) =>
      var (rx, done) := Feed(h.rx, payload.chunk);
      (h.(lastReceived := payload.seqnum, rx := rx),
       if done.Some? then DatagramResult(done.value) else IncompleteDatagram)
  }

  // ---- What the operations keep ----

  /** All chunks still owed to the robot: the outstanding one, the queued ones, and those of queued datagrams. */
  function Pending(h: Host): seq<Chunk<CommandType>> {
    (if h.outstanding.Some? then [h.outstanding.value.chunk] else []) + h.chunkQueue + StreamOf(h.datagramQueue)
  }

  /** A reassembly buffer between packets. */
  predicate RxInv(rx: Rx) {
    && (rx.tag.None? <==> rx.buf == [])
    && (rx.tag.Some? ==> |rx.buf| % DATAGRAM_CHUNK_SIZE == 0 && |rx.buf| < ResponseSize(rx.tag.value))
  }

  predicate HostInv(h: Host) {
    && h.counter < COUNTER_RANGE
    && h.cycles <= 255
    && (h.outstanding.Some? ==> h.cycles <= 1 && h.outstanding.value.seqnum == h.lastSent)
    && RxInv(h.rx)
  }

  lemma SendKeepsPending<RC>(h: Host, regular: RC)
    ensures Pending(Send(h, regular).0) == Pending(h)
  {
    if h.chunkQueue == [] && h.datagramQueue != [] {
      var chunks := CommandChunks(h.datagramQueue[0]);
      assert [chunks[0]] + chunks[1..] == chunks;
    }
  }

  lemma QueueExtendsPending(h: Host, d: CommandDatagram)
    ensures Pending(Queue(h, d)) == Pending(h) + CommandChunks(d)
  {
    StreamAppend(h.datagramQueue, d);
  }

  lemma ReceiveShortensPending<RR>(h: Host, p: Packet<ResponseType, RR>)
    ensures Acks(h, p) ==> |Pending(h)| > 0 && Pending(h)[0] == h.outstanding.value.chunk
                           && Pending(Receive(h, p).0) == Pending(h)[1..]
    ensures !Acks(h, p) ==> Pending(Receive(h, p).0) == Pending(h)
  {
  }

  datatype HostOp<RC, RR> =
    | QueueOp(datagram: CommandDatagram)
    | SendOp(regular: RC)
    | ReceiveOp(packet: Packet<ResponseType, RR>)

  function ApplyOp<RC, RR>(h: Host, op: HostOp<RC, RR>): Host {
    match op
    case QueueOp(d) => Queue(h, d)
    case SendOp(regular) => Send(h, regular).0
    case ReceiveOp(p) => Receive(h, p).0
  }

  function RunOps<RC, RR>(h: Host, ops: seq<HostOp<RC, RR>>): Host
    decreases |ops|
  {
    if ops == [] then h else RunOps(ApplyOp(h, ops[0]), ops[1..])
  }

  lemma FeedKeepsRxInv(rx: Rx, c: Chunk<ResponseType>)
    requires RxInv(rx)
    ensures RxInv(Feed(rx, c).0)
    ensures |Feed(rx, c).0.buf| <= 81
  {
  }

  lemma OpKeepsHostInv<RC, RR>(h: Host, op: HostOp<RC, RR>)
    requires HostInv(h)
    ensures HostInv(ApplyOp(h, op))
  {
    if op.ReceiveOp? && op.packet.Datagram? {
      FeedKeepsRxInv(h.rx, op.packet.payload.chunk);
    }
  }

  /** On every run of calls with arbitrary packets (duplicated, stale or interleaved), the buffer's type is unset
      exactly when it is empty, it rests at a multiple of 27 bytes below the type's size, and at most 81. */
  lemma {:induction false} ReachableHostInv<RC, RR>(h: Host, ops: seq<HostOp<RC, RR>>)
    requires HostInv(h)
    ensures HostInv(RunOps(h, ops))
    ensures |RunOps(h, ops).rx.buf| <= 81
    decreases |ops|
  {
    if ops == [] {
    } else {
      OpKeepsHostInv(h, ops[0]);
      ReachableHostInv(ApplyOp(h, ops[0]), ops[1..]);
    }
  }

  function Sends<RC, RR>(ops: seq<HostOp<RC, RR>>): nat
    decreases |ops|
  {
    if |ops| == 0 then 0 else (if ops[0].SendOp? then 1 else 0) + Sends(ops[1..])
  }

  lemma OpCounter<RC, RR>(h: Host, op: HostOp<RC, RR>)
    ensures ApplyOp(h, op).counter == if op.SendOp? then (h.counter + 1) % COUNTER_RANGE else h.counter
  {
  }

  lemma {:induction false} RunCounter<RC, RR>(h: Host, ops: seq<HostOp<RC, RR>>)
    requires h.counter < COUNTER_RANGE
    ensures RunOps(h, ops).counter == (h.counter + Sends(ops)) % COUNTER_RANGE
    decreases |ops|
  {
    if |ops| == 0 {
    } else {
      OpCounter(h, ops[0]);
      RunCounter(ApplyOp(h, ops[0]), ops[1..]);
      if ops[0].SendOp? {
        ModuloAdd(h.counter + 1, Sends(ops[1..]));
      }
    }
  }

  /** The header counter numbers the sends modulo 64, whatever else happens in between. */
  lemma {:induction false} CounterNumbersSends<RC, RR>(h: Host, ops: seq<HostOp<RC, RR>>, regular: RC)
    requires HostInv(h)
    ensures Send(RunOps(h, ops), regular).1.header.counter == (h.counter + Sends(ops)) % 64
  {
    RunCounter(h, ops);
  }

  lemma {:induction false} RunSnoc<RC, RR>(h: Host, ops: seq<HostOp<RC, RR>>, op: HostOp<RC, RR>)
    ensures RunOps(h, ops + [op]) == ApplyOp(RunOps(h, ops), op)
    decreases |ops|
  {
    if |ops| == 0 {
      assert ops + [op] == [op] && [op][1..] == [];
    } else {
      assert (ops + [op])[1..] == ops[1..] + [op];
      RunSnoc(ApplyOp(h, ops[0]), ops[1..], op);
    }
  }

  predicate BringsDatagram<RC, RR>(op: HostOp<RC, RR>) {
    op.ReceiveOp? && op.packet.Datagram?
  }

  /** The i-th call received the last datagram packet so far. */
  predicate LastDatagram<RC, RR>(ops: seq<HostOp<RC, RR>>, i: nat) {
    i < |ops| && BringsDatagram(ops[i]) && forall j :: i < j < |ops| ==> !BringsDatagram(ops[j])
  }

  predicate NoDatagram<RC, RR>(ops: seq<HostOp<RC, RR>>) {
    forall i :: 0 <= i < |ops| ==> !BringsDatagram(ops[i])
  }

  /** The sequence number of the last received datagram packet, or 1 if there was none. */
  ghost predicate NamesLast<RC, RR>(ops: seq<HostOp<RC, RR>>, b: Bit) {
    && (forall i: nat :: LastDatagram(ops, i) ==> b == ops[i].packet.payload.seqnum)
    && (NoDatagram(ops) ==> b == 1)
  }

  lemma OpReceived<RC, RR>(h: Host, op: HostOp<RC, RR>)
    ensures ApplyOp(h, op).lastReceived ==
            if BringsDatagram(op) then op.packet.payload.seqnum else h.lastReceived
  {
  }

  lemma {:induction false} LastReceivedAlongRun<RC, RR>(h: Host, ops: seq<HostOp<RC, RR>>)
    ensures NoDatagram(ops) ==> RunOps(h, ops).lastReceived == h.lastReceived
    ensures forall i: nat :: LastDatagram(ops, i) ==> RunOps(h, ops).lastReceived == ops[i].packet.payload.seqnum
    decreases |ops|
  {
    if |ops| == 0 {
    } else {
      var n := |ops| - 1;
      var before, op := ops[..n], ops[n];
      LastReceivedAlongRun(h, before);
      assert ops == before + [op];
      RunSnoc(h, before, op);
      OpReceived(RunOps(h, before), op);
      forall i: nat | LastDatagram(ops, i)
        ensures RunOps(h, ops).lastReceived == ops[i].packet.payload.seqnum
      {
        assert i < n ==> LastDatagram(before, i);
      }
    }
  }

  /** The acknowledgement number in every header is the sequence number of the last received datagram packet, or 1 if
      there was none since the connection began. */
  lemma {:induction false} AcknumNamesLastDatagram<RC, RR>(ops: seq<HostOp<RC, RR>>, regular: RC)
    ensures NamesLast(ops, Send(RunOps(NEW_HOST, ops), regular).1.header.acknum)
  {
    LastReceivedAlongRun(NEW_HOST, ops);
  }

  /** True when no operation in the list acknowledges the outstanding chunk or sends a packet. */
  predicate Quiet<RC, RR>(h: Host, ops: seq<HostOp<RC, RR>>) {
    forall i :: 0 <= i < |ops| ==> ops[i].QueueOp? || (ops[i].ReceiveOp? && !Acks(h, ops[i].packet))
  }

  lemma {:induction false} QuietKeepsOutstanding<RC, RR>(h: Host, ops: seq<HostOp<RC, RR>>)
    requires Quiet(h, ops)
    ensures RunOps(h, ops).outstanding == h.outstanding && RunOps(h, ops).cycles == h.cycles
    decreases |ops|
  {
    if ops == [] {
    } else {
      var h' := ApplyOp(h, ops[0]);
      assert Quiet(h', ops[1..]);
      QuietKeepsOutstanding(h', ops[1..]);
    }
  }

  predicate Carries<RC>(p: Packet<CommandType, RC>, payload: Payload<CommandType>) {
    p.Datagram? && p.payload == payload
  }

  /** Resend schedule: of two consecutive sends with the same chunk outstanding and no acknowledgement
      in between, exactly one carries that chunk unchanged and the other carries the caller's regular data. */
  lemma {:induction false} ResendEverySecondCycle<RC, RR>(h: Host, r1: RC, between: seq<HostOp<RC, RR>>, r2: RC)
    requires HostInv(h) && h.outstanding.Some?
    requires Quiet(Send(h, r1).0, between)
    ensures var p := h.outstanding.value;
            var (h1, first) := Send(h, r1);
            var (h2, second) := Send(RunOps(h1, between), r2);
            && h2.outstanding == Some(p)
            && Carries(first, p) != Carries(second, p)
            && (!Carries(first, p) ==> first.Regular? && first.regular == r1)
            && (!Carries(second, p) ==> second.Regular? && second.regular == r2)
  {
    QuietKeepsOutstanding(Send(h, r1).0, between);
  }

  // ---- The object ----

  function Concat<T>(a: seq<T>, b: seq<T>): seq<T> {
    a + b
  }

  lemma ConcatMoves<T>(a: seq<T>, x: T, b: seq<T>)
    ensures Concat(a, [x] + b) == Concat(a + [x], b)
  {
    assert a + ([x] + b) == (a + [x]) + b;
  }

  class RadioProtocol2025<RC, RR> {
    var counter: nat
    var datagramQueue: seq<CommandDatagram>
    var datagramChunkQueue: seq<Chunk<CommandType>>
    var sentDatagramPacket: Option<Payload<CommandType>>
    var cyclesSinceDatagramSend: nat
    var seqnumLastSent: Bit
    var seqnumLastReceived: Bit
    var datagramRxType: Option<ResponseType>
    var datagramRxBuf: seq<byte>

    ghost function State(): Host
      reads this
    {
      Host(counter, datagramQueue, datagramChunkQueue, sentDatagramPacket, cyclesSinceDatagramSend,
           seqnumLastSent, seqnumLastReceived, Rx(datagramRxType, datagramRxBuf))
    }

    ghost predicate Valid()
      reads this
    {
      HostInv(State())
    }

    constructor ()
      ensures Valid() && State() == NEW_HOST
    {
      counter, cyclesSinceDatagramSend := 0, 0;
      datagramQueue, datagramChunkQueue, sentDatagramPacket := [], [], None;
      seqnumLastSent, seqnumLastReceived := 1, 1;
      datagramRxType, datagramRxBuf := None, [];
    }

    method GetNextDatagramChunk() returns (next: Option<Chunk<CommandType>>)
      modifies this`datagramQueue, this`datagramChunkQueue
      ensures (State(), next) == TakeChunk(old(State()))
    {
      if |datagramChunkQueue| > 0 {
        next := Some(datagramChunkQueue[0]);
        datagramChunkQueue := datagramChunkQueue[1..];
      } else if |datagramQueue| > 0 {
        var (datagramType, data) := CommandBytes(datagramQueue[0]);
        datagramQueue := datagramQueue[1..];
        PushChunks(datagramType, data);
        next := Some(datagramChunkQueue[0]);
        datagramChunkQueue := datagramChunkQueue[1..];
      } else {
        next := None;
      }
    }

    /** Pushes the zero-padded chunks of one datagram. */
    method PushChunks(datagramType: CommandType, data: seq<byte>)
      requires datagramChunkQueue == []
      modifies this`datagramChunkQueue
      ensures datagramChunkQueue == Split(datagramType, data)
    {
      if |data| == 0 {
        datagramChunkQueue := datagramChunkQueue + [Chunk(datagramType, Pad([]))];
      } else {
        var rest := data;
        while |rest| > 0
          invariant Concat(datagramChunkQueue, SplitNonempty(datagramType, rest)) == Split(datagramType, data)
          decreases |rest|
        {
          var n := if |rest| < DATAGRAM_CHUNK_SIZE then |rest| else DATAGRAM_CHUNK_SIZE;
          var chunk := Chunk(datagramType, Pad(rest[..n]));
          SplitStep(datagramType, rest, n);
          ConcatMoves(datagramChunkQueue, chunk, SplitNonempty(datagramType, rest[n..]));
          datagramChunkQueue := datagramChunkQueue + [chunk];
          rest := rest[n..];
        }
      }
    }

    method PacketReceived(packet: Packet<ResponseType, RR>) returns (result: RxResult<RR>)
      requires Valid()
      modifies this
      ensures Valid()
      ensures (State(), result) == Receive(old(State()), packet)
      ensures seqnumLastReceived == if packet.Datagram? then packet.payload.seqnum else old(seqnumLastReceived)
    {
      OpKeepsHostInv<RC, RR>(State(), ReceiveOp(packet));
      if sentDatagramPacket.Some? && sentDatagramPacket.value.seqnum == packet.header.acknum {
        sentDatagramPacket := None;
      }
      match packet
      case Datagram(_, payload) =>
        seqnumLastReceived := payload.seqnum;
        var datagramType := payload.chunk.tag;
        if datagramRxType.Some? && datagramRxType.value != datagramType {
          datagramRxBuf := [];
        }
        datagramRxType := Some(datagramType);
        datagramRxBuf := datagramRxBuf + payload.chunk.data;
        if |datagramRxBuf| >= ResponseSize(datagramType) {
          var full := ResponseFromBytes(datagramType, datagramRxBuf);
          datagramRxType, datagramRxBuf := None, [];
          result := DatagramResult(full.value);
        } else {
          result := IncompleteDatagram;
        }
      case Regular(_, regular) =>
        result := RegularResult(regular);
    }

    method QueueDatagram(datagram: CommandDatagram)
      requires Valid()
      modifies this`datagramQueue
      ensures Valid()
      ensures State() == Queue(old(State()), datagram)
      ensures Pending(State()) == Pending(old(State())) + CommandChunks(datagram)
    {
      QueueExtendsPending(State(), datagram);
      datagramQueue := datagramQueue + [datagram];
    }

    method NextPacket(regularData: RC) returns (packet: Packet<CommandType, RC>)
      requires Valid()
      modifies this
      ensures Valid()
      ensures (State(), packet) == Send(old(State()), regularData)
      ensures packet.header == Header(old(counter), old(seqnumLastReceived))
      ensures Pending(State()) == Pending(old(State()))
    {
      ghost var h := State();
      var header := Header(counter, seqnumLastReceived);
      counter := (counter + 1) % COUNTER_RANGE;
      if sentDatagramPacket.Some? && cyclesSinceDatagramSend >= 1 {
        // No acknowledgement within a cycle: resend the outstanding chunk
        cyclesSinceDatagramSend := 0;
        packet := Datagram(header, sentDatagramPacket.value);
      } else {
        var next := None;
        if sentDatagramPacket.None? {
          next := GetNextDatagramChunk();
        }
        if next.Some? {
          seqnumLastSent := 1 - seqnumLastSent;
          var payload := Payload(seqnumLastSent, next.value);
          sentDatagramPacket := Some(payload);
          cyclesSinceDatagramSend := 0;
          packet := Datagram(header, payload);
        } else {
          cyclesSinceDatagramSend := SaturatingIncrement(cyclesSinceDatagramSend);
          packet := Regular(header, regularData);
        }
      }
      assert (State(), packet) == Send(h, regularData);
      SendKeepsPending(h, regularData);
      OpKeepsHostInv<RC, RR>(h, SendOp(regularData));
    }
  }
}
