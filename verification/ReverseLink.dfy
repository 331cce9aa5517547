/** The other direction of the link: the chunks of a robot's responses. The robot sends them one at a time under
    alternating numbers, the first one under 0, may repeat the outstanding one whenever it likes, and drops it when a
    header of the host names its number. The host takes every chunk without comparing numbers. `queued`, `dropped`,
    `received` and `handedOut` record history. */
module ReverseLink {
  import opened Options
  import opened Datagrams
  import opened RadioProtocol
  import opened LossyLink
  import opened Reassembly

  datatype Sender = Sender(
    lastSent: Bit,
    outstanding: Option<Payload<ResponseType>>,
    queue: seq<Chunk<ResponseType>>)

  datatype Uplink<RC, RR> = Uplink(
    robot: Sender,
    host: Host,
    toHost: seq<Packet<ResponseType, RR>>,
    toRobot: seq<Packet<CommandType, RC>>,
    queued: seq<Chunk<ResponseType>>,         // all chunks ever queued at the robot
    dropped: seq<Chunk<ResponseType>>,        // those it has dropped as acknowledged
    received: seq<Payload<ResponseType>>,     // the datagram packets the host has received
    handedOut: seq<ResponseDatagram>)         // what the host has made of them

  /** One atomic step. A step that is not enabled changes nothing. */
  datatype Move<RC, RR> =
    | QueueResponse(response: ResponseDatagram)
    | RobotSendsRegular(header: Header, answer: RR)
    | RobotSendsChunk(header: Header)  // the outstanding chunk again, or the next one
    | HostTakes
    | HostQueues(datagram: CommandDatagram)
    | HostSends(regular: RC)
    | RobotTakes
    | LoseUp(at: nat)
    | RepeatUp(at: nat)
    | LoseDown(at: nat)
    | RepeatDown(at: nat)

  function NewUplink<RC, RR>(): Uplink<RC, RR> {
    Uplink(Sender(1, None, []), NEW_HOST, [], [], [], [], [], [])
  }

  /** The robot's next datagram packet. */
  function NextChunk(r: Sender): (Sender, Option<Payload<ResponseType>>) {
    if r.outstanding.Some? || |r.queue| == 0 then (r, r.outstanding)
    else
      var payload := Payload(1 - r.lastSent, r.queue[0]);
      (Sender(1 - r.lastSent, Some(payload), r.queue[1..]), Some(payload))
  }

  predicate AckedBy<RC>(r: Sender, p: Packet<CommandType, RC>) {
    r.outstanding.Some? && p.header.acknum == r.outstanding.value.seqnum
  }

  function Moved<RC, RR>(s: Uplink<RC, RR>, m: Move<RC, RR>): Uplink<RC, RR> {
    match m
    case QueueResponse(d) =>
      s.(robot := s.robot.(queue := s.robot.queue + ResponseChunks(d)), queued := s.queued + ResponseChunks(d))
    case RobotSendsRegular(header, answer) => s.(toHost := s.toHost + [Regular(header, answer)])
    case RobotSendsChunk(header) =>
      var (r, payload) := NextChunk(s.robot);
      s.(robot := r, toHost := if payload.Some? then s.toHost + [Datagram(header, payload.value)] else s.toHost)
    case HostTakes =>
      if |s.toHost| == 0 then s
      else
        var p := s.toHost[0];
        var (h, result) := Receive(s.host, p);
        s.(host := h, toHost := s.toHost[1..],
           received := if p.Datagram? then s.received + [p.payload] else s.received,
           handedOut := if result.DatagramResult? then s.handedOut + [result.datagram] else s.handedOut)
    case HostQueues(d) => s.(host := Queue(s.host, d))
    case HostSends(regular) =>
      var (h, p) := Send(s.host, regular);
      s.(host := h, toRobot := s.toRobot + [p])
    case RobotTakes =>
      if |s.toRobot| == 0 then s
      else if AckedBy(s.robot, s.toRobot[0]) then
        s.(robot := s.robot.(outstanding := None), toRobot := s.toRobot[1..],
           dropped := s.dropped + [s.robot.outstanding.value.chunk])
      else s.(toRobot := s.toRobot[1..])
    case LoseUp(at) => s.(toHost := Without(s.toHost, at))
    case RepeatUp(at) => s.(toHost := Repeated(s.toHost, at))
    case LoseDown(at) => s.(toRobot := Without(s.toRobot, at))
    case RepeatDown(at) => s.(toRobot := Repeated(s.toRobot, at))
  }

  function RunMoves<RC, RR>(s: Uplink<RC, RR>, moves: seq<Move<RC, RR>>): Uplink<RC, RR>
    decreases |moves|
  {
    if |moves| == 0 then s else RunMoves(Moved(s, moves[0]), moves[1..])
  }

  // ---- What a receiver that compares numbers would keep ----

  /** The i-th packet has another number than the one before it; the first one counts as following number 1. */
  predicate IsNew(ps: seq<Payload<ResponseType>>, i: nat)
    requires i < |ps|
  {
    ps[i].seqnum != if i == 0 then 1 else ps[i - 1].seqnum
  }

  /** Every chunk once: those that came under a new number. */
  function Once(ps: seq<Payload<ResponseType>>): seq<Chunk<ResponseType>> {
    if |ps| == 0 then []
    else
      var n := |ps| - 1;
      Once(ps[..n]) + if IsNew(ps, n) then [ps[n].chunk] else []
  }

  /** How often each of them came. */
  function Counts(ps: seq<Payload<ResponseType>>): (counts: seq<nat>)
    ensures |counts| == |Once(ps)|
  {
    if |ps| == 0 then []
    else
      var n := |ps| - 1;
      var before := Counts(ps[..n]);
      if IsNew(ps, n) then before + [1]
      else if |before| == 0 then before
      else before[|before| - 1 := before[|before| - 1] + 1]
  }

  function ChunksOf(ps: seq<Payload<ResponseType>>): (r: seq<Chunk<ResponseType>>)
    ensures |r| == |ps|
  {
    seq(|ps|, i requires 0 <= i < |ps| => ps[i].chunk)
  }

  /** A packet that is not new is a copy of the one before it. */
  predicate OnlyRepeats(ps: seq<Payload<ResponseType>>) {
    forall i: nat :: i < |ps| && !IsNew(ps, i) ==> i > 0 && ps[i] == ps[i - 1]
  }

  lemma {:induction false} OnlyRepeatsPrefix(ps: seq<Payload<ResponseType>>, n: nat)
    requires OnlyRepeats(ps) && n <= |ps|
    ensures OnlyRepeats(ps[..n])
  {
    forall i: nat | i < n && !IsNew(ps[..n], i) ensures i > 0 && ps[..n][i] == ps[..n][i - 1] {
      assert !IsNew(ps, i);
    }
  }

  lemma {:induction false} OnlyRepeatsExtend(ps: seq<Payload<ResponseType>>, p: Payload<ResponseType>)
    requires OnlyRepeats(ps)
    requires p.seqnum != (if |ps| == 0 then 1 else ps[|ps| - 1].seqnum) || (|ps| > 0 && p == ps[|ps| - 1])
    ensures OnlyRepeats(ps + [p])
  {
    var more := ps + [p];
    forall i: nat | i < |more| && !IsNew(more, i) ensures i > 0 && more[i] == more[i - 1] {
      assert i < |ps| ==> !IsNew(ps, i);
    }
  }

  lemma {:induction false} OnceExtend(ps: seq<Payload<ResponseType>>, p: Payload<ResponseType>)
    ensures Once(ps + [p]) ==
            Once(ps) + if p.seqnum != (if |ps| == 0 then 1 else ps[|ps| - 1].seqnum) then [p.chunk] else []
  {
    assert (ps + [p])[..|ps|] == ps;
  }

  lemma {:induction false} RepeatAppend(chunks: seq<Chunk<ResponseType>>, counts: seq<nat>, c: Chunk<ResponseType>,
                                        count: nat)
    requires |counts| == |chunks|
    ensures Repeat(chunks + [c], counts + [count]) == Repeat(chunks, counts) + seq(count, _ => c)
  {
    if |chunks| == 0 {
      assert Repeat([c][1..], [count][1..]) == [];
      assert chunks + [c] == [c] && counts + [count] == [count];
    } else {
      assert (chunks + [c])[1..] == chunks[1..] + [c] && (counts + [count])[1..] == counts[1..] + [count];
      RepeatAppend(chunks[1..], counts[1..], c, count);
    }
  }

  lemma {:induction false} RepeatOneMore(chunks: seq<Chunk<ResponseType>>, counts: seq<nat>, c: Chunk<ResponseType>,
                                         count: nat)
    requires |counts| == |chunks|
    ensures Repeat(chunks + [c], counts + [count + 1]) == Repeat(chunks + [c], counts + [count]) + [c]
  {
    RepeatAppend(chunks, counts, c, count);
    RepeatAppend(chunks, counts, c, count + 1);
    assert seq(count + 1, _ => c) == seq(count, _ => c) + [c];
  }

  /** Chunks that are some others, each repeated on the spot; the last of them is c. */
  ghost predicate Repeats(all: seq<Chunk<ResponseType>>, once: seq<Chunk<ResponseType>>, counts: seq<nat>,
                          c: Chunk<ResponseType>) {
    && |counts| == |once| > 0 && once[|once| - 1] == c
    && EachArrives(counts) && all == Repeat(once, counts)
  }

  lemma {:induction false} NewChunk(all: seq<Chunk<ResponseType>>, once: seq<Chunk<ResponseType>>, counts: seq<nat>,
                                    c: Chunk<ResponseType>)
    requires |counts| == |once| && EachArrives(counts) && all == Repeat(once, counts)
    ensures Repeats(all + [c], once + [c], counts + [1], c)
  {
    RepeatAppend(once, counts, c, 1);
    assert seq(1, _ => c) == [c];
  }

  lemma {:induction false} SameChunk(all: seq<Chunk<ResponseType>>, once: seq<Chunk<ResponseType>>, counts: seq<nat>,
                                     c: Chunk<ResponseType>)
    requires Repeats(all, once, counts, c)
    ensures var m := |counts| - 1; Repeats(all + [c], once, counts[m := counts[m] + 1], c)
  {
    var m := |once| - 1;
    assert once == once[..m] + [c] && counts == counts[..m] + [counts[m]];
    assert counts[m := counts[m] + 1] == counts[..m] + [counts[m] + 1];
    RepeatOneMore(once[..m], counts[..m], c, counts[m]);
  }

  /** Received packets without foreign repetitions are the chunks kept once, each repeated on the spot. */
  lemma {:induction false} ReceivedIsRepeated(ps: seq<Payload<ResponseType>>)
    requires OnlyRepeats(ps)
    ensures if |ps| == 0 then Once(ps) == [] else Repeats(ChunksOf(ps), Once(ps), Counts(ps), ps[|ps| - 1].chunk)
  {
    if |ps| == 0 {
    } else {
      var n := |ps| - 1;
      var before, c := ps[..n], ps[n].chunk;
      OnlyRepeatsPrefix(ps, n);
      ReceivedIsRepeated(before);
      assert ChunksOf(ps) == ChunksOf(before) + [c];
      if IsNew(ps, n) {
        NewChunk(ChunksOf(before), Once(before), Counts(before), c);
      } else {
        SameChunk(ChunksOf(before), Once(before), Counts(before), c);
        assert Once(ps) == Once(before) + [] == Once(before);
      }
    }
  }

  // ---- The invariant ----

  predicate UpIdle<RC, RR>(s: Uplink<RC, RR>) {
    && s.robot.outstanding.None?
    && s.host.lastReceived == s.robot.lastSent
    && Once(s.received) == s.dropped
    && OnlySeqnum(s.toHost, s.robot.lastSent)
    && OnlyAcknum(s.toRobot, s.robot.lastSent)
  }

  predicate AwaitingReceipt<RC, RR>(s: Uplink<RC, RR>) {
    && s.robot.outstanding.Some?
    && var p := s.robot.outstanding.value;
    && s.host.lastReceived == 1 - p.seqnum
    && Once(s.received) == s.dropped
    && SettlesOnSeqnum(s.toHost, p.seqnum)
    && OnlyCopies(s.toHost, p)
    && OnlyAcknum(s.toRobot, 1 - p.seqnum)
  }

  predicate AwaitingHostAck<RC, RR>(s: Uplink<RC, RR>) {
    && s.robot.outstanding.Some?
    && var p := s.robot.outstanding.value;
    && s.host.lastReceived == p.seqnum
    && Once(s.received) == s.dropped + [p.chunk]
    && |s.received| > 0 && s.received[|s.received| - 1] == p
    && OnlySeqnum(s.toHost, p.seqnum)
    && SettlesOnAcknum(s.toRobot, p.seqnum)
  }

  /** No datagram packet in the channel has number b. */
  predicate NoSeqnum<T, R>(ch: seq<Packet<T, R>>, b: Bit) {
    forall i :: 0 <= i < |ch| && ch[i].Datagram? ==> ch[i].payload.seqnum != b
  }

  /** The host remembers the number of the last packet, and what is on its way under that number is a copy of it. */
  predicate Remembered<RR>(received: seq<Payload<ResponseType>>, last: Bit, toHost: seq<Packet<ResponseType, RR>>) {
    if |received| == 0 then last == 1 && NoSeqnum(toHost, 1)
    else last == received[|received| - 1].seqnum && OnlyCopies(toHost, received[|received| - 1])
  }

  predicate UplinkInv<RC, RR>(s: Uplink<RC, RR>) {
    && (s.robot.outstanding.Some? ==> s.robot.outstanding.value.seqnum == s.robot.lastSent)
    && Unsent(s) == s.queued
    && OnlyRepeats(s.received)
    && Remembered(s.received, s.host.lastReceived, s.toHost)
    && (s.host.rx, s.handedOut) == FeedAll(EMPTY_RX, ChunksOf(s.received))
    && (UpIdle(s) || AwaitingReceipt(s) || AwaitingHostAck(s))
  }

  /** What the robot has dropped, and what it still has. */
  function Unsent<RC, RR>(s: Uplink<RC, RR>): seq<Chunk<ResponseType>> {
    s.dropped + ((if s.robot.outstanding.Some? then [s.robot.outstanding.value.chunk] else []) + s.robot.queue)
  }

  lemma {:induction false} QueueResponseKeepsInv<RC, RR>(s: Uplink<RC, RR>, d: ResponseDatagram)
    requires UplinkInv(s)
    ensures UplinkInv(Moved(s, QueueResponse(d)))
  {
    var s' := Moved(s, QueueResponse(d));
    assert Unsent(s') == Unsent(s) + ResponseChunks(d);
  }

  lemma {:induction false} NextChunkKeepsUnsent<RC, RR>(s: Uplink<RC, RR>, header: Header)
    ensures Unsent(Moved(s, RobotSendsChunk(header))) == Unsent(s)
  {
    if s.robot.outstanding.None? && |s.robot.queue| > 0 {
      assert s.robot.queue == [s.robot.queue[0]] + s.robot.queue[1..];
    }
  }

  lemma {:induction false} RobotSendsChunkKeepsInv<RC, RR>(s: Uplink<RC, RR>, header: Header)
    requires UplinkInv(s)
    ensures UplinkInv(Moved(s, RobotSendsChunk(header)))
  {
    NextChunkKeepsUnsent(s, header);
  }

  lemma {:induction false} HostSendsKeepsInv<RC, RR>(s: Uplink<RC, RR>, regular: RC)
    requires UplinkInv(s)
    ensures UplinkInv(Moved(s, HostSends(regular)))
  {
    var (h, p) := Send(s.host, regular);
    assert h.lastReceived == s.host.lastReceived == p.header.acknum && h.rx == s.host.rx;
  }

  lemma {:induction false} RobotTakesKeepsInv<RC, RR>(s: Uplink<RC, RR>)
    requires UplinkInv(s)
    ensures UplinkInv(Moved(s, RobotTakes))
  {
    var s' := Moved(s, RobotTakes);
    if |s.toRobot| > 0 && AckedBy(s.robot, s.toRobot[0]) {
      assert AwaitingHostAck(s);
      forall i | 0 <= i < |s'.toRobot| ensures s'.toRobot[i].header.acknum == s.robot.lastSent {
        assert s'.toRobot[i] == s.toRobot[i + 1];
      }
      assert UpIdle(s');
      assert Unsent(s') == Unsent(s);
    }
  }

  /** What one packet does to the host's receive side. */
  lemma {:induction false} TakenIsFed<RC, RR>(s: Uplink<RC, RR>)
    requires |s.toHost| > 0 && (s.host.rx, s.handedOut) == FeedAll(EMPTY_RX, ChunksOf(s.received))
    ensures var s' := Moved(s, HostTakes);
            (s'.host.rx, s'.handedOut) == FeedAll(EMPTY_RX, ChunksOf(s'.received))
  {
    if s.toHost[0].Datagram? {
      FedOne(s.received, s.toHost[0].payload);
      assert s.handedOut + [] == s.handedOut;
    }
  }

  lemma {:induction false} FedOne(ps: seq<Payload<ResponseType>>, p: Payload<ResponseType>)
    ensures var (rx, ds) := FeedAll(EMPTY_RX, ChunksOf(ps));
            var (rx', done) := Feed(rx, p.chunk);
            FeedAll(EMPTY_RX, ChunksOf(ps + [p])) == (rx', ds + (if done.Some? then [done.value] else []))
  {
    FeedSnoc(EMPTY_RX, ChunksOf(ps), p.chunk);
    assert ChunksOf(ps + [p]) == ChunksOf(ps) + [p.chunk];
  }

  lemma {:induction false} CopyTakenKeepsInv<RC, RR>(s: Uplink<RC, RR>)
    requires UplinkInv(s) && |s.toHost| > 0 && s.toHost[0].Datagram?
    requires s.toHost[0].payload.seqnum == s.host.lastReceived
    ensures UplinkInv(Moved(s, HostTakes))
  {
    var s', p := Moved(s, HostTakes), s.toHost[0].payload;
    TakenIsFed(s);
    assert |s.received| > 0 && p == s.received[|s.received| - 1];
    OnlyRepeatsExtend(s.received, p);
    OnceExtend(s.received, p);
    assert Once(s'.received) == Once(s.received);
    TailKeeps(s.toHost, p, s.robot.lastSent);
  }

  lemma {:induction false} TailKeeps<RR>(ch: seq<Packet<ResponseType, RR>>, p: Payload<ResponseType>, b: Bit)
    requires |ch| > 0
    ensures OnlySeqnum(ch, b) ==> OnlySeqnum(ch[1..], b)
    ensures SettlesOnSeqnum(ch, b) ==> SettlesOnSeqnum(ch[1..], b)
    ensures OnlyCopies(ch, p) ==> OnlyCopies(ch[1..], p)
    ensures SettlesOnSeqnum(ch, b) && ch[0].Datagram? && ch[0].payload.seqnum == b ==> OnlySeqnum(ch[1..], b)
  {
    forall i | 0 <= i < |ch[1..]| ensures ch[1..][i] == ch[i + 1] {}
  }

  /** A packet under a new number is the outstanding one. */
  lemma {:induction false} NewIsOutstanding<RC, RR>(s: Uplink<RC, RR>)
    requires UplinkInv(s) && |s.toHost| > 0 && s.toHost[0].Datagram?
    requires s.toHost[0].payload.seqnum != s.host.lastReceived
    ensures AwaitingReceipt(s) && s.toHost[0].payload == s.robot.outstanding.value
  {
  }

  lemma {:induction false} NewAwaitsAck<RC, RR>(s: Uplink<RC, RR>)
    requires AwaitingReceipt(s) && |s.toHost| > 0 && s.toHost[0].Datagram?
    requires s.toHost[0].payload == s.robot.outstanding.value
    requires |s.received| == 0 ==> s.host.lastReceived == 1
    requires |s.received| > 0 ==> s.received[|s.received| - 1].seqnum == s.host.lastReceived
    ensures var s' := Moved(s, HostTakes); AwaitingHostAck(s') && OnlyCopies(s'.toHost, s.toHost[0].payload)
  {
    var p := s.toHost[0].payload;
    OnceExtend(s.received, p);
    TailKeeps(s.toHost, p, p.seqnum);
    assert OnlyAcknum(s.toRobot, 1 - p.seqnum) ==> SettlesOnAcknum(s.toRobot, p.seqnum);
  }

  lemma {:induction false} NewTakenKeepsInv<RC, RR>(s: Uplink<RC, RR>)
    requires UplinkInv(s) && |s.toHost| > 0 && s.toHost[0].Datagram?
    requires s.toHost[0].payload.seqnum != s.host.lastReceived
    ensures UplinkInv(Moved(s, HostTakes))
  {
    NewIsOutstanding(s);
    NewAwaitsAck(s);
    TakenIsFed(s);
    OnlyRepeatsExtend(s.received, s.toHost[0].payload);
  }

  lemma {:induction false} HostTakesKeepsInv<RC, RR>(s: Uplink<RC, RR>)
    requires UplinkInv(s)
    ensures UplinkInv(Moved(s, HostTakes))
  {
    if |s.toHost| == 0 {
    } else if s.toHost[0].Regular? {
      TakenIsFed(s);
      RegularTaken(s);
    } else if s.toHost[0].payload.seqnum == s.host.lastReceived {
      CopyTakenKeepsInv(s);
    } else {
      NewTakenKeepsInv(s);
    }
  }

  lemma {:induction false} RegularTaken<RC, RR>(s: Uplink<RC, RR>)
    requires UplinkInv(s) && |s.toHost| > 0 && s.toHost[0].Regular?
    ensures UplinkInv(Moved(s, HostTakes))
  {
    if |s.received| > 0 {
      TailKeeps(s.toHost, s.received[|s.received| - 1], s.robot.lastSent);
    }
    if s.robot.outstanding.Some? {
      TailKeeps(s.toHost, s.robot.outstanding.value, s.robot.lastSent);
    }
  }

  lemma {:induction false} NoSeqnumEdit<T, R>(ch: seq<Packet<T, R>>, at: nat, b: Bit)
    ensures NoSeqnum(ch, b) ==> NoSeqnum(Without(ch, at), b) && NoSeqnum(Repeated(ch, at), b)
  {
  }

  /** Losing or repeating packets on the way to the host. */
  lemma {:induction false} UpEditKeepsInv<RC, RR>(s: Uplink<RC, RR>, m: Move<RC, RR>)
    requires UplinkInv(s) && (m.LoseUp? || m.RepeatUp?)
    ensures UplinkInv(Moved(s, m))
  {
    NoSeqnumEdit(s.toHost, m.at, 1);
    if |s.received| > 0 {
      CopiesEdit(s.toHost, m.at, s.received[|s.received| - 1]);
    }
    SeqnumEdit(s.toHost, m.at, s.robot.lastSent);
    if AwaitingReceipt(s) {
      CopiesEdit(s.toHost, m.at, s.robot.outstanding.value);
      SettledSeqnumEdit(s.toHost, m.at, s.robot.outstanding.value.seqnum);
    }
  }

  /** The same on the way to the robot. */
  lemma {:induction false} DownEditKeepsInv<RC, RR>(s: Uplink<RC, RR>, m: Move<RC, RR>)
    requires UplinkInv(s) && (m.LoseDown? || m.RepeatDown?)
    ensures UplinkInv(Moved(s, m))
  {
    AcknumEdit(s.toRobot, m.at, s.robot.lastSent);
    AcknumEdit(s.toRobot, m.at, 1 - s.robot.lastSent);
    if AwaitingHostAck(s) {
      SettledAcknumEdit(s.toRobot, m.at, s.robot.outstanding.value.seqnum);
    }
  }

  lemma {:induction false} MoveKeepsInv<RC, RR>(s: Uplink<RC, RR>, m: Move<RC, RR>)
    requires UplinkInv(s)
    ensures UplinkInv(Moved(s, m))
  {
    match m
    case QueueResponse(d) => QueueResponseKeepsInv(s, d);
    case RobotSendsRegular(_, _) =>
    case RobotSendsChunk(header) => RobotSendsChunkKeepsInv(s, header);
    case HostTakes => HostTakesKeepsInv(s);
    case HostQueues(_) =>
    case HostSends(regular) => HostSendsKeepsInv(s, regular);
    case RobotTakes => RobotTakesKeepsInv(s);
    case LoseUp(_) => UpEditKeepsInv(s, m);
    case RepeatUp(_) => UpEditKeepsInv(s, m);
    case LoseDown(_) => DownEditKeepsInv(s, m);
    case RepeatDown(_) => DownEditKeepsInv(s, m);
  }

  lemma {:induction false} MovesKeepInv<RC, RR>(s: Uplink<RC, RR>, moves: seq<Move<RC, RR>>)
    requires UplinkInv(s)
    ensures UplinkInv(RunMoves(s, moves))
    decreases |moves|
  {
    if |moves| == 0 {
    } else {
      MoveKeepsInv(s, moves[0]);
      MovesKeepInv(Moved(s, moves[0]), moves[1..]);
    }
  }

  lemma NewUplinkInv<RC, RR>()
    ensures UplinkInv(NewUplink<RC, RR>())
  {
  }

  // ---- What every run guarantees ----

  function QueuedIn<RC, RR>(m: Move<RC, RR>): seq<ResponseDatagram> {
    if m.QueueResponse? then [m.response] else []
  }

  /** The responses queued during a run, in order. */
  function QueuedResponses<RC, RR>(moves: seq<Move<RC, RR>>): seq<ResponseDatagram>
    decreases |moves|
  {
    if |moves| == 0 then [] else QueuedIn(moves[0]) + QueuedResponses(moves[1..])
  }

  lemma {:induction false} SplitAllConcat(a: seq<ResponseDatagram>, b: seq<ResponseDatagram>)
    ensures SplitAll(a + b) == SplitAll(a) + SplitAll(b)
  {
    if |a| == 0 {
      assert a + b == b;
    } else {
      assert (a + b)[1..] == a[1..] + b;
      SplitAllConcat(a[1..], b);
    }
  }

  lemma {:induction false} MoveQueues<RC, RR>(s: Uplink<RC, RR>, m: Move<RC, RR>)
    ensures Moved(s, m).queued == s.queued + SplitAll(QueuedIn(m))
  {
    if m.QueueResponse? {
      assert SplitAll([m.response]) == ResponseChunks(m.response) + SplitAll([m.response][1..]);
    }
  }

  lemma {:induction false} QueuedIsSplit<RC, RR>(s: Uplink<RC, RR>, moves: seq<Move<RC, RR>>)
    ensures RunMoves(s, moves).queued == s.queued + SplitAll(QueuedResponses(moves))
    decreases |moves|
  {
    if |moves| == 0 {
    } else {
      var first, rest := QueuedIn(moves[0]), QueuedResponses(moves[1..]);
      MoveQueues(s, moves[0]);
      QueuedIsSplit(Moved(s, moves[0]), moves[1..]);
      SplitAllConcat(first, rest);
      assert s.queued + (SplitAll(first) + SplitAll(rest)) == (s.queued + SplitAll(first)) + SplitAll(rest);
    }
  }

  /** The robot has dropped no chunk that the host has not received: the chunks that came under a new number are those
      it has dropped, plus at most the outstanding one, and a prefix of the stream. Every chunk came at least once, on
      the spot, and the host has handed out the full groups of what came. */
  ghost predicate ResponsesArrive<RC, RR>(s: Uplink<RC, RR>, stream: seq<Chunk<ResponseType>>) {
    && Unsent(s) == stream
    && (Once(s.received) == s.dropped ||
        (s.robot.outstanding.Some? && Once(s.received) == s.dropped + [s.robot.outstanding.value.chunk]))
    && Once(s.received) <= stream
    && EachArrives(Counts(s.received)) && ChunksOf(s.received) == Repeat(Once(s.received), Counts(s.received))
    && s.handedOut == GroupsOfRuns(ChunksOf(s.received))
  }

  lemma {:induction false} OnceIsSent<RC, RR>(s: Uplink<RC, RR>)
    requires UplinkInv(s)
    ensures Once(s.received) <= Unsent(s)
    ensures Once(s.received) == s.dropped ||
            (s.robot.outstanding.Some? && Once(s.received) == s.dropped + [s.robot.outstanding.value.chunk])
  {
    if s.robot.outstanding.Some? {
      var c := s.robot.outstanding.value.chunk;
      assert Unsent(s) == (s.dropped + [c]) + s.robot.queue;
    }
  }

  lemma {:induction false} UplinkInvDelivers<RC, RR>(s: Uplink<RC, RR>)
    requires UplinkInv(s)
    ensures ResponsesArrive(s, s.queued)
  {
    ReceivedIsRepeated(s.received);
    OutputOfAnyStream(ChunksOf(s.received));
    OnceIsSent(s);
  }

  lemma {:induction false} ResponsesArriveInOrder<RC, RR>(moves: seq<Move<RC, RR>>)
    ensures ResponsesArrive(RunMoves(NewUplink<RC, RR>(), moves), SplitAll(QueuedResponses(moves)))
  {
    NewUplinkInv<RC, RR>();
    MovesKeepInv(NewUplink<RC, RR>(), moves);
    QueuedIsSplit(NewUplink<RC, RR>(), moves);
    assert [] + SplitAll(QueuedResponses(moves)) == SplitAll(QueuedResponses(moves));
    UplinkInvDelivers(RunMoves(NewUplink<RC, RR>(), moves));
  }

  /** When the robot has nothing left, responses of one type have been handed out exactly as queued, with nothing left
      in the host's buffer, if and only if the host has received as many chunks as there were: none twice. */
  lemma {:induction false} ExactlyOnceIffNoneRepeated<RC, RR>(moves: seq<Move<RC, RR>>, t: ResponseType)
    requires AllOfType(QueuedResponses(moves), t)
    requires var robot := RunMoves(NewUplink<RC, RR>(), moves).robot; robot.outstanding.None? && |robot.queue| == 0
    ensures var s, ds := RunMoves(NewUplink<RC, RR>(), moves), QueuedResponses(moves);
            s.handedOut == ds && s.host.rx == EMPTY_RX <==> |s.received| == |SplitAll(ds)|
  {
    var s, ds := RunMoves(NewUplink<RC, RR>(), moves), QueuedResponses(moves);
    NewUplinkInv<RC, RR>();
    MovesKeepInv(NewUplink<RC, RR>(), moves);
    ResponsesArriveInOrder(moves);
    assert Once(s.received) == s.dropped == SplitAll(ds);
    SplitAllOfType(ds, t);
    RepeatLength(SplitAll(ds), Counts(s.received), t);
    DeliveredIffNoChunkRepeats(t, ds, Counts(s.received));
  }

  lemma {:induction false} RunMovesCons<RC, RR>(s: Uplink<RC, RR>, m: Move<RC, RR>, rest: seq<Move<RC, RR>>)
    ensures RunMoves(s, [m] + rest) == RunMoves(Moved(s, m), rest)
  {
    assert ([m] + rest)[1..] == rest;
  }

  /** The robot sends its only chunk, and the host takes it. */
  lemma {:induction false} ChunkHandedOut<RC, RR>(s: Uplink<RC, RR>, header: Header, id: byte)
    requires s.toHost == [] && s.host.rx == EMPTY_RX
    requires NextChunk(s.robot).1.Some? && NextChunk(s.robot).1.value.chunk == ResponseChunks(RobotIdReply(id))[0]
    ensures var s' := Moved(Moved(s, RobotSendsChunk(header)), HostTakes);
            && s'.robot == NextChunk(s.robot).0 && s'.toRobot == s.toRobot
            && s'.toHost == [] && s'.host.rx == EMPTY_RX && s'.handedOut == s.handedOut + [RobotIdReply(id)]
  {
    var d := RobotIdReply(id);
    DatagramRoundTrip(d);
    assert ResponseChunks(d) == [ResponseChunks(d)[0]];
    FeedOne(EMPTY_RX, ResponseChunks(d)[0]);
  }

  function AfterTwo<RC, RR>(s: Uplink<RC, RR>, m: Move<RC, RR>, n: Move<RC, RR>): Uplink<RC, RR> {
    Moved(Moved(s, m), n)
  }

  lemma {:induction false} RunMovesTwo<RC, RR>(s: Uplink<RC, RR>, m: Move<RC, RR>, n: Move<RC, RR>,
                                               rest: seq<Move<RC, RR>>)
    ensures RunMoves(s, [m, n] + rest) == RunMoves(AfterTwo(s, m, n), rest)
  {
    assert [m, n] + rest == [m] + ([n] + rest);
    RunMovesCons(s, m, [n] + rest);
    RunMovesCons(Moved(s, m), n, rest);
  }

  /** A chunk is sent and taken, the header that would acknowledge it is lost, and it is sent and taken again. */
  function ResendMoves<RC, RR>(header: Header, regular: RC): seq<Move<RC, RR>> {
    [RobotSendsChunk(header), HostTakes] + ([HostSends(regular), LoseDown(0)] + [RobotSendsChunk(header), HostTakes])
  }

  lemma {:induction false} ResendRun<RC, RR>(s: Uplink<RC, RR>, header: Header, regular: RC)
    ensures RunMoves(s, ResendMoves(header, regular)) ==
            AfterTwo(AfterTwo(AfterTwo(s, RobotSendsChunk(header), HostTakes), HostSends(regular), LoseDown(0)),
                     RobotSendsChunk(header), HostTakes)
  {
    var send: seq<Move<RC, RR>> := [RobotSendsChunk(header), HostTakes];
    var s2 := AfterTwo(s, RobotSendsChunk(header), HostTakes);
    RunMovesTwo(s, RobotSendsChunk(header), HostTakes, [HostSends(regular), LoseDown(0)] + send);
    RunMovesTwo(s2, HostSends(regular), LoseDown(0), send);
    RunMovesTwo(AfterTwo(s2, HostSends(regular), LoseDown(0)), RobotSendsChunk(header), HostTakes, []);
    assert send + [] == send;
  }

  lemma {:induction false} LostHeader<RC, RR>(s: Uplink<RC, RR>, regular: RC)
    requires s.toRobot == []
    ensures var s' := AfterTwo(s, HostSends(regular), LoseDown(0));
            && s'.robot == s.robot && s'.toHost == s.toHost && s'.toRobot == []
            && s'.host.rx == s.host.rx && s'.handedOut == s.handedOut
  {
  }

  lemma {:induction false} ResentIsHandedOutTwice<RC, RR>(s: Uplink<RC, RR>, id: byte, header: Header, regular: RC)
    requires s.toHost == [] && s.toRobot == [] && s.host.rx == EMPTY_RX
    requires NextChunk(s.robot).1.Some? && NextChunk(s.robot).1.value.chunk == ResponseChunks(RobotIdReply(id))[0]
    ensures RunMoves(s, ResendMoves(header, regular)).handedOut
         == s.handedOut + [RobotIdReply(id)] + [RobotIdReply(id)]
  {
    ResendRun(s, header, regular);
    ChunkHandedOut(s, header, id);
    var s2 := AfterTwo(s, RobotSendsChunk(header), HostTakes);
    LostHeader(s2, regular);
    ChunkHandedOut(AfterTwo(s2, HostSends(regular), LoseDown(0)), header, id);
  }

  /** Why chunks come twice: the header that acknowledges a robot id is lost, the robot sends it again, and the host
      hands it out a second time. */
  lemma {:induction false} LostAckHandsOutTwice<RC, RR>(id: byte, header: Header, regular: RC)
    ensures var moves := [QueueResponse(RobotIdReply(id))] + ResendMoves<RC, RR>(header, regular);
            RunMoves(NewUplink<RC, RR>(), moves).handedOut == [RobotIdReply(id), RobotIdReply(id)]
  {
    var d := RobotIdReply(id);
    var s: Uplink<RC, RR> := Moved(NewUplink(), QueueResponse(d));
    assert ResponseChunks(d)[0] == s.robot.queue[0];
    RunMovesCons(NewUplink<RC, RR>(), QueueResponse(d), ResendMoves(header, regular));
    ResentIsHandedOutTwice(s, id, header, regular);
    assert [] + [d] + [d] == [d, d];
  }
}
