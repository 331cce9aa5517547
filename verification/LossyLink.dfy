/** The whole link: the host, one robot, and a first-in-first-out channel each way that may lose or repeat
    packets. The robot accepts a chunk when its sequence number differs from the last accepted one and always
    echoes the last accepted number; it starts at 1, like the host. `queued` and `dropped` record history:
    all chunks ever queued at the host, and the chunks it has dropped as acknowledged. */
module LossyLink {
  import opened Datagrams
  import opened RadioProtocol

  datatype Robot = Robot(lastAccepted: Bit, accepted: seq<Chunk<CommandType>>)

  datatype Link<RC, RR> = Link(
    host: Host,
    robot: Robot,
    toRobot: seq<Packet<CommandType, RC>>,
    toHost: seq<Packet<ResponseType, RR>>,
    queued: seq<Chunk<CommandType>>,
    dropped: seq<Chunk<CommandType>>)

  /** One atomic step. A step that is not enabled changes nothing. */
  datatype Step<RC, RR> =
    | QueueDatagram(datagram: CommandDatagram)
    | HostSend(regular: RC)
    | RobotReceive
    | RobotSend(reply: Packet<ResponseType, RR>)  // any contents; the acknum is filled in by the robot
    | HostReceive
    | LoseCommand(at: nat)
    | LoseReply(at: nat)
    | RepeatCommand(at: nat)
    | RepeatReply(at: nat)

  function NewLink<RC, RR>(): Link<RC, RR> {
    Link(NEW_HOST, Robot(1, []), [], [], [], [])
  }

  function Without<T>(s: seq<T>, at: nat): seq<T> {
    if at < |s| then s[..at] + s[at + 1..] else s
  }

  function Repeated<T>(s: seq<T>, at: nat): seq<T> {
    if at < |s| then s[..at + 1] + s[at..] else s
  }

  function Accept<RC>(r: Robot, p: Packet<CommandType, RC>): Robot {
    if p.Datagram? && p.payload.seqnum != r.lastAccepted then
      Robot(p.payload.seqnum, r.accepted + [p.payload.chunk])
    else r
  }

  function Stamp<RR>(p: Packet<ResponseType, RR>, acknum: Bit): Packet<ResponseType, RR> {
    p.(header := p.header.(acknum := acknum))
  }

  function Apply<RC, RR>(s: Link<RC, RR>, step: Step<RC, RR>): Link<RC, RR> {
    match step
    case QueueDatagram(d) => s.(host := Queue(s.host, d), queued := s.queued + CommandChunks(d))
    case HostSend(regular) =>
      var (h, p) := Send(s.host, regular);
      s.(host := h, toRobot := s.toRobot + [p])
    case RobotReceive =>
      if |s.toRobot| == 0 then s
      else s.(robot := Accept(s.robot, s.toRobot[0]), toRobot := s.toRobot[1..])
    case RobotSend(reply) => s.(toHost := s.toHost + [Stamp(reply, s.robot.lastAccepted)])
    case HostReceive =>
      if |s.toHost| == 0 then s
      else
        var p := s.toHost[0];
        s.(host := Receive(s.host, p).0, toHost := s.toHost[1..],
           dropped := if Acks(s.host, p) then s.dropped + [s.host.outstanding.value.chunk] else s.dropped)
    case LoseCommand(at) => s.(toRobot := Without(s.toRobot, at))
    case LoseReply(at) => s.(toHost := Without(s.toHost, at))
    case RepeatCommand(at) => s.(toRobot := Repeated(s.toRobot, at))
    case RepeatReply(at) => s.(toHost := Repeated(s.toHost, at))
  }

  function Run<RC, RR>(s: Link<RC, RR>, steps: seq<Step<RC, RR>>): Link<RC, RR>
    decreases |steps|
  {
    if |steps| == 0 then s else Run(Apply(s, steps[0]), steps[1..])
  }

  // ---- The invariant ----

  /** Every datagram packet in the channel has the given sequence number. */
  predicate OnlySeqnum<T, R>(ch: seq<Packet<T, R>>, b: Bit) {
    forall i :: 0 <= i < |ch| && ch[i].Datagram? ==> ch[i].payload.seqnum == b
  }

  /** After the first datagram packet with number b, all have number b. */
  predicate SettlesOnSeqnum<T, R>(ch: seq<Packet<T, R>>, b: Bit) {
    forall i, j :: 0 <= i < j < |ch| && ch[i].Datagram? && ch[j].Datagram? && ch[i].payload.seqnum == b
                   ==> ch[j].payload.seqnum == b
  }

  /** Every datagram packet with p's sequence number is a copy of p. */
  predicate OnlyCopies<T(==), R>(ch: seq<Packet<T, R>>, p: Payload<T>) {
    forall i :: 0 <= i < |ch| && ch[i].Datagram? && ch[i].payload.seqnum == p.seqnum ==> ch[i].payload == p
  }

  predicate OnlyAcknum<T, R>(ch: seq<Packet<T, R>>, b: Bit) {
    forall i :: 0 <= i < |ch| ==> ch[i].header.acknum == b
  }

  predicate SettlesOnAcknum<T, R>(ch: seq<Packet<T, R>>, b: Bit) {
    forall i, j :: 0 <= i < j < |ch| && ch[i].header.acknum == b ==> ch[j].header.acknum == b
  }

  predicate Idle<RC, RR>(s: Link<RC, RR>) {
    && s.host.outstanding.None?
    && s.robot == Robot(s.host.lastSent, s.dropped)
    && OnlySeqnum(s.toRobot, s.host.lastSent)
    && OnlyAcknum(s.toHost, s.host.lastSent)
  }

  predicate AwaitingAccept<RC, RR>(s: Link<RC, RR>) {
    && s.host.outstanding.Some?
    && var p := s.host.outstanding.value;
    && s.robot == Robot(1 - p.seqnum, s.dropped)
    && SettlesOnSeqnum(s.toRobot, p.seqnum)
    && OnlyCopies(s.toRobot, p)
    && OnlyAcknum(s.toHost, 1 - p.seqnum)
  }

  predicate AwaitingAck<RC, RR>(s: Link<RC, RR>) {
    && s.host.outstanding.Some?
    && var p := s.host.outstanding.value;
    && s.robot == Robot(p.seqnum, s.dropped + [p.chunk])
    && OnlySeqnum(s.toRobot, p.seqnum)
    && SettlesOnAcknum(s.toHost, p.seqnum)
  }

  predicate LinkInv<RC, RR>(s: Link<RC, RR>) {
    && HostInv(s.host)
    && s.dropped + Pending(s.host) == s.queued
    && (Idle(s) || AwaitingAccept(s) || AwaitingAck(s))
  }

  lemma HostSendKeepsInv<RC, RR>(s: Link<RC, RR>, regular: RC)
    requires LinkInv(s)
    ensures LinkInv(Apply(s, HostSend(regular)))
  {
    SendKeepsPending(s.host, regular);
    OpKeepsHostInv<RC, RR>(s.host, SendOp(regular));
  }

  lemma RobotReceiveKeepsInv<RC, RR>(s: Link<RC, RR>)
    requires LinkInv(s)
    ensures LinkInv(Apply(s, RobotReceive))
  {
  }

  /** The acknowledged chunk moves from the pending ones to the dropped ones. */
  lemma {:induction false} AckMovesHead<RC, RR>(s: Link<RC, RR>)
    requires HostInv(s.host) && |s.toHost| > 0 && Acks(s.host, s.toHost[0])
    ensures var s' := Apply(s, HostReceive);
            HostInv(s'.host) && s'.dropped + Pending(s'.host) == s.dropped + Pending(s.host)
  {
    var p, s' := s.toHost[0], Apply(s, HostReceive);
    OpKeepsHostInv<RC, RR>(s.host, ReceiveOp(p));
    ReceiveShortensPending(s.host, p);
    var pending := Pending(s.host);
    assert pending == [pending[0]] + pending[1..];
    assert s'.dropped + Pending(s'.host) == s.dropped + ([pending[0]] + pending[1..]);
  }

  lemma {:induction false} AckMakesIdle<RC, RR>(s: Link<RC, RR>)
    requires HostInv(s.host) && AwaitingAck(s) && |s.toHost| > 0 && Acks(s.host, s.toHost[0])
    ensures var s' := Apply(s, HostReceive);
            Idle(s') && s'.host.lastSent == s.host.outstanding.value.seqnum
  {
    var p, s' := s.toHost[0], Apply(s, HostReceive);
    forall i | 0 <= i < |s'.toHost| ensures s'.toHost[i].header.acknum == p.header.acknum {
      assert s'.toHost[i] == s.toHost[i + 1];
    }
  }

  lemma AckKeepsInv<RC, RR>(s: Link<RC, RR>)
    requires LinkInv(s) && |s.toHost| > 0 && Acks(s.host, s.toHost[0])
    ensures LinkInv(Apply(s, HostReceive))
    ensures var s' := Apply(s, HostReceive);
            && s'.host.outstanding.None? && s'.dropped == s.dropped + [s.host.outstanding.value.chunk]
            && s'.dropped == s'.robot.accepted
            && OnlyAcknum(s'.toHost, s.host.outstanding.value.seqnum)
  {
    assert AwaitingAck(s);
    AckMovesHead(s);
    AckMakesIdle(s);
  }

  lemma HostReceiveKeepsInv<RC, RR>(s: Link<RC, RR>)
    requires LinkInv(s)
    ensures LinkInv(Apply(s, HostReceive))
  {
    if |s.toHost| > 0 {
      var p := s.toHost[0];
      if Acks(s.host, p) {
        AckKeepsInv(s);
      } else {
        OpKeepsHostInv<RC, RR>(s.host, ReceiveOp(p));
        ReceiveShortensPending(s.host, p);
      }
    }
  }

  lemma {:induction false} SeqnumEdit<T, R>(ch: seq<Packet<T, R>>, at: nat, b: Bit)
    ensures OnlySeqnum(ch, b) ==> OnlySeqnum(Without(ch, at), b) && OnlySeqnum(Repeated(ch, at), b)
  {
  }

  lemma {:induction false} SettledSeqnumEditLess<T, R>(ch: seq<Packet<T, R>>, at: nat, b: Bit)
    requires SettlesOnSeqnum(ch, b) && at < |ch|
    ensures SettlesOnSeqnum(Without(ch, at), b)
  {
    var edited := Without(ch, at);
    forall i, j | 0 <= i < j < |edited| && edited[i].Datagram? && edited[j].Datagram? && edited[i].payload.seqnum == b
      ensures edited[j].payload.seqnum == b
    {
      assert edited[i] == ch[if i < at then i else i + 1] && edited[j] == ch[if j < at then j else j + 1];
    }
  }

  lemma {:induction false} SettledSeqnumEditMore<T, R>(ch: seq<Packet<T, R>>, at: nat, b: Bit)
    requires SettlesOnSeqnum(ch, b) && at < |ch|
    ensures SettlesOnSeqnum(Repeated(ch, at), b)
  {
    var edited := Repeated(ch, at);
    forall i, j | 0 <= i < j < |edited| && edited[i].Datagram? && edited[j].Datagram? && edited[i].payload.seqnum == b
      ensures edited[j].payload.seqnum == b
    {
      assert edited[i] == ch[if i <= at then i else i - 1] && edited[j] == ch[if j <= at then j else j - 1];
    }
  }

  lemma {:induction false} SettledSeqnumEdit<T, R>(ch: seq<Packet<T, R>>, at: nat, b: Bit)
    requires SettlesOnSeqnum(ch, b)
    ensures SettlesOnSeqnum(Without(ch, at), b) && SettlesOnSeqnum(Repeated(ch, at), b)
  {
    if at < |ch| {
      SettledSeqnumEditLess(ch, at, b);
      SettledSeqnumEditMore(ch, at, b);
    }
  }

  lemma {:induction false} CopiesEdit<T, R>(ch: seq<Packet<T, R>>, at: nat, p: Payload<T>)
    ensures OnlyCopies(ch, p) ==> OnlyCopies(Without(ch, at), p) && OnlyCopies(Repeated(ch, at), p)
  {
  }

  lemma {:induction false} AcknumEdit<T, R>(ch: seq<Packet<T, R>>, at: nat, b: Bit)
    ensures OnlyAcknum(ch, b) ==> OnlyAcknum(Without(ch, at), b) && OnlyAcknum(Repeated(ch, at), b)
  {
  }

  lemma {:induction false} SettledAcknumEditLess<T, R>(ch: seq<Packet<T, R>>, at: nat, b: Bit)
    requires SettlesOnAcknum(ch, b) && at < |ch|
    ensures SettlesOnAcknum(Without(ch, at), b)
  {
    var edited := Without(ch, at);
    forall i, j | 0 <= i < j < |edited| && edited[i].header.acknum == b
      ensures edited[j].header.acknum == b
    {
      assert edited[i] == ch[if i < at then i else i + 1] && edited[j] == ch[if j < at then j else j + 1];
    }
  }

  lemma {:induction false} SettledAcknumEditMore<T, R>(ch: seq<Packet<T, R>>, at: nat, b: Bit)
    requires SettlesOnAcknum(ch, b) && at < |ch|
    ensures SettlesOnAcknum(Repeated(ch, at), b)
  {
    var edited := Repeated(ch, at);
    forall i, j | 0 <= i < j < |edited| && edited[i].header.acknum == b
      ensures edited[j].header.acknum == b
    {
      assert edited[i] == ch[if i <= at then i else i - 1] && edited[j] == ch[if j <= at then j else j - 1];
    }
  }

  lemma {:induction false} SettledAcknumEdit<T, R>(ch: seq<Packet<T, R>>, at: nat, b: Bit)
    requires SettlesOnAcknum(ch, b)
    ensures SettlesOnAcknum(Without(ch, at), b) && SettlesOnAcknum(Repeated(ch, at), b)
  {
    if at < |ch| {
      SettledAcknumEditLess(ch, at, b);
      SettledAcknumEditMore(ch, at, b);
    }
  }

  lemma {:induction false} ChannelEditKeepsInv<RC, RR>(s: Link<RC, RR>, step: Step<RC, RR>)
    requires LinkInv(s)
    requires step.LoseCommand? || step.LoseReply? || step.RepeatCommand? || step.RepeatReply?
    ensures LinkInv(Apply(s, step))
  {
    if s.host.outstanding.Some? {
      var p := s.host.outstanding.value;
      SeqnumEdit(s.toRobot, step.at, p.seqnum);
      CopiesEdit(s.toRobot, step.at, p);
      if SettlesOnSeqnum(s.toRobot, p.seqnum) {
        SettledSeqnumEdit(s.toRobot, step.at, p.seqnum);
      }
      if SettlesOnAcknum(s.toHost, p.seqnum) {
        SettledAcknumEdit(s.toHost, step.at, p.seqnum);
      }
      AcknumEdit(s.toHost, step.at, p.seqnum);
      AcknumEdit(s.toHost, step.at, 1 - p.seqnum);
    } else {
      SeqnumEdit(s.toRobot, step.at, s.host.lastSent);
      AcknumEdit(s.toHost, step.at, s.host.lastSent);
    }
  }

  lemma StepKeepsInv<RC, RR>(s: Link<RC, RR>, step: Step<RC, RR>)
    requires LinkInv(s)
    ensures LinkInv(Apply(s, step))
  {
    match step
    case QueueDatagram(d) => QueueExtendsPending(s.host, d);
    case HostSend(regular) => HostSendKeepsInv(s, regular);
    case RobotReceive => RobotReceiveKeepsInv(s);
    case HostReceive => HostReceiveKeepsInv(s);
    case RobotSend(_) =>
    case _ => ChannelEditKeepsInv(s, step);
  }

  lemma {:induction false} RunKeepsInv<RC, RR>(s: Link<RC, RR>, steps: seq<Step<RC, RR>>)
    requires LinkInv(s)
    ensures LinkInv(Run(s, steps))
    decreases |steps|
  {
    if |steps| == 0 {
    } else {
      StepKeepsInv(s, steps[0]);
      RunKeepsInv(Apply(s, steps[0]), steps[1..]);
    }
  }

  function QueuedBy<RC, RR>(step: Step<RC, RR>): seq<CommandDatagram> {
    if step.QueueDatagram? then [step.datagram] else []
  }

  /** The datagrams queued during a run, in order. */
  function QueuedDatagrams<RC, RR>(steps: seq<Step<RC, RR>>): seq<CommandDatagram>
    decreases |steps|
  {
    if |steps| == 0 then [] else QueuedBy(steps[0]) + QueuedDatagrams(steps[1..])
  }

  lemma {:induction false} StepQueues<RC, RR>(s: Link<RC, RR>, step: Step<RC, RR>)
    ensures Apply(s, step).queued == s.queued + StreamOf(QueuedBy(step))
  {
    if step.QueueDatagram? {
      assert StreamOf([step.datagram]) == CommandChunks(step.datagram) + StreamOf([step.datagram][1..]);
    }
  }

  /** `queued` is the chunk stream of exactly the datagrams queued, in queueing order. */
  lemma {:induction false} QueuedIsTheStream<RC, RR>(s: Link<RC, RR>, steps: seq<Step<RC, RR>>)
    ensures Run(s, steps).queued == s.queued + StreamOf(QueuedDatagrams(steps))
    decreases |steps|
  {
    if |steps| == 0 {
    } else {
      var first, rest := QueuedBy(steps[0]), QueuedDatagrams(steps[1..]);
      StepQueues(s, steps[0]);
      QueuedIsTheStream(Apply(s, steps[0]), steps[1..]);
      StreamConcat(first, rest);
      assert s.queued + (StreamOf(first) + StreamOf(rest)) == (s.queued + StreamOf(first)) + StreamOf(rest);
    }
  }

  /** The chunks the robot has accepted are a prefix of the given stream. They are the chunks the host has dropped as
      acknowledged, plus at most the outstanding one; dropped and still pending chunks make up the whole stream. */
  ghost predicate ExactlyOnce<RC, RR>(s: Link<RC, RR>, stream: seq<Chunk<CommandType>>) {
    && s.robot.accepted <= stream
    && s.dropped + Pending(s.host) == stream
    && (s.robot.accepted == s.dropped ||
        (s.host.outstanding.Some? && s.robot.accepted == s.dropped + [s.host.outstanding.value.chunk]))
  }

  lemma {:induction false} InvGivesExactlyOnce<RC, RR>(s: Link<RC, RR>)
    requires LinkInv(s)
    ensures ExactlyOnce(s, s.queued)
  {
    if s.host.outstanding.Some? {
      assert Pending(s.host)[0] == s.host.outstanding.value.chunk;
    }
  }

  /** Exactly-once, in-order delivery of the chunk stream of the datagrams queued so far, after any run from the
      start. */
  lemma {:induction false} ExactlyOnceInOrder<RC, RR>(steps: seq<Step<RC, RR>>)
    ensures ExactlyOnce(Run(NewLink<RC, RR>(), steps), StreamOf(QueuedDatagrams(steps)))
  {
    RunKeepsInv(NewLink<RC, RR>(), steps);
    QueuedIsTheStream(NewLink<RC, RR>(), steps);
    assert [] + StreamOf(QueuedDatagrams(steps)) == StreamOf(QueuedDatagrams(steps));
    InvGivesExactlyOnce(Run(NewLink<RC, RR>(), steps));
  }

  /** Commands instead of chunks: what the robot can make of the accepted chunks is a prefix of the datagrams queued,
      and all of them once the host has nothing pending. */
  lemma {:induction false} CommandsExactlyOnceInOrder<RC, RR>(steps: seq<Step<RC, RR>>)
    ensures var s := Run(NewLink<RC, RR>(), steps);
            && DecodeCommands(s.robot.accepted) <= QueuedDatagrams(steps)
            && (Pending(s.host) == [] ==> DecodeCommands(s.robot.accepted) == QueuedDatagrams(steps))
  {
    var s, ds := Run(NewLink<RC, RR>(), steps), QueuedDatagrams(steps);
    ExactlyOnceInOrder(steps);
    DecodePrefix(ds, |s.robot.accepted|);
    assert s.robot.accepted == StreamOf(ds)[..|s.robot.accepted|];
    if Pending(s.host) == [] {
      assert s.dropped + [] == s.dropped;
      assert s.host.outstanding.Some? ==> |Pending(s.host)| > 0;
    }
  }
}
