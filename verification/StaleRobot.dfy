/** A fresh host meets a robot that remembers a sequence number from an earlier connection. The driver makes a new
    protocol object for every connection; its first chunk carries number 0, which such a robot takes for a
    repetition. */
module StaleRobot {
  import opened Datagrams
  import opened RadioProtocol
  import opened LossyLink

  /** The link as it starts when the robot remembers number b. */
  function LinkFrom<RC, RR>(b: Bit): Link<RC, RR> {
    NewLink<RC, RR>().(robot := Robot(b, []))
  }

  /** The link as if the robot had accepted one more chunk at the very beginning. */
  function Prefixed<RC, RR>(s: Link<RC, RR>, x: Chunk<CommandType>): Link<RC, RR> {
    s.(robot := Robot(s.robot.lastAccepted, [x] + s.robot.accepted))
  }

  lemma {:induction false} PrefixCommutes<RC, RR>(s: Link<RC, RR>, step: Step<RC, RR>, x: Chunk<CommandType>)
    ensures Apply(Prefixed(s, x), step) == Prefixed(Apply(s, step), x)
  {
    if step.RobotReceive? && |s.toRobot| > 0 && s.toRobot[0].Datagram? {
      var c := s.toRobot[0].payload.chunk;
      assert ([x] + s.robot.accepted) + [c] == [x] + (s.robot.accepted + [c]);
    }
  }

  /** Nothing has been sent yet but regular packets, and the robot acknowledges number 0. */
  ghost predicate Untouched<RC, RR>(s: Link<RC, RR>) {
    && HostInv(s.host) && s.host.outstanding.None? && s.host.lastSent == 1
    && s.robot == Robot(0, []) && s.dropped == [] && Pending(s.host) == s.queued
    && (forall i :: 0 <= i < |s.toRobot| ==> s.toRobot[i].Regular?)
    && OnlyAcknum(s.toHost, 0)
  }

  /** From the first chunk on, the link behaves as if that chunk had been accepted. */
  ghost predicate StaleInv<RC, RR>(s: Link<RC, RR>) {
    Untouched(s) || (|s.queued| > 0 && LinkInv(Prefixed(s, s.queued[0])))
  }

  lemma {:induction false} FirstSend<RC, RR>(s: Link<RC, RR>, regular: RC)
    requires Untouched(s)
    ensures StaleInv(Apply(s, HostSend(regular)))
  {
    var s' := Apply(s, HostSend(regular));
    SendKeepsPending(s.host, regular);
    OpKeepsHostInv<RC, RR>(s.host, SendOp(regular));
    if s'.host.outstanding.Some? {
      var c := s'.host.outstanding.value.chunk;
      assert Pending(s'.host)[0] == c;
      var link := Prefixed(s', c);
      assert link.robot.accepted == [] + [c] && link.dropped + Pending(link.host) == link.queued;
      assert AwaitingAck(link);
    }
  }

  lemma {:induction false} UntouchedReceive<RC, RR>(s: Link<RC, RR>)
    requires Untouched(s)
    ensures Untouched(Apply(s, HostReceive))
  {
    if |s.toHost| > 0 {
      OpKeepsHostInv<RC, RR>(s.host, ReceiveOp(s.toHost[0]));
      ReceiveShortensPending(s.host, s.toHost[0]);
    }
  }

  lemma {:induction false} UntouchedChannels<RC, RR>(s: Link<RC, RR>, step: Step<RC, RR>)
    requires Untouched(s) && !step.QueueDatagram? && !step.HostSend? && !step.HostReceive?
    ensures Untouched(Apply(s, step))
  {
  }

  lemma {:induction false} UntouchedStep<RC, RR>(s: Link<RC, RR>, step: Step<RC, RR>)
    requires Untouched(s)
    ensures StaleInv(Apply(s, step))
  {
    match step
    case QueueDatagram(d) => QueueExtendsPending(s.host, d);
    case HostSend(regular) => FirstSend(s, regular);
    case HostReceive => UntouchedReceive(s);
    case _ => UntouchedChannels(s, step);
  }

  lemma {:induction false} StepKeepsStaleInv<RC, RR>(s: Link<RC, RR>, step: Step<RC, RR>)
    requires StaleInv(s)
    ensures StaleInv(Apply(s, step))
  {
    if Untouched(s) {
      UntouchedStep(s, step);
    } else {
      PrefixCommutes(s, step, s.queued[0]);
      StepKeepsInv(Prefixed(s, s.queued[0]), step);
      assert Apply(s, step).queued[0] == s.queued[0];
    }
  }

  lemma {:induction false} RunKeepsStaleInv<RC, RR>(s: Link<RC, RR>, steps: seq<Step<RC, RR>>)
    requires StaleInv(s)
    ensures StaleInv(Run(s, steps))
    decreases |steps|
  {
    if |steps| == 0 {
    } else {
      StepKeepsStaleInv(s, steps[0]);
      RunKeepsStaleInv(Apply(s, steps[0]), steps[1..]);
    }
  }

  /** What a robot that remembers 0 costs: the first chunk is never accepted, yet dropped as acknowledged like any
      other; all chunks after it are delivered exactly once and in order. */
  lemma {:induction false} FirstChunkIsLost<RC, RR>(steps: seq<Step<RC, RR>>)
    ensures var s, stream := Run(LinkFrom<RC, RR>(0), steps), StreamOf(QueuedDatagrams(steps));
            || (s.robot.accepted == [] && s.dropped == [] && Pending(s.host) == stream)
            || (|stream| > 0 && ExactlyOnce(Prefixed(s, stream[0]), stream))
  {
    var start := LinkFrom<RC, RR>(0);
    var s, stream := Run(start, steps), StreamOf(QueuedDatagrams(steps));
    RunKeepsStaleInv(start, steps);
    QueuedIsTheStream(start, steps);
    assert [] + stream == stream;
    if !Untouched(s) {
      InvGivesExactlyOnce(Prefixed(s, stream[0]));
    }
  }

  function FailingSteps<RC, RR>(regular: RC, reply: Packet<ResponseType, RR>): seq<Step<RC, RR>> {
    [QueueDatagram(ReadRobotIdCommand), HostSend(regular), RobotSend(reply), HostReceive]
  }

  lemma {:induction false} DroppedUnaccepted<RC, RR>(regular: RC, reply: Packet<ResponseType, RR>)
    ensures var steps := FailingSteps(regular, reply);
            var s := Run(LinkFrom<RC, RR>(0), steps);
            s.robot.accepted == [] && |s.dropped| == 1 && !ExactlyOnce(s, StreamOf(QueuedDatagrams(steps)))
  {
    var steps := FailingSteps(regular, reply);
    var s0 := LinkFrom<RC, RR>(0);
    var s1 := Apply(s0, steps[0]);
    var s2 := Apply(s1, steps[1]);
    var s3 := Apply(s2, steps[2]);
    var s4 := Apply(s3, steps[3]);
    assert steps[1..][1..] == steps[2..] && steps[2..][1..] == steps[3..] && steps[3..][1..] == [];
    assert Run(s0, steps) == Run(s1, steps[1..]) == Run(s2, steps[2..]) == Run(s3, steps[3..]) == Run(s4, []);
    assert s1.host.datagramQueue == [ReadRobotIdCommand];
    assert s2.host.outstanding.Some? && s2.host.outstanding.value.seqnum == 0;
    assert s3.toHost[0].header.acknum == 0;
    assert s4.host.outstanding.None? && s4.dropped == [s2.host.outstanding.value.chunk];
  }

  /** Exactly-once delivery holds of all runs if and only if the robot remembers number 1. */
  lemma {:induction false} ExactlyOnceIffRobotRemembersOne<RC(!new), RR(!new)>(b: Bit, regular: RC,
                                                                              reply: Packet<ResponseType, RR>)
    ensures (forall steps: seq<Step<RC, RR>> ::
               ExactlyOnce(Run(LinkFrom<RC, RR>(b), steps), StreamOf(QueuedDatagrams(steps)))) <==> b == 1
  {
    if b == 1 {
      forall steps: seq<Step<RC, RR>>
        ensures ExactlyOnce(Run(LinkFrom<RC, RR>(b), steps), StreamOf(QueuedDatagrams(steps)))
      {
        ExactlyOnceInOrder(steps);
      }
    } else {
      DroppedUnaccepted(regular, reply);
      var steps := FailingSteps(regular, reply);
      assert !ExactlyOnce(Run(LinkFrom<RC, RR>(b), steps), StreamOf(QueuedDatagrams(steps)));
    }
  }
}
