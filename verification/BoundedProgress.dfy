/** Progress of the stop-and-wait sender: each lost packet costs at most two extra rounds. A round is one
    command packet and the robot's reply to it, starting and ending with empty channels. */
module BoundedProgress {
  import opened Datagrams
  import opened RadioProtocol
  import opened LossyLink

  datatype Outcome = Delivered | CommandLost | ReplyLost

  datatype Round<RC, RR> = Round(outcome: Outcome, regular: RC, reply: Packet<ResponseType, RR>)

  function RoundSteps<RC, RR>(r: Round<RC, RR>): seq<Step<RC, RR>> {
    [HostSend(r.regular)] +
    match r.outcome
    case CommandLost => [LoseCommand(0)]
    case ReplyLost => [RobotReceive, RobotSend(r.reply), LoseReply(0)]
    case Delivered => [RobotReceive, RobotSend(r.reply), HostReceive]
  }

  function AllSteps<RC, RR>(rs: seq<Round<RC, RR>>): seq<Step<RC, RR>>
    decreases |rs|
  {
    if |rs| == 0 then [] else RoundSteps(rs[0]) + AllSteps(rs[1..])
  }

  /** Rounds in which the command or the reply was lost. */
  function Losses<RC, RR>(rs: seq<Round<RC, RR>>): nat
    decreases |rs|
  {
    if |rs| == 0 then 0 else (if rs[0].outcome.Delivered? then 0 else 1) + Losses(rs[1..])
  }

  predicate Quiescent<RC, RR>(s: Link<RC, RR>) {
    LinkInv(s) && |s.toRobot| == 0 && |s.toHost| == 0
  }

  /** Rounds still needed if nothing more is lost: one per pending chunk, and one more while the next
      round of an unaccepted chunk is a cooldown round. */
  function Remaining<RC, RR>(s: Link<RC, RR>): nat {
    |Pending(s.host)| + (if AwaitingAccept(s) && s.host.cycles == 0 then 1 else 0)
  }

  lemma {:induction false} RunConcat<RC, RR>(s: Link<RC, RR>, a: seq<Step<RC, RR>>, b: seq<Step<RC, RR>>)
    ensures Run(s, a + b) == Run(Run(s, a), b)
    decreases |a|
  {
    if |a| == 0 {
      assert a + b == b;
    } else {
      assert (a + b)[1..] == a[1..] + b;
      RunConcat(Apply(s, a[0]), a[1..], b);
    }
  }

  function AfterRound<RC, RR>(s: Link<RC, RR>, r: Round<RC, RR>): Link<RC, RR> {
    var s1 := Apply(s, HostSend(r.regular));
    match r.outcome
    case CommandLost => Apply(s1, LoseCommand(0))
    case ReplyLost => Apply(Apply(Apply(s1, RobotReceive), RobotSend(r.reply)), LoseReply(0))
    case Delivered => Apply(Apply(Apply(s1, RobotReceive), RobotSend(r.reply)), HostReceive)
  }

  lemma {:induction false} RunCons<RC, RR>(s: Link<RC, RR>, step: Step<RC, RR>, rest: seq<Step<RC, RR>>)
    ensures Run(s, [step] + rest) == Run(Apply(s, step), rest)
  {
    assert ([step] + rest)[1..] == rest;
  }

  lemma {:induction false} RoundIsRun<RC, RR>(s: Link<RC, RR>, r: Round<RC, RR>)
    ensures Run(s, RoundSteps(r)) == AfterRound(s, r)
  {
    var s1 := Apply(s, HostSend(r.regular));
    var reply := RobotSend(r.reply);
    match r.outcome
    case CommandLost =>
      RunCons(s, HostSend(r.regular), [LoseCommand(0)]);
      RunCons(s1, LoseCommand(0), []);
      assert RoundSteps(r) == [HostSend(r.regular)] + ([LoseCommand(0)] + []);
    case ReplyLost =>
      RunTail(s1, r.reply, LoseReply(0));
      RunCons(s, HostSend(r.regular), [RobotReceive, reply, LoseReply(0)]);
    case Delivered =>
      RunTail(s1, r.reply, HostReceive);
      RunCons(s, HostSend(r.regular), [RobotReceive, reply, HostReceive]);
  }

  /** The robot's half of a round, and how it ends. */
  lemma {:induction false} RunTail<RC, RR>(s: Link<RC, RR>, reply: Packet<ResponseType, RR>, end: Step<RC, RR>)
    ensures Run(s, [RobotReceive, RobotSend(reply), end]) == Apply(Apply(Apply(s, RobotReceive), RobotSend(reply)), end)
  {
    var s2 := Apply(s, RobotReceive);
    RunCons(s, RobotReceive, [RobotSend(reply), end]);
    RunCons(s2, RobotSend(reply), [end]);
    RunCons(Apply(s2, RobotSend(reply)), end, []);
    assert [RobotReceive, RobotSend(reply), end] == [RobotReceive] + [RobotSend(reply), end];
    assert [RobotSend(reply), end] == [RobotSend(reply)] + [end];
    assert [end] + [] == [end];
  }

  lemma RoundKeepsQuiescent<RC, RR>(s: Link<RC, RR>, r: Round<RC, RR>)
    requires Quiescent(s)
    ensures Quiescent(AfterRound(s, r)) && AfterRound(s, r).queued == s.queued
  {
    RoundIsRun(s, r);
    RunKeepsInv(s, RoundSteps(r));
  }

  lemma {:induction false} DeliveredProgress<RC, RR>(s: Link<RC, RR>, r: Round<RC, RR>)
    requires Quiescent(s) && r.outcome.Delivered?
    ensures var s' := AfterRound(s, r);
            && (Remaining(s) > 0 ==> Remaining(s') <= Remaining(s) - 1)
            && (|Pending(s.host)| == 0 ==> |Pending(s'.host)| == 0)
  {
    SendKeepsPending(s.host, r.regular);
    var s3 := Apply(Apply(Apply(s, HostSend(r.regular)), RobotReceive), RobotSend(r.reply));
    assert s3.host == Send(s.host, r.regular).0;
    ReceiveShortensPending(s3.host, s3.toHost[0]);
  }

  lemma {:induction false} LossProgress<RC, RR>(s: Link<RC, RR>, r: Round<RC, RR>)
    requires Quiescent(s) && !r.outcome.Delivered?
    ensures var s' := AfterRound(s, r);
            && Remaining(s') <= Remaining(s) + 1
            && (|Pending(s.host)| == 0 ==> |Pending(s'.host)| == 0)
  {
    SendKeepsPending(s.host, r.regular);
    assert AfterRound(s, r).host == Send(s.host, r.regular).0;
  }

  lemma {:induction false} RoundProgress<RC, RR>(s: Link<RC, RR>, r: Round<RC, RR>)
    requires Quiescent(s)
    ensures var s' := AfterRound(s, r);
            && (r.outcome.Delivered? && Remaining(s) > 0 ==> Remaining(s') <= Remaining(s) - 1)
            && (!r.outcome.Delivered? ==> Remaining(s') <= Remaining(s) + 1)
            && (|Pending(s.host)| == 0 ==> |Pending(s'.host)| == 0)
  {
    if r.outcome.Delivered? {
      DeliveredProgress(s, r);
    } else {
      LossProgress(s, r);
    }
  }

  /** From any quiescent state of the link, Remaining + 2L rounds with at most L losses deliver and
      acknowledge everything that was pending. */
  lemma {:induction false} RoundsFinish<RC, RR>(s: Link<RC, RR>, rs: seq<Round<RC, RR>>)
    requires Quiescent(s)
    requires |Pending(s.host)| == 0 || |rs| >= Remaining(s) + 2 * Losses(rs)
    ensures var s' := Run(s, AllSteps(rs));
            Quiescent(s') && s'.queued == s.queued && |Pending(s'.host)| == 0
    decreases |rs|
  {
    if |rs| == 0 {
    } else {
      RoundIsRun(s, rs[0]);
      RunConcat(s, RoundSteps(rs[0]), AllSteps(rs[1..]));
      RoundKeepsQuiescent(s, rs[0]);
      RoundProgress(s, rs[0]);
      RoundsFinish(AfterRound(s, rs[0]), rs[1..]);
    }
  }

  /** Starting with N pending chunks and none outstanding, after N + 2L rounds of which at most L lost the command
      or the reply, every queued chunk is accepted by the robot and dropped as acknowledged by the host. */
  lemma {:induction false} BoundedDelivery<RC, RR>(s: Link<RC, RR>, rs: seq<Round<RC, RR>>, losses: nat)
    requires Quiescent(s) && s.host.outstanding.None?
    requires Losses(rs) <= losses && |rs| >= |Pending(s.host)| + 2 * losses
    ensures var s' := Run(s, AllSteps(rs));
            s'.robot.accepted == s'.dropped == s.queued && s'.host.outstanding.None?
  {
    RoundsFinish(s, rs);
    var s' := Run(s, AllSteps(rs));
    assert s'.dropped + [] == s'.queued;
  }

  /** L losses, each a lost command followed by a useless cooldown round. */
  function WorstCase<RC, RR>(losses: nat, regular: RC, reply: Packet<ResponseType, RR>): seq<Round<RC, RR>> {
    if losses == 0 then []
    else [Round(CommandLost, regular, reply), Round(Delivered, regular, reply)] + WorstCase(losses - 1, regular, reply)
  }

  /** Something is pending, and the next round sends a chunk that the robot has not accepted yet. */
  predicate Stuck<RC, RR>(s: Link<RC, RR>) {
    && Quiescent(s) && |Pending(s.host)| > 0
    && (s.host.outstanding.None? || (AwaitingAccept(s) && s.host.cycles == 1))
  }

  /** A lost command and the cooldown round after it change neither the host's pending chunks nor the robot. */
  lemma WastedRounds<RC, RR>(s: Link<RC, RR>, lost: Round<RC, RR>, cooldown: Round<RC, RR>)
    requires Stuck(s)
    requires lost.outcome.CommandLost? && cooldown.outcome.Delivered?
    ensures var s' := AfterRound(AfterRound(s, lost), cooldown);
            Stuck(s') && Pending(s'.host) == Pending(s.host) && s'.robot == s.robot
  {
    var s1 := AfterRound(s, lost);
    RoundKeepsQuiescent(s, lost);
    SendKeepsPending(s.host, lost.regular);
    assert Pending(s1.host) == Pending(s.host) && s1.robot == s.robot;
    assert AwaitingAccept(s1) && s1.host.cycles == 0;
    RoundKeepsQuiescent(s1, cooldown);
    CooldownRound(s1, cooldown);
  }

  lemma CooldownRound<RC, RR>(s: Link<RC, RR>, r: Round<RC, RR>)
    requires Quiescent(s) && AwaitingAccept(s) && s.host.cycles == 0 && r.outcome.Delivered?
    ensures var s' := AfterRound(s, r);
            Pending(s'.host) == Pending(s.host) && s'.robot == s.robot && AwaitingAccept(s') && s'.host.cycles == 1
  {
    SendKeepsPending(s.host, r.regular);
    var s3 := Apply(Apply(Apply(s, HostSend(r.regular)), RobotReceive), RobotSend(r.reply));
    assert s3.robot == s.robot && s3.host == Send(s.host, r.regular).0;
    ReceiveShortensPending(s3.host, s3.toHost[0]);
  }

  lemma {:induction false} RunTwoRounds<RC, RR>(s: Link<RC, RR>, a: Round<RC, RR>, b: Round<RC, RR>,
                                                rest: seq<Round<RC, RR>>)
    ensures Run(s, AllSteps([a, b] + rest)) == Run(AfterRound(AfterRound(s, a), b), AllSteps(rest))
  {
    var rs := [a, b] + rest;
    assert rs[1..] == [b] + rest && rs[1..][1..] == rest;
    RoundIsRun(s, a);
    RunConcat(s, RoundSteps(a), AllSteps(rs[1..]));
    var s1 := AfterRound(s, a);
    RoundIsRun(s1, b);
    RunConcat(s1, RoundSteps(b), AllSteps(rest));
  }

  lemma {:induction false} WorstCaseCounts<RC, RR>(losses: nat, regular: RC, reply: Packet<ResponseType, RR>)
    ensures var rs := WorstCase(losses, regular, reply);
            |rs| == 2 * losses && Losses(rs) == losses
    decreases losses
  {
    if losses == 0 {
    } else {
      var rest := WorstCase(losses - 1, regular, reply);
      WorstCaseCounts(losses - 1, regular, reply);
      assert WorstCase(losses, regular, reply)[1..][1..] == rest;
    }
  }

  lemma {:induction false} WasteTwoRounds<RC, RR>(s: Link<RC, RR>, losses: nat, regular: RC,
                                                  reply: Packet<ResponseType, RR>) returns (s': Link<RC, RR>)
    requires Stuck(s) && losses > 0
    ensures Stuck(s') && Pending(s'.host) == Pending(s.host) && s'.robot == s.robot
    ensures Run(s, AllSteps(WorstCase(losses, regular, reply)))
         == Run(s', AllSteps(WorstCase(losses - 1, regular, reply)))
  {
    var a, b := Round(CommandLost, regular, reply), Round(Delivered, regular, reply);
    s' := AfterRound(AfterRound(s, a), b);
    WastedRounds(s, a, b);
    RunTwoRounds(s, a, b, WorstCase(losses - 1, regular, reply));
    assert WorstCase(losses, regular, reply) == [a, b] + WorstCase(losses - 1, regular, reply);
  }

  lemma {:induction false} WorstCaseDeliversNothing<RC, RR>(s: Link<RC, RR>, losses: nat, regular: RC,
                                                            reply: Packet<ResponseType, RR>)
    requires Stuck(s)
    ensures var s' := Run(s, AllSteps(WorstCase(losses, regular, reply)));
            Pending(s'.host) == Pending(s.host) && s'.robot == s.robot
    decreases losses
  {
    if losses == 0 {
    } else {
      var s' := WasteTwoRounds(s, losses, regular, reply);
      WorstCaseDeliversNothing(s', losses - 1, regular, reply);
    }
  }

  /** The bound cannot be lowered: 2L rounds with L losses may deliver nothing at all. */
  lemma {:induction false} LossCostsTwoRounds<RC, RR>(s: Link<RC, RR>, losses: nat, regular: RC,
                                                      reply: Packet<ResponseType, RR>)
    requires Quiescent(s) && |Pending(s.host)| > 0 && s.host.outstanding.None?
    ensures var rs := WorstCase(losses, regular, reply);
            && |rs| == 2 * losses && Losses(rs) == losses
            && Pending(Run(s, AllSteps(rs)).host) == Pending(s.host)
            && Run(s, AllSteps(rs)).robot == s.robot
  {
    WorstCaseCounts(losses, regular, reply);
    WorstCaseDeliversNothing(s, losses, regular, reply);
  }
}
