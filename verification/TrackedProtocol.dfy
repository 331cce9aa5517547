/** The protocol object with metrics switched on: `NextPacket` hands the counter it puts into the header to the
    tracker, and `PacketReceived` the counter it finds there. Without metrics the object is just
    `RadioProtocol2025`. */
module TrackedProtocol {
  import opened Options
  import opened PacketCounter
  import opened Datagrams
  import opened RadioProtocol
  import opened Metrics

  /** How many packets may be pending in the tracker that the protocol object creates. */
  const MAX_PENDING: nat := 5

  datatype Tracked = Tracked(host: Host, tracker: Tracker)

  datatype TrackedOp<RC, RR> =
    | SendPacket(regular: RC, time: Instant)
    | TakePacket(packet: Packet<ResponseType, RR>, now: Instant)
    | QueueUp(datagram: CommandDatagram)

  ghost predicate TrackedStep<RC, RR>(s: Tracked, op: TrackedOp<RC, RR>, s': Tracked) {
    match op
    case SendPacket(regular, time) =>
      var (h, p) := Send(s.host, regular);
      s'.host == h && SentStep(s.tracker, p.header.counter, time, s'.tracker)
    case TakePacket(p, now) =>
      s' == Tracked(Receive(s.host, p).0, Received(s.tracker, p.header.counter, now))
    case QueueUp(d) =>
      s' == Tracked(Queue(s.host, d), s.tracker)
  }

  ghost predicate TrackedRun<RC, RR>(maxPending: nat, ops: seq<TrackedOp<RC, RR>>, states: seq<Tracked>) {
    && |states| == |ops| + 1 && states[0] == Tracked(NEW_HOST, NewTracker(maxPending))
    && forall i :: 0 <= i < |ops| ==> TrackedStep(states[i], ops[i], states[i + 1])
  }

  /** The tracker's view of an operation and of a run. */
  function OpOf<RC, RR>(op: TrackedOp<RC, RR>): Op {
    match op
    case SendPacket(_, time) => SendAt(time)
    case TakePacket(p, now) => Answer(p.header.counter, now)
    case QueueUp(_) => Unrelated
  }

  function OpsOf<RC, RR>(ops: seq<TrackedOp<RC, RR>>): seq<Op> {
    seq(|ops|, i requires 0 <= i < |ops| => OpOf(ops[i]))
  }

  function TrackersOf(states: seq<Tracked>): seq<Tracker> {
    seq(|states|, i requires 0 <= i < |states| => states[i].tracker)
  }

  /** The header counter is the number of calls modulo 64. */
  ghost predicate InStep(s: Tracked) {
    HostInv(s.host) && Conserved(s.tracker) && s.host.counter == s.tracker.calls % COUNTER_RANGE
  }

  function HostOpOf<RC, RR>(op: TrackedOp<RC, RR>): HostOp<RC, RR> {
    match op
    case SendPacket(regular, _) => SendOp(regular)
    case TakePacket(p, _) => ReceiveOp(p)
    case QueueUp(d) => QueueOp(d)
  }

  /** A step of the tracked protocol is a step of the tracker under the wrapping counter. */
  lemma {:induction false} TrackedStepIsDriven<RC, RR>(s: Tracked, op: TrackedOp<RC, RR>, s': Tracked)
    requires InStep(s) && TrackedStep(s, op, s')
    ensures InStep(s') && DrivenStep(s.tracker, OpOf(op), s'.tracker)
    ensures s'.host == ApplyOp(s.host, HostOpOf(op))
  {
    OpKeepsHostInv(s.host, HostOpOf(op));
    OpCounter(s.host, HostOpOf(op));
    TrackerInStep(s.tracker, OpOf(op), s'.tracker, s.host.counter);
  }

  lemma {:induction false} SendInStep(t: Tracker, counter: nat, time: Instant, t': Tracker)
    requires Conserved(t) && counter == t.calls % COUNTER_RANGE && SentStep(t, counter, time, t')
    ensures Conserved(t') && t'.calls % COUNTER_RANGE == (counter + 1) % COUNTER_RANGE
  {
    SentKeepsConserved(t, counter, time, t');
    ModuloAdd(t.calls, 1);
  }

  /** The tracker's part of a step, given the counter it is handed. */
  lemma {:induction false} TrackerInStep(t: Tracker, op: Op, t': Tracker, counter: nat)
    requires Conserved(t) && counter == t.calls % COUNTER_RANGE
    requires match op
             case SendAt(time) => SentStep(t, counter, time, t')
             case Answer(c, now) => t' == Received(t, c, now)
             case Unrelated => t' == t
    ensures Conserved(t') && DrivenStep(t, op, t')
    ensures t'.calls % COUNTER_RANGE == if op.SendAt? then (counter + 1) % COUNTER_RANGE else counter
  {
    match op
    case SendAt(time) =>
      SendInStep(t, counter, time, t');
    case Answer(c, now) =>
      ReceivedKeepsConserved(t, c, now);
    case Unrelated =>
  }

  lemma {:induction false} TrackedRunInStep<RC, RR>(maxPending: nat, ops: seq<TrackedOp<RC, RR>>, states: seq<Tracked>,
                                                    i: nat)
    requires TrackedRun(maxPending, ops, states) && i < |states|
    ensures InStep(states[i])
  {
    if i == 0 {
    } else {
      TrackedRunInStep(maxPending, ops, states, i - 1);
      TrackedStepIsDriven(states[i - 1], ops[i - 1], states[i]);
    }
  }

  /** Every run of the protocol object with metrics is, for the tracker, a run driven by the wrapping counter; so
      all that is proved of such runs holds of the tracker in use. */
  lemma {:induction false} TrackedRunIsDriven<RC, RR>(maxPending: nat, ops: seq<TrackedOp<RC, RR>>,
                                                      states: seq<Tracked>)
    requires TrackedRun(maxPending, ops, states)
    ensures DrivenRun(maxPending, OpsOf(ops), TrackersOf(states))
  {
    forall i | 0 <= i < |ops| ensures DrivenStep(TrackersOf(states)[i], OpsOf(ops)[i], TrackersOf(states)[i + 1]) {
      TrackedRunInStep(maxPending, ops, states, i);
      TrackedStepIsDriven(states[i], ops[i], states[i + 1]);
    }
  }

  /** The counter of the next packet was last used exactly 64 packets earlier. The fate of that packet is lost only
      if it is still pending; with increasing send times, if and only if also fewer than maxPending packets are. */
  lemma {:induction false} NextPacketOverwritesIff<RC, RR>(maxPending: nat, ops: seq<TrackedOp<RC, RR>>,
                                                           states: seq<Tracked>, i: nat)
    requires TrackedRun(maxPending, ops, states)
    requires i < |ops| && ops[i].SendPacket?
    ensures var t, t' := states[i].tracker, states[i + 1].tracker;
            && Conserved(t) && RecentOnly(t)
            && (SlotMustStay(t) ==> t'.overwritten != t.overwritten)
            && (t'.overwritten != t.overwritten ==> SlotMayStay(t))
            && (SendTimesIncrease(OpsOf(ops)) ==>
                  (t'.overwritten != t.overwritten <==>
                   (exists c :: c in t.pending && t.pending[c].call == t.calls - COUNTER_RANGE)
                   && |t.pending| < maxPending))
  {
    TrackedRunIsDriven(maxPending, ops, states);
    DrivenRunConserves(maxPending, OpsOf(ops), TrackersOf(states), i);
    OverwritesAlongRun(maxPending, OpsOf(ops), TrackersOf(states), i);
  }

  /** The sample that a response to packet n takes is n's own if and only if fewer than 64 packets were sent after n. */
  lemma {:induction false} ResponseSampleIsOwnIff<RC, RR>(maxPending: nat, ops: seq<TrackedOp<RC, RR>>,
                                                          states: seq<Tracked>, i: nat, n: nat)
    requires TrackedRun(maxPending, ops, states) && i < |ops| && ops[i].TakePacket?
    requires ops[i].packet.header.counter == n % COUNTER_RANGE && n < states[i].tracker.calls
    ensures var t, t' := states[i].tracker, states[i + 1].tracker;
            if n % COUNTER_RANGE !in t.pending then t' == t
            else
              && |t'.samples| == |t.samples| + 1
              && (t'.samples[|t.samples|].call == n <==> n >= t.calls - COUNTER_RANGE)
  {
    TrackedRunIsDriven(maxPending, ops, states);
    SampleIsOwnIff(maxPending, OpsOf(ops), TrackersOf(states), i, n);
  }

  // ---- The object ----

  class TrackedRadioProtocol<RC, RR> {
    const protocol: RadioProtocol2025<RC, RR>
    const metricsTracker: MetricsTracker

    ghost function State(): Tracked
      reads protocol, metricsTracker
    {
      Tracked(protocol.State(), metricsTracker.State())
    }

    ghost predicate Valid()
      reads protocol, metricsTracker
    {
      InStep(State())
    }

    constructor ()
      ensures Valid() && fresh(protocol) && fresh(metricsTracker)
      ensures State() == Tracked(NEW_HOST, NewTracker(5))
    {
      protocol := new RadioProtocol2025();
      metricsTracker := new MetricsTracker(MAX_PENDING);
    }

    method NextPacket(regularData: RC, now: Instant) returns (packet: Packet<CommandType, RC>)
      requires Valid()
      modifies protocol, metricsTracker
      ensures Valid()
      ensures TrackedStep<RC, RR>(old(State()), SendPacket(regularData, now), State())
      ensures packet == Send(old(State()).host, regularData).1
    {
      ghost var before := State();
      packet := protocol.NextPacket(regularData);
      metricsTracker.Sent(packet.header.counter, now);
      TrackedStepIsDriven<RC, RR>(before, SendPacket(regularData, now), State());
    }

    method PacketReceived(packet: Packet<ResponseType, RR>, timestamp: Instant) returns (result: RxResult<RR>)
      requires Valid()
      modifies protocol, metricsTracker
      ensures Valid()
      ensures TrackedStep<RC, RR>(old(State()), TakePacket(packet, timestamp), State())
      ensures result == Receive(old(State()).host, packet).1
    {
      ghost var before := State();
      metricsTracker.ReceivedAt(packet.header.counter, timestamp);
      result := protocol.PacketReceived(packet);
      TrackedStepIsDriven<RC, RR>(before, TakePacket(packet, timestamp), State());
    }
  }
}
