/** What the driver's state means for one robot, read off the list of everything that happened: the transceivers'
    events and the calls of the driver's user. A session is the part of that list that concerns a robot's present
    connection. */
module DriverSessions {
  import opened Options
  import opened Datagrams
  import opened RadioProtocol
  import opened Reassembly
  import opened IdFilter
  import opened DualMap
  import opened Transceivers
  import opened ConnectionLog
  import opened ConnectionDrivers

  /** One event of a transceiver, or one call of the driver's user. */
  datatype Action =
    | Happened(event: Event, full: bool)
    | Sent(id: byte, regular: RegularCommand)
    | Queued(id: byte, datagram: CommandDatagram)

  ghost function Act(w: World, x: Action): World {
    match x
    case Happened(e, full) => Handle(w, e, full)
    case Sent(id, regular) => Step(w, SendPacket(id, regular))
    case Queued(id, d) => Step(w, QueueDatagram(id, d))
  }

  ghost function ActAll(w: World, xs: seq<Action>): World {
    if |xs| == 0 then w else Act(ActAll(w, xs[..|xs| - 1]), xs[|xs| - 1])
  }

  function ActionsOf(step: WorldStep): seq<Action> {
    match step
    case Batch(es, full) => seq(|es|, i requires 0 <= i < |es| => Happened(es[i], full(i)))
    case SendPacket(id, regular) => [Sent(id, regular)]
    case QueueDatagram(id, d) => [Queued(id, d)]
  }

  function AllActions(steps: seq<WorldStep>): seq<Action>
    decreases |steps|
  {
    if |steps| == 0 then [] else ActionsOf(steps[0]) + AllActions(steps[1..])
  }

  // ---- Runs as lists of actions ----

  lemma {:induction false} ActAllSnoc(w: World, xs: seq<Action>, x: Action)
    ensures ActAll(w, xs + [x]) == Act(ActAll(w, xs), x)
  {
    assert (xs + [x])[..|xs|] == xs;
  }

  lemma {:induction false} ActAllConcat(w: World, xs: seq<Action>, ys: seq<Action>)
    ensures ActAll(w, xs + ys) == ActAll(ActAll(w, xs), ys)
    decreases |ys|
  {
    if |ys| == 0 {
      assert xs + ys == xs;
    } else {
      var n := |ys| - 1;
      ActAllConcat(w, xs, ys[..n]);
      assert xs + ys == (xs + ys[..n]) + [ys[n]];
      ActAllSnoc(w, xs + ys[..n], ys[n]);
    }
  }

  /** Every event comes as the transceivers' discipline allows. */
  ghost predicate Orderly(w: World, xs: seq<Action>) {
    |xs| == 0 ||
    (var n := |xs| - 1;
     Orderly(w, xs[..n]) &&
     (xs[n].Happened? ==> exists f :: Allowed(ActAll(w, xs[..n]).live, xs[n].event, f)))
  }

  lemma {:induction false} OrderlySnoc(w: World, xs: seq<Action>, x: Action)
    requires Orderly(w, xs)
    requires x.Happened? ==> exists f :: Allowed(ActAll(w, xs).live, x.event, f)
    ensures Orderly(w, xs + [x])
  {
    assert (xs + [x])[..|xs|] == xs;
  }

  lemma {:induction false} OrderlyConcat(w: World, xs: seq<Action>, ys: seq<Action>)
    requires Orderly(w, xs) && Orderly(ActAll(w, xs), ys)
    ensures Orderly(w, xs + ys)
    decreases |ys|
  {
    if |ys| == 0 {
      assert xs + ys == xs;
    } else {
      var n := |ys| - 1;
      OrderlyConcat(w, xs, ys[..n]);
      ActAllConcat(w, xs, ys[..n]);
      assert xs + ys == (xs + ys[..n]) + [ys[n]];
      OrderlySnoc(w, xs + ys[..n], ys[n]);
    }
  }

  lemma {:induction false} OrderlyPrefix(w: World, xs: seq<Action>, n: nat)
    requires Orderly(w, xs) && n <= |xs|
    ensures Orderly(w, xs[..n])
    decreases |xs|
  {
    if n == |xs| {
      assert xs[..n] == xs;
    } else {
      OrderlyPrefix(w, xs[..|xs| - 1], n);
      assert xs[..|xs| - 1][..n] == xs[..n];
    }
  }

  lemma BatchSnoc(es: seq<Event>, full: nat -> bool)
    requires |es| > 0
    ensures var n := |es| - 1;
            ActionsOf(Batch(es, full)) == ActionsOf(Batch(es[..n], full)) + [Happened(es[n], full(n))]
  {
  }

  lemma {:induction false} BatchIsActions(w: World, es: seq<Event>, full: nat -> bool, f: RobotIdFilter)
    requires Disciplined(w.live, es, f)
    ensures HandleAll(w, es, full) == ActAll(w, ActionsOf(Batch(es, full)))
    ensures HandleAll(w, es, full).live == LiveAfterAll(w.live, es)
    ensures Orderly(w, ActionsOf(Batch(es, full)))
    decreases |es|
  {
    if |es| == 0 {
    } else {
      var n := |es| - 1;
      var before := ActionsOf(Batch(es[..n], full));
      BatchIsActions(w, es[..n], full, f);
      BatchSnoc(es, full);
      ActAllSnoc(w, before, Happened(es[n], full(n)));
      OrderlySnoc(w, before, Happened(es[n], full(n)));
    }
  }

  lemma {:induction false} StepIsActions(w: World, step: WorldStep)
    requires Legal(w, step)
    ensures Step(w, step) == ActAll(w, ActionsOf(step)) && Orderly(w, ActionsOf(step))
  {
    match step
    case Batch(es, full) =>
      var f :| FilterExact(f, w.table) && Disciplined(w.live, es, f);
      BatchIsActions(w, es, full, f);
    case SendPacket(id, regular) =>
      ActAllSnoc(w, [], Sent(id, regular));
      OrderlySnoc(w, [], Sent(id, regular));
    case QueueDatagram(id, d) =>
      ActAllSnoc(w, [], Queued(id, d));
      OrderlySnoc(w, [], Queued(id, d));
  }

  lemma {:induction false} RunIsActions(w: World, steps: seq<WorldStep>)
    requires LegalRun(w, steps)
    ensures RunAll(w, steps) == ActAll(w, AllActions(steps)) && Orderly(w, AllActions(steps))
    decreases |steps|
  {
    if |steps| == 0 {
    } else {
      StepIsActions(w, steps[0]);
      RunIsActions(Step(w, steps[0]), steps[1..]);
      ActAllConcat(w, ActionsOf(steps[0]), AllActions(steps[1..]));
      OrderlyConcat(w, ActionsOf(steps[0]), AllActions(steps[1..]));
    }
  }

  lemma ActKeepsInv(w: World, x: Action)
    requires WorldInv(w)
    requires x.Happened? ==> exists f :: Allowed(w.live, x.event, f)
    ensures WorldInv(Act(w, x))
  {
    match x
    case Happened(e, full) =>
      var f :| Allowed(w.live, e, f);
      HandleKeepsInv(w, e, full, f);
    case Sent(id, regular) => StepKeepsInv(w, SendPacket(id, regular));
    case Queued(id, d) => StepKeepsInv(w, QueueDatagram(id, d));
  }

  // ---- Sessions ----

  predicate Connects(x: Action, id: byte) {
    x.Happened? && x.event.Connected? && x.event.id == id
  }

  predicate Leaves(x: Action, a: Address) {
    x.Happened? && x.event == Disconnected(a)
  }

  /** Where the robot's present connection was opened: by a connected event while it had none. It ends when its address
      is disconnected. */
  function OpenedAt(xs: seq<Action>, id: byte): (r: Option<nat>)
    ensures r.Some? ==> r.value < |xs| && Connects(xs[r.value], id)
  {
    if |xs| == 0 then None
    else
      var n := |xs| - 1;
      var r := OpenedAt(xs[..n], id);
      if r.Some? then if Leaves(xs[n], xs[r.value].event.addr) then None else r
      else if Connects(xs[n], id) then Some(n) else None
  }

  /** A call of the robot's protocol object; `full` says whether the outgoing channel drops what a packet brings. */
  datatype Call = Call(op: HostOp<RegularCommand, RegularResponse>, full: bool)

  /** The call that an action makes, for the robot `id` at address `a`. */
  function CallOf(x: Action, id: byte, a: Address): Option<Call> {
    match x
    case Happened(e, full) =>
      if e.PacketReceived? && e.addr == a then Some(Call(ReceiveOp(e.packet), full)) else None
    case Sent(i, regular) => if i == id then Some(Call(SendOp(regular), false)) else None
    case Queued(i, d) => if i == id then Some(Call(QueueOp(d), false)) else None
  }

  function CallsOf(xs: seq<Action>, id: byte, a: Address): seq<Call> {
    Somes(seq(|xs|, i requires 0 <= i < |xs| => CallOf(xs[i], id, a)))
  }

  datatype Session = Session(addr: Address, calls: seq<Call>)

  /** The robot's present connection: its address, and the calls since it was opened. */
  function SessionOf(xs: seq<Action>, id: byte): Option<Session> {
    var at := OpenedAt(xs, id);
    if at.None? then None
    else
      var a := xs[at.value].event.addr;
      Some(Session(a, CallsOf(xs[at.value + 1..], id, a)))
  }

  function Ops(calls: seq<Call>): seq<HostOp<RegularCommand, RegularResponse>> {
    seq(|calls|, i requires 0 <= i < |calls| => calls[i].op)
  }

  function PacketIn(c: Call): Option<ResponsePacket> {
    if c.op.ReceiveOp? then Some(c.op.packet) else None
  }

  /** The packets received. */
  function PacketsIn(calls: seq<Call>): seq<ResponsePacket> {
    Somes(seq(|calls|, i requires 0 <= i < |calls| => PacketIn(calls[i])))
  }

  function KeptIn(c: Call): Option<RegularResponse> {
    if c.op.ReceiveOp? && c.op.packet.Regular? && !c.full then Some(c.op.packet.regular) else None
  }

  /** The regular responses that came while the outgoing channel had room. */
  function KeptRegulars(calls: seq<Call>): seq<RegularResponse> {
    Somes(seq(|calls|, i requires 0 <= i < |calls| => KeptIn(calls[i])))
  }

  /** The datagrams logged for a robot since it last connected. */
  function DatagramsSince(log: seq<DriverEvent>, id: byte): seq<ResponseDatagram> {
    if |log| == 0 then []
    else
      var e, before := log[|log| - 1], DatagramsSince(log[..|log| - 1], id);
      if e.RobotConnected? && e.id == id then []
      else if e.DatagramReceived? && e.id == id then before + [e.datagram]
      else before
  }

  /** The regular responses logged for a robot since it last connected. */
  function RegularsSince(log: seq<DriverEvent>, id: byte): seq<RegularResponse> {
    if |log| == 0 then []
    else
      var e, before := log[|log| - 1], RegularsSince(log[..|log| - 1], id);
      if e.RobotConnected? && e.id == id then []
      else if e.RegularReceived? && e.id == id then before + [e.response]
      else before
  }

  // ---- How a session grows ----

  function NextSession(s: Option<Session>, x: Action, id: byte): Option<Session> {
    if s.Some? then
      if Leaves(x, s.value.addr) then None
      else
        var call := CallOf(x, id, s.value.addr);
        Some(Session(s.value.addr, s.value.calls + if call.Some? then [call.value] else []))
    else if Connects(x, id) then Some(Session(x.event.addr, []))
    else None
  }

  lemma {:induction false} CallsSnoc(xs: seq<Action>, x: Action, id: byte, a: Address)
    ensures CallsOf(xs + [x], id, a) ==
            CallsOf(xs, id, a) + if CallOf(x, id, a).Some? then [CallOf(x, id, a).value] else []
  {
    var ys := xs + [x];
    var before := seq(|xs|, i requires 0 <= i < |xs| => CallOf(xs[i], id, a));
    assert seq(|ys|, i requires 0 <= i < |ys| => CallOf(ys[i], id, a)) == before + [CallOf(x, id, a)];
    SomesSnoc(before, CallOf(x, id, a));
  }

  lemma {:induction false} OpenedSnoc(xs: seq<Action>, x: Action, id: byte)
    ensures var r := OpenedAt(xs, id);
            OpenedAt(xs + [x], id) ==
            if r.Some? then if Leaves(x, xs[r.value].event.addr) then None else r
            else if Connects(x, id) then Some(|xs|) else None
  {
    assert (xs + [x])[..|xs|] == xs;
  }

  lemma {:induction false} SessionSnoc(xs: seq<Action>, x: Action, id: byte)
    ensures SessionOf(xs + [x], id) == NextSession(SessionOf(xs, id), x, id)
  {
    OpenedSnoc(xs, x, id);
    var at := OpenedAt(xs, id);
    if at.Some? {
      var k := at.value + 1;
      assert (xs + [x])[k..] == xs[k..] + [x];
      CallsSnoc(xs[k..], x, id, xs[at.value].event.addr);
    } else if Connects(x, id) {
      assert (xs + [x])[|xs| + 1..] == [];
    }
  }

  lemma {:induction false} OpsSnoc(calls: seq<Call>, c: Call)
    ensures Ops(calls + [c]) == Ops(calls) + [c.op]
    ensures PacketsIn(calls + [c]) == PacketsIn(calls) + if PacketIn(c).Some? then [PacketIn(c).value] else []
    ensures KeptRegulars(calls + [c]) == KeptRegulars(calls) + if KeptIn(c).Some? then [KeptIn(c).value] else []
  {
    var more := calls + [c];
    var packets := seq(|calls|, i requires 0 <= i < |calls| => PacketIn(calls[i]));
    var kept := seq(|calls|, i requires 0 <= i < |calls| => KeptIn(calls[i]));
    assert seq(|more|, i requires 0 <= i < |more| => PacketIn(more[i])) == packets + [PacketIn(c)];
    assert seq(|more|, i requires 0 <= i < |more| => KeptIn(more[i])) == kept + [KeptIn(c)];
    SomesSnoc(packets, PacketIn(c));
    SomesSnoc(kept, KeptIn(c));
  }

  lemma {:induction false} SinceSnoc(log: seq<DriverEvent>, e: DriverEvent, id: byte)
    ensures DatagramsSince(log + [e], id) ==
            if e.RobotConnected? && e.id == id then []
            else DatagramsSince(log, id) + if e.DatagramReceived? && e.id == id then [e.datagram] else []
    ensures RegularsSince(log + [e], id) ==
            if e.RobotConnected? && e.id == id then []
            else RegularsSince(log, id) + if e.RegularReceived? && e.id == id then [e.response] else []
  {
    assert (log + [e])[..|log|] == log;
  }

  // ---- The stored state of a robot is that of its session ----

  /** What has been logged for a session's packets, and the reassembly buffer they leave. */
  ghost predicate LogMatches(log: seq<DriverEvent>, rx: Rx, calls: seq<Call>, id: byte) {
    && (rx, DatagramsSince(log, id)) == FeedAll(EMPTY_RX, ChunksIn(PacketsIn(calls)))
    && RegularsSince(log, id) == KeptRegulars(calls)
  }

  ghost predicate Matches(w: World, s: Option<Session>, id: byte) {
    if id !in w.table then s.None?
    else
      && s.Some?
      && w.table[id] == (s.value.addr, RunOps(NEW_HOST, Ops(s.value.calls)))
      && LogMatches(w.log, w.table[id].1.rx, s.value.calls, id)
  }

  lemma {:induction false} ChunksCons(p: ResponsePacket, ps: seq<ResponsePacket>)
    ensures ChunksIn([p] + ps) == (if p.Datagram? then [p.payload.chunk] else []) + ChunksIn(ps)
  {
    assert ([p] + ps)[1..] == ps;
  }

  lemma {:induction false} ChunksSnoc(ps: seq<ResponsePacket>, p: ResponsePacket)
    ensures ChunksIn(ps + [p]) == ChunksIn(ps) + if p.Datagram? then [p.payload.chunk] else []
  {
    if |ps| == 0 {
      ChunksCons(p, []);
      assert ps + [p] == [p] + [];
    } else {
      ChunksSnoc(ps[1..], p);
      ChunksCons(ps[0], ps[1..]);
      ChunksCons(ps[0], ps[1..] + [p]);
      assert ps == [ps[0]] + ps[1..] && ps + [p] == [ps[0]] + (ps[1..] + [p]);
    }
  }

  lemma {:induction false} RegularMatches(log: seq<DriverEvent>, h: Host, calls: seq<Call>, id: byte, p: ResponsePacket,
                                          full: bool)
    requires LogMatches(log, h.rx, calls, id) && p.Regular?
    ensures var (h', result) := Receive(h, p);
            LogMatches(log + Note(result, id, full), h'.rx, calls + [Call(ReceiveOp(p), full)], id)
  {
    OpsSnoc(calls, Call(ReceiveOp(p), full));
    ChunksSnoc(PacketsIn(calls), p);
    assert ChunksIn(PacketsIn(calls)) + [] == ChunksIn(PacketsIn(calls));
    if full {
      assert log + [] == log && KeptRegulars(calls) + [] == KeptRegulars(calls);
    } else {
      SinceSnoc(log, RegularReceived(id, p.regular), id);
      assert DatagramsSince(log, id) + [] == DatagramsSince(log, id);
    }
  }

  lemma {:induction false} DatagramNoted(log: seq<DriverEvent>, id: byte, done: Option<ResponseDatagram>, full: bool)
    ensures var log' := log + Note(if done.Some? then DatagramResult(done.value) else IncompleteDatagram, id, full);
            && DatagramsSince(log', id) == DatagramsSince(log, id) + (if done.Some? then [done.value] else [])
            && RegularsSince(log', id) == RegularsSince(log, id)
  {
    assert log + [] == log && DatagramsSince(log, id) + [] == DatagramsSince(log, id);
    assert RegularsSince(log, id) + [] == RegularsSince(log, id);
    if done.Some? {
      SinceSnoc(log, DatagramReceived(id, done.value), id);
    }
  }

  lemma {:induction false} DatagramMatches(log: seq<DriverEvent>, h: Host, calls: seq<Call>, id: byte,
                                           p: ResponsePacket, full: bool)
    requires LogMatches(log, h.rx, calls, id) && p.Datagram?
    ensures var (h', result) := Receive(h, p);
            LogMatches(log + Note(result, id, full), h'.rx, calls + [Call(ReceiveOp(p), full)], id)
  {
    OpsSnoc(calls, Call(ReceiveOp(p), full));
    ChunksSnoc(PacketsIn(calls), p);
    FeedSnoc(EMPTY_RX, ChunksIn(PacketsIn(calls)), p.payload.chunk);
    assert KeptRegulars(calls) + [] == KeptRegulars(calls);
    DatagramNoted(log, id, Feed(h.rx, p.payload.chunk).1, full);
  }

  /** A call other than a received packet. */
  lemma {:induction false} CallMatches(log: seq<DriverEvent>, rx: Rx, calls: seq<Call>, id: byte, c: Call)
    requires LogMatches(log, rx, calls, id) && !c.op.ReceiveOp?
    ensures LogMatches(log, rx, calls + [c], id)
  {
    OpsSnoc(calls, c);
    assert PacketsIn(calls) + [] == PacketsIn(calls) && KeptRegulars(calls) + [] == KeptRegulars(calls);
  }

  /** A log entry that says nothing about the robot's session. */
  predicate IsForeign(e: DriverEvent, id: byte) {
    e.TransceiverError? || e.RobotDisconnected? || e.id != id
  }

  lemma {:induction false} ForeignEntry(log: seq<DriverEvent>, e: DriverEvent, id: byte)
    requires IsForeign(e, id)
    ensures DatagramsSince(log + [e], id) == DatagramsSince(log, id)
    ensures RegularsSince(log + [e], id) == RegularsSince(log, id)
  {
    assert (log + [e])[..|log|] == log;
  }

  /** At most one log entry, and none about the robot's session. */
  predicate Foreign(news: seq<DriverEvent>, id: byte) {
    |news| == 0 || (|news| == 1 && IsForeign(news[0], id))
  }

  lemma {:induction false} ForeignMatches(log: seq<DriverEvent>, news: seq<DriverEvent>, rx: Rx, calls: seq<Call>,
                                          id: byte)
    requires LogMatches(log, rx, calls, id) && Foreign(news, id)
    ensures LogMatches(log + news, rx, calls, id)
  {
    if |news| == 0 {
      assert log + news == log;
    } else {
      assert news == [news[0]];
      ForeignEntry(log, news[0], id);
    }
  }

  /** An action that does not concern the robot. */
  lemma {:induction false} OtherMatches(w: World, s: Option<Session>, id: byte, w': World, news: seq<DriverEvent>)
    requires Matches(w, s, id) && Foreign(news, id) && w'.log == w.log + news
    requires id in w'.table <==> id in w.table
    requires id in w.table ==> w'.table[id] == w.table[id]
    ensures Matches(w', s, id)
  {
    if id in w.table {
      ForeignMatches(w.log, news, w.table[id].1.rx, s.value.calls, id);
    }
  }

  lemma {:induction false} FreshMatches(w: World, id: byte, a: Address)
    requires id in w.table && w.table[id] == (a, NEW_HOST)
    requires |w.log| > 0 && w.log[|w.log| - 1] == RobotConnected(id, a)
    ensures Matches(w, Some(Session(a, [])), id)
  {
    assert Ops([]) == [] && PacketsIn([]) == [] && KeptRegulars([]) == [];
  }

  lemma {:induction false} ConnectMatches(w: World, s: Option<Session>, a: Address, i: byte, full: bool, id: byte)
    requires WorldInv(w) && Matches(w, s, id) && a !in w.live
    ensures var x := Happened(Connected(a, i), full); Matches(Act(w, x), NextSession(s, x, id), id)
  {
    var x := Happened(Connected(a, i), full);
    SessionStays(s, x, id);
    if i in w.table {
      OtherMatches(w, s, id, Act(w, x), []);
    } else {
      InsertedIsNew(w.table, a, i);
      if i == id {
        FreshMatches(Act(w, x), id, a);
      } else {
        OtherMatches(w, s, id, Act(w, x), [RobotConnected(i, a)]);
      }
    }
  }

  /** A session that an action does not concern stays as it is. */
  lemma {:induction false} SessionStays(s: Option<Session>, x: Action, id: byte)
    ensures s.Some? && !Leaves(x, s.value.addr) && CallOf(x, id, s.value.addr).None? ==> NextSession(s, x, id) == s
    ensures s.None? && !Connects(x, id) ==> NextSession(s, x, id) == s
  {
    if s.Some? {
      assert s.value.calls + [] == s.value.calls;
    }
  }

  lemma {:induction false} DisconnectMatches(w: World, s: Option<Session>, a: Address, full: bool, id: byte)
    requires WorldInv(w) && Matches(w, s, id)
    ensures var x := Happened(Disconnected(a), full); Matches(Act(w, x), NextSession(s, x, id), id)
  {
    var x, r := Happened(Disconnected(a), full), RobotAt(w.table, a);
    SessionStays(s, x, id);
    if id in w.table && w.table[id].0 == a {
      assert id !in Act(w, x).table;
    } else {
      OtherMatches(w, s, id, Act(w, x), if r.Some? then [RobotDisconnected(r.value)] else []);
    }
  }

  lemma {:induction false} PacketMatches(w: World, s: Option<Session>, a: Address, p: ResponsePacket, full: bool,
                                         id: byte)
    requires WorldInv(w) && Matches(w, s, id)
    ensures var x := Happened(PacketReceived(a, p), full); Matches(Act(w, x), NextSession(s, x, id), id)
  {
    var x, r := Happened(PacketReceived(a, p), full), RobotAt(w.table, a);
    SessionStays(s, x, id);
    if id in w.table && w.table[id].0 == a {
      RobotAtIs(w.table, id, a);
      TakenMatches(w, s.value, p, full, id);
    } else {
      var news := if r.Some? then Note(Receive(w.table[r.value].1, p).1, r.value, full) else [];
      OtherMatches(w, s, id, Act(w, x), news);
    }
  }

  /** A packet for the robot itself. */
  lemma {:induction false} TakenMatches(w: World, s: Session, p: ResponsePacket, full: bool, id: byte)
    requires id in w.table && Matches(w, Some(s), id) && RobotAt(w.table, s.addr) == Some(id)
    ensures Matches(Handle(w, PacketReceived(s.addr, p), full),
                    Some(Session(s.addr, s.calls + [Call(ReceiveOp(p), full)])), id)
  {
    OpsSnoc(s.calls, Call(ReceiveOp(p), full));
    RunSnoc(NEW_HOST, Ops(s.calls), ReceiveOp(p));
    if p.Regular? {
      RegularMatches(w.log, w.table[id].1, s.calls, id, p, full);
    } else {
      DatagramMatches(w.log, w.table[id].1, s.calls, id, p, full);
    }
  }

  /** A call of the driver's user. */
  lemma {:induction false} UserMatches(w: World, s: Option<Session>, i: byte,
                                       op: HostOp<RegularCommand, RegularResponse>, x: Action, id: byte)
    requires Matches(w, s, id) && !x.Happened? && x.id == i && !op.ReceiveOp?
    requires forall a :: CallOf(x, i, a) == Some(Call(op, false))
    requires Act(w, x) == if i in w.table then WithHost(w, i, ApplyOp(w.table[i].1, op)) else w
    ensures Matches(Act(w, x), NextSession(s, x, id), id)
  {
    SessionStays(s, x, id);
    assert w.log + [] == w.log;
    if id in w.table && i == id {
      var h, calls := w.table[id].1, s.value.calls;
      OpsSnoc(calls, Call(op, false));
      RunSnoc(NEW_HOST, Ops(calls), op);
      CallMatches(w.log, h.rx, calls, id, Call(op, false));
      assert ApplyOp(h, op).rx == h.rx;
      assert NextSession(s, x, id) == Some(Session(s.value.addr, calls + [Call(op, false)]));
    } else {
      OtherMatches(w, s, id, Act(w, x), []);
    }
  }

  lemma {:induction false} ActMatches(w: World, s: Option<Session>, x: Action, id: byte)
    requires WorldInv(w) && Matches(w, s, id)
    requires x.Happened? ==> exists f :: Allowed(w.live, x.event, f)
    ensures Matches(Act(w, x), NextSession(s, x, id), id)
  {
    match x
    case Happened(Connected(a, i), full) => ConnectMatches(w, s, a, i, full, id);
    case Happened(Disconnected(a), full) => DisconnectMatches(w, s, a, full, id);
    case Happened(PacketReceived(a, p), full) => PacketMatches(w, s, a, p, full, id);
    case Happened(Error, full) =>
      SessionStays(s, x, id);
      OtherMatches(w, s, id, Act(w, x), [TransceiverError]);
    case Sent(i, regular) => UserMatches(w, s, i, SendOp(regular), x, id);
    case Queued(i, d) => UserMatches(w, s, i, QueueOp(d), x, id);
  }

  lemma {:induction false} NewWorldMatches(id: byte)
    ensures WorldInv(NEW_WORLD) && Matches(NEW_WORLD, SessionOf([], id), id)
  {
  }

  lemma {:induction false} SessionAlongRun(xs: seq<Action>, id: byte)
    requires Orderly(NEW_WORLD, xs)
    ensures WorldInv(ActAll(NEW_WORLD, xs)) && Matches(ActAll(NEW_WORLD, xs), SessionOf(xs, id), id)
    decreases |xs|
  {
    if |xs| == 0 {
      NewWorldMatches(id);
    } else {
      var n := |xs| - 1;
      var w := ActAll(NEW_WORLD, xs[..n]);
      SessionAlongRun(xs[..n], id);
      ActKeepsInv(w, xs[n]);
      ActMatches(w, SessionOf(xs[..n], id), xs[n], id);
      SessionSnoc(xs[..n], xs[n], id);
      assert xs == xs[..n] + [xs[n]];
    }
  }

  // ---- What every run guarantees ----

  /** What the driver holds of a robot and has told its user. It is connected exactly while it has a session, at the
      session's address. Its stored protocol state is that of a new protocol object after the session's calls. The
      datagrams logged since it connected are those that its packets make up, and the regular responses logged are
      those that came while there was room. */
  ghost predicate Faithful(w: World, xs: seq<Action>, id: byte) {
    var s := SessionOf(xs, id);
    && (id in w.table <==> s.Some?)
    && (s.Some? ==>
          var calls := s.value.calls;
          && w.table[id] == (s.value.addr, RunOps(NEW_HOST, Ops(calls)))
          && DatagramsSince(w.log, id) == ReceiveAll(NEW_HOST, PacketsIn(calls)).1
          && RegularsSince(w.log, id) == KeptRegulars(calls))
  }

  /** At every moment of every run of the driver, in the middle of a batch too. */
  lemma {:induction false} StateIsSession(steps: seq<WorldStep>, n: nat, id: byte)
    requires LegalRun(NEW_WORLD, steps) && n <= |AllActions(steps)|
    ensures RunAll(NEW_WORLD, steps) == ActAll(NEW_WORLD, AllActions(steps))
    ensures Faithful(ActAll(NEW_WORLD, AllActions(steps)[..n]), AllActions(steps)[..n], id)
  {
    var xs := AllActions(steps)[..n];
    RunIsActions(NEW_WORLD, steps);
    OrderlyPrefix(NEW_WORLD, AllActions(steps), n);
    SessionAlongRun(xs, id);
    var s := SessionOf(xs, id);
    if s.Some? {
      ReceiveAllFeeds(NEW_HOST, PacketsIn(s.value.calls));
    }
  }

  /** A session begins with a connected event of the robot, and its address is not disconnected after that. */
  lemma {:induction false} SessionIsOpen(xs: seq<Action>, id: byte)
    ensures OpenedAt(xs, id).Some? ==>
              var at := OpenedAt(xs, id).value;
              forall j :: at < j < |xs| ==> !Leaves(xs[j], xs[at].event.addr)
  {
    if |xs| == 0 {
    } else {
      SessionIsOpen(xs[..|xs| - 1], id);
    }
  }

  lemma {:induction false} HeaderAfter(ops: seq<HostOp<RegularCommand, RegularResponse>>, regular: RegularCommand)
    ensures NamesSession(Send(RunOps(NEW_HOST, ops), regular).1.header, ops)
  {
    CounterNumbersSends(NEW_HOST, ops, regular);
    AcknumNamesLastDatagram(ops, regular);
  }

  /** A header with the number of packets sent, modulo 64, and the number of the last datagram packet received, or 1. */
  ghost predicate NamesSession(header: Header, ops: seq<HostOp<RegularCommand, RegularResponse>>) {
    header.counter == Sends(ops) % 64 && NamesLast(ops, header.acknum)
  }

  /** What the next packet to a connected robot carries in its header, whatever happened before: the counts
      and numbers of its session alone. */
  lemma {:induction false} NextHeader(steps: seq<WorldStep>, id: byte, regular: RegularCommand)
    requires LegalRun(NEW_WORLD, steps) && id in RunAll(NEW_WORLD, steps).table
    ensures SessionOf(AllActions(steps), id).Some?
    ensures NamesSession(Send(RunAll(NEW_WORLD, steps).table[id].1, regular).1.header,
                         Ops(SessionOf(AllActions(steps), id).value.calls))
  {
    var xs := AllActions(steps);
    StateIsSession(steps, |xs|, id);
    assert xs[..|xs|] == xs;
    HeaderAfter(Ops(SessionOf(xs, id).value.calls), regular);
  }
}
