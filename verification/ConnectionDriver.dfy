/** The driver loop: transceiver events become updates of the connection table and of the outgoing log. `World` is
    the abstract state: the addresses live at the transceivers, the connection table, and the log so far. */
module ConnectionDrivers {
  import opened Options
  import opened Datagrams
  import opened RadioProtocol
  import opened DualMap
  import opened IdFilter
  import opened Transceivers
  import opened ConnectionLog
  import opened Deadlines
  import Udp = UdpTransceivers
  import Ser = SerialTransceivers

  type Table = map<byte, (Address, Host)>

  datatype World = World(live: set<Address>, table: Table, log: seq<DriverEvent>)

  const NEW_WORLD := World({}, map[], [])

  /** The robot connected at an address. */
  ghost function RobotAt(table: Table, a: Address): (r: Option<byte>)
    ensures r.Some? ==> r.value in table && table[r.value].0 == a
    ensures r.None? ==> forall i :: i in table ==> table[i].0 != a
  {
    if i :| i in table && table[i].0 == a then Some(i) else None
  }

  lemma {:induction false} RobotAtIs(table: Table, id: byte, a: Address)
    requires Injective(table) && id in table && table[id].0 == a
    ensures RobotAt(table, a) == Some(id)
  {
  }

  function Note(result: RxResult<RegularResponse>, id: byte, full: bool): seq<DriverEvent> {
    match result
    case RegularResult(response) => if full then [] else [RegularReceived(id, response)]
    case DatagramResult(datagram) => [DatagramReceived(id, datagram)]
    case IncompleteDatagram => []
  }

  /** Processing one transceiver event; `full` tells whether the outgoing channel drops a regular packet. */
  ghost function HandleEvent(table: Table, e: Event, full: bool): (Table, seq<DriverEvent>) {
    match e
    case Connected(a, id) =>
      if id in table then (table, []) else (Inserted(table, id, a, NEW_HOST), [RobotConnected(id, a)])
    case Disconnected(a) =>
      var r := RobotAt(table, a);
      (WithoutSec(table, a), if r.Some? then [RobotDisconnected(r.value)] else [])
    case PacketReceived(a, p) =>
      var r := RobotAt(table, a);
      if r.None? then (table, [])
      else
        var (h, result) := Receive(table[r.value].1, p);
        (table[r.value := (a, h)], Note(result, r.value, full))
    case Error => (table, [TransceiverError])
  }

  ghost function Handle(w: World, e: Event, full: bool): World {
    var (table, news) := HandleEvent(w.table, e, full);
    World(LiveAfter(w.live, e), table, w.log + news)
  }

  ghost function HandleAll(w: World, es: seq<Event>, full: nat -> bool): World
    decreases |es|
  {
    if |es| == 0 then w else Handle(HandleAll(w, es[..|es| - 1], full), es[|es| - 1], full(|es| - 1))
  }

  /** The cache that replays the log knows exactly the connection table's robots, at the same addresses. */
  ghost predicate Agrees(table: Table, robots: map<byte, RobotState>) {
    robots.Keys == table.Keys && forall i :: i in table ==> robots[i].addr == table[i].0
  }

  ghost predicate WorldInv(w: World) {
    && Injective(w.table)
    && (forall i :: i in w.table ==> i < 32 && w.table[i].0 in w.live && HostInv(w.table[i].1))
    && Agrees(w.table, Replay(w.log))
    && Bracketed(w.log)
  }

  /** Announcing an address: agreement with the replica survives the connected event exactly when the robot is already
      known (the event is ignored) or no robot holds the address (nothing is silently evicted). */
  lemma {:induction false} ConnectAgreesIff(table: Table, log: seq<DriverEvent>, a: Address, id: byte, full: bool)
    requires Agrees(table, Replay(log))
    ensures var (table', news) := HandleEvent(table, Connected(a, id), full);
            Agrees(table', Replay(log + news)) <==> id in table || RobotAt(table, a).None?
  {
    if id in table {
      assert log + [] == log;
    } else {
      LogExtend(log, RobotConnected(id, a));
      var table' := Inserted(table, id, a, NEW_HOST);
      var robots := Update(Replay(log), RobotConnected(id, a));
      var r := RobotAt(table, a);
      if r.Some? {
        assert r.value in robots && r.value !in table';
      } else {
        assert table' == table[id := (a, NEW_HOST)];
      }
    }
  }

  /** A new address evicts nothing. */
  lemma {:induction false} InsertedIsNew(table: Table, a: Address, id: byte)
    requires id !in table && forall i :: i in table ==> table[i].0 != a
    ensures Inserted(table, id, a, NEW_HOST) == table[id := (a, NEW_HOST)]
  {
    assert WithoutSec(table - {id}, a) == table;
  }

  lemma {:induction false} InjectiveWith(table: Table, a: Address, id: byte, h: Host)
    requires Injective(table) && forall i :: i in table && i != id ==> table[i].0 != a
    ensures Injective(table[id := (a, h)])
  {
  }

  lemma {:induction false} NewRobotKeepsInv(w: World, a: Address, id: byte)
    requires WorldInv(w) && a !in w.live && id < 32 && id !in w.table
    ensures WorldInv(World(w.live + {a}, w.table[id := (a, NEW_HOST)], w.log + [RobotConnected(id, a)]))
  {
    InjectiveWith(w.table, a, id, NEW_HOST);
    LogExtend(w.log, RobotConnected(id, a));
  }

  lemma {:induction false} ConnectKeepsInv(w: World, a: Address, id: byte, full: bool)
    requires WorldInv(w) && a !in w.live && id < 32
    ensures WorldInv(Handle(w, Connected(a, id), full))
  {
    if id in w.table {
      assert w.log + [] == w.log;
    } else {
      InsertedIsNew(w.table, a, id);
      NewRobotKeepsInv(w, a, id);
    }
  }

  lemma DisconnectKeepsInv(w: World, a: Address, full: bool)
    requires WorldInv(w)
    ensures WorldInv(Handle(w, Disconnected(a), full))
  {
    var r := RobotAt(w.table, a);
    if r.Some? {
      LogExtend(w.log, RobotDisconnected(r.value));
      assert WithoutSec(w.table, a) == w.table - {r.value};
    } else {
      assert WithoutSec(w.table, a) == w.table && w.log + [] == w.log;
    }
  }

  function WithHost(w: World, id: byte, h: Host): World
    requires id in w.table
  {
    w.(table := w.table[id := (w.table[id].0, h)])
  }

  lemma {:induction false} HostUpdateKeepsInv(w: World, id: byte, h: Host)
    requires WorldInv(w) && id in w.table && HostInv(h)
    ensures WorldInv(WithHost(w, id, h))
  {
    InjectiveWith(w.table, w.table[id].0, id, h);
  }

  lemma PacketKeepsInv(w: World, a: Address, p: ResponsePacket, full: bool)
    requires WorldInv(w)
    ensures WorldInv(Handle(w, PacketReceived(a, p), full))
  {
    var r := RobotAt(w.table, a);
    if r.None? {
      assert w.log + [] == w.log;
    } else {
      var id := r.value;
      var (h, result) := Receive(w.table[id].1, p);
      OpKeepsHostInv<RegularResponse, RegularResponse>(w.table[id].1, ReceiveOp(p));
      HostUpdateKeepsInv(w, id, h);
      NoteKeepsLog(WithHost(w, id, h).table, w.log, id, result, full);
    }
  }

  lemma {:induction false} NoteKeepsLog(table: Table, log: seq<DriverEvent>, id: byte,
                                        result: RxResult<RegularResponse>, full: bool)
    requires Agrees(table, Replay(log)) && Bracketed(log) && id in table
    ensures var log' := log + Note(result, id, full);
            Agrees(table, Replay(log')) && Bracketed(log')
  {
    var news := Note(result, id, full);
    if news == [] {
      assert log + news == log;
    } else {
      LogExtend(log, news[0]);
      assert news == [news[0]];
    }
  }

  lemma HandleKeepsInv(w: World, e: Event, full: bool, f: RobotIdFilter)
    requires WorldInv(w) && Allowed(w.live, e, f)
    ensures WorldInv(Handle(w, e, full))
  {
    match e
    case Connected(a, id) => ConnectKeepsInv(w, a, id, full);
    case Disconnected(a) => DisconnectKeepsInv(w, a, full);
    case PacketReceived(a, p) => PacketKeepsInv(w, a, p, full);
    case Error => LogExtend(w.log, TransceiverError);
  }

  lemma {:induction false} HandleAllKeepsInv(w: World, es: seq<Event>, full: nat -> bool, f: RobotIdFilter)
    requires WorldInv(w) && Disciplined(w.live, es, f)
    ensures WorldInv(HandleAll(w, es, full))
    ensures HandleAll(w, es, full).live == LiveAfterAll(w.live, es)
    decreases |es|
  {
    if |es| == 0 {
    } else {
      var n := |es| - 1;
      HandleAllKeepsInv(w, es[..n], full, f);
      HandleKeepsInv(HandleAll(w, es[..n], full), es[n], full(n), f);
    }
  }

  // ---- Whole runs ----

  type RegularCommand = s: seq<byte> | |s| == PAYLOAD_SIZE witness seq(PAYLOAD_SIZE, _ => 0)

  /** A batch of collected transceiver events, or a call of the driver's user. */
  datatype WorldStep =
    | Batch(events: seq<Event>, full: nat -> bool)
    | SendPacket(id: byte, regular: RegularCommand)
    | QueueDatagram(id: byte, datagram: CommandDatagram)

  /** Filters at a loop boundary: an id may connect exactly when it is below 32 and not connected. */
  ghost predicate FilterExact(f: RobotIdFilter, table: Table) {
    forall id: byte :: Accepts(f, id) <==> id < 32 && id !in table
  }

  ghost predicate Legal(w: World, step: WorldStep) {
    step.Batch? ==> exists f :: FilterExact(f, w.table) && Disciplined(w.live, step.events, f)
  }

  ghost function Step(w: World, step: WorldStep): World {
    match step
    case Batch(es, full) => HandleAll(w, es, full)
    case SendPacket(id, regular) =>
      if id in w.table then WithHost(w, id, Send(w.table[id].1, regular).0) else w
    case QueueDatagram(id, d) =>
      if id in w.table then WithHost(w, id, Queue(w.table[id].1, d)) else w
  }

  lemma StepKeepsInv(w: World, step: WorldStep)
    requires WorldInv(w) && Legal(w, step)
    ensures WorldInv(Step(w, step))
  {
    match step
    case Batch(es, full) =>
      var f :| FilterExact(f, w.table) && Disciplined(w.live, es, f);
      HandleAllKeepsInv(w, es, full, f);
    case SendPacket(id, regular) =>
      if id in w.table {
        OpKeepsHostInv<RegularCommand, RegularResponse>(w.table[id].1, SendOp(regular));
        HostUpdateKeepsInv(w, id, Send(w.table[id].1, regular).0);
      }
    case QueueDatagram(id, d) =>
      if id in w.table {
        HostUpdateKeepsInv(w, id, Queue(w.table[id].1, d));
      }
  }

  ghost function RunAll(w: World, steps: seq<WorldStep>): World
    decreases |steps|
  {
    if |steps| == 0 then w else RunAll(Step(w, steps[0]), steps[1..])
  }

  ghost predicate LegalRun(w: World, steps: seq<WorldStep>)
    decreases |steps|
  {
    |steps| > 0 ==> Legal(w, steps[0]) && LegalRun(Step(w, steps[0]), steps[1..])
  }

  lemma {:induction false} RunKeepsInv(w: World, steps: seq<WorldStep>)
    requires WorldInv(w) && LegalRun(w, steps)
    ensures WorldInv(RunAll(w, steps))
    decreases |steps|
  {
    if |steps| == 0 {
    } else {
      StepKeepsInv(w, steps[0]);
      RunKeepsInv(Step(w, steps[0]), steps[1..]);
    }
  }

  /** Replica agreement: after every run of disciplined batches and user calls, replaying the log gives exactly the
      connection table's robots and addresses; connected and disconnected events alternate per robot with packet
      events only in between; connected ids are below 32 and their addresses are live and distinct. */
  lemma {:induction false} ReplicaAgreement(steps: seq<WorldStep>)
    requires LegalRun(NEW_WORLD, steps)
    ensures var w := RunAll(NEW_WORLD, steps);
            && (forall id :: id in w.table <==> AddressIn(w.log, id).Some?)
            && (forall id :: id in w.table ==> w.table[id].0 == AddressIn(w.log, id).value)
            && Bracketed(w.log)
            && (forall id :: id in w.table ==> id < 32 && w.table[id].0 in w.live)
            && (forall i, j :: i in w.table && j in w.table && w.table[i].0 == w.table[j].0 ==> i == j)
  {
    RunKeepsInv(NEW_WORLD, steps);
    var w := RunAll(NEW_WORLD, steps);
    forall id: byte
      ensures id in w.table <==> AddressIn(w.log, id).Some?
      ensures id in w.table ==> w.table[id].0 == AddressIn(w.log, id).value
    {
      ReplayIsLastConnection(w.log, id);
    }
  }

  // ---- The driver object ----

  /** Everything one token delivers: the serial port's packets and the UDP socket's datagrams. Each transceiver
      ignores the other's tokens. A failed send of a control message is an input too. */
  datatype IoEvent =
    | Token(token: nat, packets: seq<(ResponsePacket, Instant)>, readError: bool, readable: Udp.Readable)
    | SendFailed

  /** The transceivers' tables, and what the handling of input depends on besides. */
  datatype Tables = Tables(serial: map<nat, (string, Ser.Connection)>, udp: map<SocketAddr, Instant>)

  datatype Setup = Setup(filter: RobotIdFilter, serialTimeout: nat, udpTimeout: nat)

  /** What one poll event makes the transceivers report. */
  function IoReports(t: Tables, io: IoEvent, setup: Setup): seq<Event> {
    match io
    case SendFailed => [Error]
    case Token(token, packets, readError, readable) =>
      Ser.ReportsOf(t.serial, token, packets, readError) + Udp.ReportsOf(t.udp.Keys, readable, setup.filter)
  }

  function AfterIo(t: Tables, io: IoEvent, setup: Setup): Tables {
    match io
    case SendFailed => t
    case Token(token, packets, _, readable) =>
      Tables(Ser.AfterPackets(t.serial, token, packets, setup.serialTimeout),
             SeeAll(t.udp, Udp.Sightings(readable, setup.filter), setup.udpTimeout))
  }

  function AfterIos(t: Tables, ios: seq<IoEvent>, setup: Setup): Tables {
    if |ios| == 0 then t else AfterIo(AfterIos(t, ios[..|ios| - 1], setup), ios[|ios| - 1], setup)
  }

  function AllReports(t: Tables, ios: seq<IoEvent>, setup: Setup): seq<Event> {
    if |ios| == 0 then []
    else
      var before := ios[..|ios| - 1];
      AllReports(t, before, setup) + IoReports(AfterIos(t, before, setup), ios[|ios| - 1], setup)
  }

  lemma {:induction false} AfterSnoc(t: Tables, ios: seq<IoEvent>, io: IoEvent, setup: Setup)
    ensures AfterIos(t, ios + [io], setup) == AfterIo(AfterIos(t, ios, setup), io, setup)
  {
    assert (ios + [io])[..|ios|] == ios;
  }

  lemma {:induction false} ReportsSnoc(t: Tables, ios: seq<IoEvent>, io: IoEvent, setup: Setup)
    ensures AllReports(t, ios + [io], setup) ==
            AllReports(t, ios, setup) + IoReports(AfterIos(t, ios, setup), io, setup)
  {
    assert (ios + [io])[..|ios|] == ios;
  }

  ghost function LiveIn(t: Tables): set<Address> {
    Ser.LiveOf(t.serial) + Udp.LiveOf(t.udp)
  }

  /** Two transceivers lose addresses of different kinds. */
  lemma {:induction false} LostByEach(t: Tables, t': Tables)
    ensures LiveIn(t) - LiveIn(t') ==
            (Ser.LiveOf(t.serial) - Ser.LiveOf(t'.serial)) + (Udp.LiveOf(t.udp) - Udp.LiveOf(t'.udp))
    ensures Ser.LiveOf(t.serial) - Ser.LiveOf(t'.serial) !! Udp.LiveOf(t.udp) - Udp.LiveOf(t'.udp)
  {
    assert forall a <- Ser.LiveOf(t.serial) + Ser.LiveOf(t'.serial) :: a.Serial?;
    assert forall a <- Udp.LiveOf(t.udp) + Udp.LiveOf(t'.udp) :: a.Udp?;
  }

  lemma {:induction false} LossesReported(t: Tables, t': Tables, es: seq<Event>, fs: seq<Event>)
    requires DisconnectsOnce(es, Ser.LiveOf(t.serial) - Ser.LiveOf(t'.serial))
    requires DisconnectsOnce(fs, Udp.LiveOf(t.udp) - Udp.LiveOf(t'.udp))
    ensures DisconnectsOnce(es + fs, LiveIn(t) - LiveIn(t'))
  {
    LostByEach(t, t');
    DisconnectsTogether(es, Ser.LiveOf(t.serial) - Ser.LiveOf(t'.serial), fs, Udp.LiveOf(t.udp) - Udp.LiveOf(t'.udp));
  }

  /** What has been collected when some poll events are through. */
  ghost predicate Collected(live0: set<Address>, t0: Tables, setup: Setup, ios: seq<IoEvent>, events: seq<Event>,
                            t: Tables, live: set<Address>) {
    && events == AllReports(t0, ios, setup) && t == AfterIos(t0, ios, setup)
    && Disciplined(live0, events, setup.filter) && live == LiveAfterAll(live0, events)
  }

  lemma {:induction false} NothingCollected(t: Tables, setup: Setup, live: set<Address>)
    ensures Collected(live, t, setup, [], [], t, live)
  {
  }

  lemma {:induction false} CollectedOneMore(live0: set<Address>, t0: Tables, setup: Setup, ios: seq<IoEvent>,
                                            io: IoEvent, events: seq<Event>, t: Tables, live: set<Address>,
                                            more: seq<Event>)
    requires Collected(live0, t0, setup, ios, events, t, live)
    requires more == IoReports(t, io, setup) && Disciplined(live, more, setup.filter)
    ensures Collected(live0, t0, setup, ios + [io], events + more, AfterIo(t, io, setup),
                      LiveAfterAll(live, more))
  {
    AfterSnoc(t0, ios, io, setup);
    ReportsSnoc(t0, ios, io, setup);
    DisciplineConcat(live0, events, more, setup.filter);
  }

  /** Everything the UDP transceiver sees in some poll events. */
  function UdpSightings(ios: seq<IoEvent>, setup: Setup): seq<Sighting<SocketAddr>> {
    if |ios| == 0 then []
    else
      var last := ios[|ios| - 1];
      UdpSightings(ios[..|ios| - 1], setup) + if last.Token? then Udp.Sightings(last.readable, setup.filter) else []
  }

  /** Everything the serial transceiver sees in them. */
  function SerialSightings(ios: seq<IoEvent>): seq<Sighting<nat>> {
    if |ios| == 0 then []
    else
      var last := ios[|ios| - 1];
      SerialSightings(ios[..|ios| - 1]) + if last.Token? then Ser.PacketSightings(last.token, last.packets) else []
  }

  /** Poll events move the deadlines as what is seen in them does. */
  lemma {:induction false} DeadlinesAfterIos(t: Tables, ios: seq<IoEvent>, setup: Setup)
    ensures AfterIos(t, ios, setup).udp == SeeAll(t.udp, UdpSightings(ios, setup), setup.udpTimeout)
    ensures Ser.TimeoutsOf(AfterIos(t, ios, setup).serial) ==
            SeeAll(Ser.TimeoutsOf(t.serial), SerialSightings(ios), setup.serialTimeout)
    decreases |ios|
  {
    if |ios| == 0 {
    } else {
      var before, last := ios[..|ios| - 1], ios[|ios| - 1];
      DeadlinesAfterIos(t, before, setup);
      if last.Token? {
        var t' := AfterIos(t, before, setup);
        Ser.PacketsSeen(t'.serial, last.token, last.packets, setup.serialTimeout);
        SeeAllConcat(t.udp, UdpSightings(before, setup), Udp.Sightings(last.readable, setup.filter), setup.udpTimeout);
        SeeAllConcat(Ser.TimeoutsOf(t.serial), SerialSightings(before),
                     Ser.PacketSightings(last.token, last.packets), setup.serialTimeout);
      } else {
        assert UdpSightings(before, setup) + [] == UdpSightings(before, setup);
        assert SerialSightings(before) + [] == SerialSightings(before);
      }
    }
  }

  class ConnectionDriver {
    const serial: Ser.SerialTransceiver
    const udp: Udp.UdpTransceiver
    const activeConnections: DualHashMap<byte, Address, Host>
    var outChannel: seq<DriverEvent>
    var nextToken: nat

    ghost function Live(): set<Address>
      reads serial, serial.connections, udp
    {
      serial.Live() + udp.Live()
    }

    ghost function CurrentTables(): Tables
      reads serial, serial.connections, udp
    {
      Tables(serial.connections.primToVal, udp.connectionTimeouts)
    }

    ghost function CurrentSetup(): Setup
      reads udp
    {
      Setup(udp.idFilter, serial.connectionTimeout, udp.connectionTimeout)
    }

    /** The tables when the timeouts have been handled: accepted answers of a discovery that ends are in, and what is
        overdue is out. */
    ghost function AfterTimeouts(now: Instant, answer: nat -> Ser.Answer): Tables
      reads serial, serial.connections, udp
    {
      Tables(Ser.Unexpired(serial.Discovered(now, answer), now), NotBefore(udp.connectionTimeouts, now))
    }

    /** The addresses that an expiry at `now` removes. */
    ghost function Overdue(now: Instant, answer: nat -> Ser.Answer): set<Address>
      reads serial, serial.connections, udp
    {
      LiveIn(Tables(serial.Discovered(now, answer), udp.connectionTimeouts)) - LiveIn(AfterTimeouts(now, answer))
    }

    ghost function State(): World
      reads this, serial, serial.connections, udp, activeConnections
    {
      World(Live(), activeConnections.primToVal, outChannel)
    }

    ghost predicate TransceiversOk()
      reads this, serial, serial.connections, udp, activeConnections
    {
      && (serial.connections as object) != activeConnections
      && serial.Valid() && serial.TokensBelow(nextToken) && udp.Valid()
      && serial.idFilter == udp.idFilter
      && activeConnections.Valid()
    }

    ghost predicate Valid()
      reads this, serial, serial.connections, udp, activeConnections
    {
      && TransceiversOk()
      && WorldInv(State())
      && FilterExact(udp.idFilter, activeConnections.primToVal)
    }

    constructor (now: Instant, probePeriod: nat, serialTimeout: nat, udpTimeout: nat)
      ensures Valid() && State() == NEW_WORLD
      ensures fresh(serial) && fresh(serial.connections) && fresh(udp) && fresh(activeConnections)
    {
      serial := new Ser.SerialTransceiver(probePeriod, serialTimeout, now);
      udp := new Udp.UdpTransceiver(udpTimeout, now);
      activeConnections := new DualHashMap();
      outChannel, nextToken := [], 5;  // the waker and the UDP sockets hold tokens 0 to 4
    }

    lemma {:induction false} SerialEvents(es: seq<Event>, before: set<Address>, f: RobotIdFilter)
      requires Disciplined(before, es, f) && forall e <- es :: OnSerial(e)
      ensures Disciplined(before + udp.Live(), es, f)
      ensures LiveAfterAll(before + udp.Live(), es) == LiveAfterAll(before, es) + udp.Live()
    {
      DisciplineFrame(before, udp.Live(), es, f);
    }

    lemma {:induction false} UdpEvents(es: seq<Event>, before: set<Address>, f: RobotIdFilter)
      requires Disciplined(before, es, f) && forall e <- es :: OnUdp(e)
      ensures Disciplined(serial.Live() + before, es, f)
      ensures LiveAfterAll(serial.Live() + before, es) == serial.Live() + LiveAfterAll(before, es)
    {
      DisciplineFrame(before, serial.Live(), es, f);
      assert before + serial.Live() == serial.Live() + before;
    }

    /** Timeouts: whether or not the earliest cached timeout has passed, afterwards no connection of either
        transceiver has a deadline before `now`. */
    method HandleTimeouts(now: Instant, available: seq<(PortInfo, Ser.Probe)>, answer: nat -> Ser.Answer,
                          beaconErrors: nat)
      returns (events: seq<Event>)
      requires TransceiversOk() && Ser.DistinctNames(available)
      modifies this`nextToken, serial, serial.connections, udp
      ensures TransceiversOk() && udp.idFilter == old(udp.idFilter)
      ensures CurrentTables() == old(AfterTimeouts(now, answer)) && CurrentSetup() == old(CurrentSetup())
      ensures DisconnectsOnce(events, old(Overdue(now, answer)))
      ensures forall t :: t in serial.connections.primToVal ==> serial.connections.primToVal[t].1.timeout >= now
      ensures forall a :: a in udp.connectionTimeouts ==> udp.connectionTimeouts[a] >= now
      ensures Disciplined(old(Live()), events, old(udp.idFilter)) && Live() == LiveAfterAll(old(Live()), events)
    {
      events := [];
      if serial.NextTimeout() <= now || udp.NextTimeout() <= now {
        ghost var f, serial0, udp0 := udp.idFilter, serial.Live(), udp.Live();
        ghost var before := Tables(serial.Discovered(now, answer), udp.connectionTimeouts);
        events, nextToken := serial.MioTimeout(now, nextToken, available, answer);
        SerialEvents(events, serial0, f);
        var more := udp.MioTimeout(now, beaconErrors);
        UdpEvents(more, udp0, f);
        LossesReported(before, CurrentTables(), events, more);
        DisciplineConcat(serial0 + udp0, events, more, f);
        events := events + more;
      }
    }

    method HandleIo(io: IoEvent) returns (events: seq<Event>)
      requires TransceiversOk()
      modifies serial, serial.connections, udp
      ensures events == IoReports(old(CurrentTables()), io, old(CurrentSetup()))
      ensures CurrentTables() == AfterIo(old(CurrentTables()), io, old(CurrentSetup()))
      ensures CurrentSetup() == old(CurrentSetup())
      ensures TransceiversOk() && udp.idFilter == old(udp.idFilter)
      ensures Disciplined(old(Live()), events, old(udp.idFilter)) && Live() == LiveAfterAll(old(Live()), events)
    {
      ghost var f, serial0, udp0 := udp.idFilter, serial.Live(), udp.Live();
      match io
      case SendFailed =>
        events := [Error];
        ErrorsAreDisciplined(Live(), events, f);
      case Token(token, packets, readError, readable) =>
        events := serial.MioEvent(token, packets, readError);
        SerialEvents(events, serial0, f);
        var more := udp.MioEvent(readable);
        UdpEvents(more, udp0, f);
        DisciplineConcat(serial0 + udp0, events, more, f);
        events := events + more;
    }

    /** The event loop over the collected events; tells whether the filters need an update. */
    method ProcessEvents(events: seq<Event>, full: nat -> bool, ghost live: set<Address>)
      returns (updateFilters: bool)
      requires activeConnections.Valid()
      modifies this`outChannel, activeConnections
      ensures activeConnections.Valid()
      ensures HandleAll(World(live, old(activeConnections.primToVal), old(outChannel)), events, full)
           == World(LiveAfterAll(live, events), activeConnections.primToVal, outChannel)
      ensures !updateFilters ==> activeConnections.primToVal.Keys == old(activeConnections.primToVal).Keys
    {
      updateFilters := false;
      ghost var start := World(live, activeConnections.primToVal, outChannel);
      for i := 0 to |events|
        invariant activeConnections.Valid()
        invariant HandleAll(start, events[..i], full)
               == World(LiveAfterAll(live, events[..i]), activeConnections.primToVal, outChannel)
        invariant !updateFilters ==> activeConnections.primToVal.Keys == old(activeConnections.primToVal).Keys
      {
        assert events[..i + 1][..i] == events[..i];
        ProcessEvent(events[i], full(i));
        updateFilters := updateFilters || events[i].Connected? || events[i].Disconnected?;
      }
      assert events[..|events|] == events;
    }

    method ProcessEvent(e: Event, full: bool)
      requires activeConnections.Valid()
      modifies this`outChannel, activeConnections
      ensures activeConnections.Valid()
      ensures (activeConnections.primToVal, outChannel) ==
              (HandleEvent(old(activeConnections.primToVal), e, full).0,
               old(outChannel) + HandleEvent(old(activeConnections.primToVal), e, full).1)
      ensures !e.Connected? && !e.Disconnected?
              ==> activeConnections.primToVal.Keys == old(activeConnections.primToVal).Keys
    {
      match e
      case Connected(a, id) =>
        if id !in activeConnections.primToVal {
          activeConnections.Insert(id, a, NEW_HOST);
          outChannel := outChannel + [RobotConnected(id, a)];
        } else {
          assert outChannel + [] == outChannel;
        }
      case Disconnected(a) =>
        ProcessDisconnected(a);
      case PacketReceived(a, p) =>
        ProcessPacket(a, p, full);
      case Error =>
        outChannel := outChannel + [TransceiverError];
    }

    method ProcessDisconnected(a: Address)
      requires activeConnections.Valid()
      modifies this`outChannel, activeConnections
      ensures activeConnections.Valid()
      ensures (activeConnections.primToVal, outChannel) ==
              (HandleEvent(old(activeConnections.primToVal), Disconnected(a), false).0,
               old(outChannel) + HandleEvent(old(activeConnections.primToVal), Disconnected(a), false).1)
    {
      ghost var table := activeConnections.primToVal;
      activeConnections.IsInjective();
      var removed := activeConnections.RemoveSec(a);
      if removed.Some? {
        RobotAtIs(table, removed.value.0, a);
        outChannel := outChannel + [RobotDisconnected(removed.value.0)];
      } else {
        assert outChannel + [] == outChannel;
      }
    }

    method ProcessPacket(a: Address, p: ResponsePacket, full: bool)
      requires activeConnections.Valid()
      modifies this`outChannel, activeConnections
      ensures activeConnections.Valid()
      ensures (activeConnections.primToVal, outChannel) ==
              (HandleEvent(old(activeConnections.primToVal), PacketReceived(a, p), full).0,
               old(outChannel) + HandleEvent(old(activeConnections.primToVal), PacketReceived(a, p), full).1)
      ensures activeConnections.primToVal.Keys == old(activeConnections.primToVal).Keys
    {
      ghost var table := activeConnections.primToVal;
      activeConnections.IsInjective();
      var found := activeConnections.GetSec(a);
      if found.Some? {
        var (id, h) := found.value;
        RobotAtIs(table, id, a);
        var (h', result) := Receive(h, p);
        activeConnections.SetValue(id, h');
        EmitNote(result, id, full);
      } else {
        assert outChannel + [] == outChannel;
      }
    }

    /** What the driver tells its user about a packet. */
    method EmitNote(result: RxResult<RegularResponse>, id: byte, full: bool)
      modifies this`outChannel
      ensures outChannel == old(outChannel) + Note(result, id, full)
    {
      match result
      case RegularResult(response) =>
        if !full {
          outChannel := outChannel + [RegularReceived(id, response)];
        } else {
          assert outChannel + [] == outChannel;
        }
      case DatagramResult(datagram) =>
        outChannel := outChannel + [DatagramReceived(id, datagram)];
      case IncompleteDatagram =>
        assert outChannel + [] == outChannel;
    }

    /** Hands every transceiver a blacklist of the connected ids. */
    method UpdateFilters()
      requires activeConnections.Valid() && (serial.connections as object) != activeConnections
      modifies serial`idFilter, udp`idFilter
      ensures serial.idFilter == udp.idFilter && FilterExact(udp.idFilter, activeConnections.primToVal)
    {
      var ids := activeConnections.Keys();
      var f := WithBlacklist(NO_FILTER, ids);
      serial.SetIdFilter(f);
      udp.SetIdFilter(f);
    }

    /** Hands one more poll event to the transceivers. */
    method HandleNext(io: IoEvent, events: seq<Event>, ghost live: set<Address>, ghost tables: Tables,
                      ghost setup: Setup, ghost done: seq<IoEvent>)
      returns (events': seq<Event>)
      requires TransceiversOk() && CurrentSetup() == setup
      requires Collected(live, tables, setup, done, events, CurrentTables(), Live())
      modifies serial, serial.connections, udp
      ensures TransceiversOk() && CurrentSetup() == setup
      ensures Collected(live, tables, setup, done + [io], events', CurrentTables(), Live())
    {
      ghost var t, l := CurrentTables(), Live();
      var more := HandleIo(io);
      CollectedOneMore(live, tables, setup, done, io, events, t, l, more);
      events' := events + more;
    }

    /** Hands every poll event to the transceivers. */
    method HandleIos(ios: seq<IoEvent>) returns (events: seq<Event>)
      requires TransceiversOk()
      modifies serial, serial.connections, udp
      ensures TransceiversOk() && CurrentSetup() == old(CurrentSetup())
      ensures Collected(old(Live()), old(CurrentTables()), old(CurrentSetup()), ios, events, CurrentTables(), Live())
    {
      ghost var live, setup, tables := Live(), CurrentSetup(), CurrentTables();
      events := [];
      ghost var done: seq<IoEvent> := [];
      NothingCollected(tables, setup, live);
      for i := 0 to |ios|
        invariant TransceiversOk() && CurrentSetup() == setup
        invariant |done| == i && done <= ios
        invariant Collected(live, tables, setup, done, events, CurrentTables(), Live())
      {
        events := HandleNext(ios[i], events, live, tables, setup, done);
        done := done + [ios[i]];
      }
      assert done == ios;
    }

    /** The deadlines after a turn are those that follow from what is seen in it: on the serial side the answers of a
        discovery that ends, on both sides the expiry, and then the poll events. */
    lemma {:induction false} TurnDeadlines(now: Instant, answer: nat -> Ser.Answer, ios: seq<IoEvent>)
      requires TransceiversOk()
      ensures var t, setup := AfterIos(AfterTimeouts(now, answer), ios, CurrentSetup()), CurrentSetup();
              && t.udp == SeeAll(udp.connectionTimeouts, [Expiry(now)] + UdpSightings(ios, setup), setup.udpTimeout)
              && Ser.TimeoutsOf(t.serial) ==
                 SeeAll(Ser.TimeoutsOf(serial.connections.primToVal),
                        serial.TurnSightings(now, answer) + SerialSightings(ios), setup.serialTimeout)
    {
      var setup := CurrentSetup();
      serial.TurnSeen(now, answer);
      DeadlinesAfterIos(AfterTimeouts(now, answer), ios, setup);
      ExpiryFirst(udp.connectionTimeouts, now, UdpSightings(ios, setup), setup.udpTimeout);
      SeeAllConcat(Ser.TimeoutsOf(serial.connections.primToVal), serial.TurnSightings(now, answer),
                   SerialSightings(ios), setup.serialTimeout);
    }

    /** Everything that one turn of the loop collects: what the timeouts report, and then what every poll event does. */
    method CollectEvents(now: Instant, available: seq<(PortInfo, Ser.Probe)>, answer: nat -> Ser.Answer,
                         beaconErrors: nat, ios: seq<IoEvent>)
      returns (events: seq<Event>, ghost due: seq<Event>)
      requires TransceiversOk() && Ser.DistinctNames(available)
      modifies this`nextToken, serial, serial.connections, udp
      ensures TransceiversOk() && CurrentSetup() == old(CurrentSetup())
      ensures DisconnectsOnce(due, old(Overdue(now, answer)))
      ensures events == due + AllReports(old(AfterTimeouts(now, answer)), ios, old(CurrentSetup()))
      ensures CurrentTables() == AfterIos(old(AfterTimeouts(now, answer)), ios, old(CurrentSetup()))
      ensures Disciplined(old(Live()), events, old(udp.idFilter)) && Live() == LiveAfterAll(old(Live()), events)
    {
      ghost var live, f := Live(), udp.idFilter;
      events := HandleTimeouts(now, available, answer, beaconErrors);
      due := events;
      var more := HandleIos(ios);
      DisciplineConcat(live, due, more, f);
      events := events + more;
    }

    /** Processes the collected events, and brings the filters up to date when connections have changed. */
    method ProcessBatch(events: seq<Event>, full: nat -> bool, ghost start: World)
      requires TransceiversOk() && WorldInv(start) && FilterExact(udp.idFilter, start.table)
      requires activeConnections.primToVal == start.table && outChannel == start.log
      requires Disciplined(start.live, events, udp.idFilter) && Live() == LiveAfterAll(start.live, events)
      modifies this`outChannel, serial`idFilter, udp`idFilter, activeConnections
      ensures Valid() && State() == HandleAll(start, events, full)
    {
      HandleAllKeepsInv(start, events, full, udp.idFilter);
      var updateFilters := ProcessEvents(events, full, start.live);
      if updateFilters {
        UpdateFilters();
      }
    }

    /** One turn of the driver loop is one legal batch of the abstract run, and leaves every filter exact. No input is
        passed over: after what the timeouts report, the batch holds exactly what each poll event makes the transceivers
        report, in order. */
    method LoopIteration(now: Instant, available: seq<(PortInfo, Ser.Probe)>, answer: nat -> Ser.Answer,
                         beaconErrors: nat, ios: seq<IoEvent>, full: nat -> bool)
      returns (events: seq<Event>, ghost due: seq<Event>)
      requires Valid() && Ser.DistinctNames(available)
      modifies this, serial, serial.connections, udp, activeConnections
      ensures Valid()
      ensures Legal(old(State()), Batch(events, full))
      ensures State() == Step(old(State()), Batch(events, full))
      ensures DisconnectsOnce(due, old(Overdue(now, answer)))
      ensures events == due + AllReports(old(AfterTimeouts(now, answer)), ios, old(CurrentSetup()))
      ensures CurrentTables() == AfterIos(old(AfterTimeouts(now, answer)), ios, old(CurrentSetup()))
      ensures udp.connectionTimeouts ==
              SeeAll(old(udp.connectionTimeouts), [Expiry(now)] + UdpSightings(ios, old(CurrentSetup())),
                     udp.connectionTimeout)
      ensures Ser.TimeoutsOf(serial.connections.primToVal) ==
              SeeAll(Ser.TimeoutsOf(old(serial.connections.primToVal)),
                     old(serial.TurnSightings(now, answer)) + SerialSightings(ios), serial.connectionTimeout)
    {
      ghost var start := State();
      TurnDeadlines(now, answer, ios);
      events, due := CollectEvents(now, available, answer, beaconErrors, ios);
      ProcessBatch(events, full, start);
    }

    method SendPacketTo(id: byte, regular: RegularCommand)
      returns (sent: Option<(Address, Packet<CommandType, RegularCommand>)>)
      requires Valid()
      modifies activeConnections
      ensures Valid() && State() == Step(old(State()), SendPacket(id, regular))
      ensures sent == if id in old(activeConnections.primToVal) then
                        var (a, h) := old(activeConnections.primToVal)[id]; Some((a, Send(h, regular).1))
                      else None
    {
      sent := None;
      if id in activeConnections.primToVal {
        var (a, h) := activeConnections.primToVal[id];
        var (h', packet) := Send(h, regular);
        OpKeepsHostInv<RegularCommand, RegularResponse>(h, SendOp(regular));
        UpdateHost(id, h');
        sent := Some((a, packet));
      }
    }

    /** Writes back the protocol state of a connected robot. */
    method UpdateHost(id: byte, h: Host)
      requires Valid() && id in activeConnections.primToVal && HostInv(h)
      modifies activeConnections
      ensures Valid() && State() == WithHost(old(State()), id, h)
    {
      HostUpdateKeepsInv(State(), id, h);
      activeConnections.SetValue(id, h);
      assert activeConnections.primToVal.Keys == old(activeConnections.primToVal).Keys;
    }

    method QueueDatagramFor(id: byte, datagram: CommandDatagram)
      requires Valid()
      modifies activeConnections
      ensures Valid() && State() == Step(old(State()), QueueDatagram(id, datagram))
    {
      if id in activeConnections.primToVal {
        ghost var w := State();
        var h := activeConnections.primToVal[id].1;
        OpKeepsHostInv<RegularCommand, RegularResponse>(h, QueueOp(datagram));
        var h' := Queue(h, datagram);
        assert Step(w, QueueDatagram(id, datagram)) == WithHost(w, id, h');
        UpdateHost(id, h');
      }
    }
  }
}
