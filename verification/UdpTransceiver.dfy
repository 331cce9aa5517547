/** The UDP transceiver's table of connection deadlines and its cached minimum. Socket reads are inputs. */
module UdpTransceivers {
  import opened Options
  import opened Deadlines
  import opened IdFilter
  import opened Transceivers

  const DATA_PORT: nat := 11001
  const BEACON_PERIOD: nat := 1000

  datatype DiscoveryRead = Beacon(src: SocketAddr, data: seq<byte>, at: Instant) | BeaconError

  datatype DataRead = Data(src: SocketAddr, packet: ResponsePacket, at: Instant) | DataError

  /** What a poll event's token selects, with everything the socket then delivers until it would block. */
  datatype Readable = DiscoverySocket(beacons: seq<DiscoveryRead>) | DataSocket(packets: seq<DataRead>) | UnknownToken

  /** The robot's data address: the source address with the fixed data port. */
  function DataAddr(src: SocketAddr): SocketAddr {
    match src
    case V4(ip, _) => V4(ip, DATA_PORT)
    case V6(ip, _, _, scope) => V6(ip, DATA_PORT, 0, scope)
  }

  /** The same host, whatever the port it sends from. */
  predicate SameHost(a: SocketAddr, b: SocketAddr) {
    a.ip == b.ip && a.V4? == b.V4? && (a.V6? ==> a.scope == b.scope)
  }

  /** A host has one data address, at the fixed port, and shares it with no other host. */
  lemma OneDataAddrPerHost(a: SocketAddr, b: SocketAddr)
    ensures DataAddr(a) == DataAddr(b) <==> SameHost(a, b)
    ensures DataAddr(a).port == 11001 && SameHost(a, DataAddr(a))
  {
  }

  // ---- What a burst of datagrams does ----

  /** A table, the one-byte receive buffer, and the events so far. */
  datatype Discovery = Discovery(table: map<SocketAddr, Instant>, rxBuf: byte, events: seq<Event>)

  /** An address enters the table, and is announced, only when it is not already there. An empty datagram leaves the
      previous id in the receive buffer. */
  function Discover(d: Discovery, beacon: DiscoveryRead, f: RobotIdFilter, timeout: nat): Discovery {
    match beacon
    case BeaconError => d.(events := d.events + [Error])
    case Beacon(src, data, at) =>
      var id := if |data| > 0 then data[0] else d.rxBuf;
      var addr := DataAddr(src);
      if Accepts(f, id) && addr !in d.table then
        Discovery(d.table[addr := at + timeout], id, d.events + [Connected(Udp(addr), id)])
      else d.(rxBuf := id)
  }

  function DiscoverAll(table: map<SocketAddr, Instant>, beacons: seq<DiscoveryRead>, f: RobotIdFilter, timeout: nat)
    : Discovery
  {
    if |beacons| == 0 then Discovery(table, 0, [])
    else Discover(DiscoverAll(table, beacons[..|beacons| - 1], f, timeout), beacons[|beacons| - 1], f, timeout)
  }

  /** The id in the receive buffer when the i-th read is handled: that of the last datagram that was not empty. */
  function IdAt(beacons: seq<DiscoveryRead>, i: nat): byte
    requires i < |beacons|
  {
    if beacons[i].Beacon? && |beacons[i].data| > 0 then beacons[i].data[0]
    else if i == 0 then 0
    else IdAt(beacons, i - 1)
  }

  /** The i-th read announces address `a` under an id that the filter accepts. */
  predicate AcceptedFrom(f: RobotIdFilter, beacons: seq<DiscoveryRead>, i: nat, a: SocketAddr) {
    i < |beacons| && beacons[i].Beacon? && DataAddr(beacons[i].src) == a && Accepts(f, IdAt(beacons, i))
  }

  predicate FirstAccepted(f: RobotIdFilter, beacons: seq<DiscoveryRead>, i: nat, a: SocketAddr) {
    AcceptedFrom(f, beacons, i, a) && forall j: nat :: j < i ==> !AcceptedFrom(f, beacons, j, a)
  }

  /** The event that the i-th read leads to: an error, or the first announcement of a new address. */
  function BeaconReport(known: set<SocketAddr>, f: RobotIdFilter, beacons: seq<DiscoveryRead>, i: nat): Option<Event>
    requires i < |beacons|
  {
    match beacons[i]
    case BeaconError => Some(Error)
    case Beacon(src, _, _) =>
      var a := DataAddr(src);
      if a !in known && FirstAccepted(f, beacons, i, a) then Some(Connected(Udp(a), IdAt(beacons, i))) else None
  }

  function BeaconReports(known: set<SocketAddr>, f: RobotIdFilter, beacons: seq<DiscoveryRead>): seq<Option<Event>> {
    seq(|beacons|, i requires 0 <= i < |beacons| => BeaconReport(known, f, beacons, i))
  }

  function BeaconSighting(f: RobotIdFilter, beacons: seq<DiscoveryRead>, i: nat): Sighting<SocketAddr>
    requires i < |beacons|
  {
    if beacons[i].Beacon? && Accepts(f, IdAt(beacons, i)) then Announced(DataAddr(beacons[i].src), beacons[i].at)
    else Nothing
  }

  function BeaconSightings(f: RobotIdFilter, beacons: seq<DiscoveryRead>): (r: seq<Sighting<SocketAddr>>)
    ensures |r| == |beacons|
  {
    seq(|beacons|, i requires 0 <= i < |beacons| => BeaconSighting(f, beacons, i))
  }

  lemma {:induction false} IdAtPrefix(beacons: seq<DiscoveryRead>, n: nat, i: nat)
    requires i < n <= |beacons|
    ensures IdAt(beacons[..n], i) == IdAt(beacons, i)
    decreases i
  {
    if i == 0 {
    } else {
      IdAtPrefix(beacons, n, i - 1);
    }
  }

  lemma {:induction false} SightingsSnoc(f: RobotIdFilter, beacons: seq<DiscoveryRead>)
    requires |beacons| > 0
    ensures var n := |beacons| - 1;
            BeaconSightings(f, beacons) == BeaconSightings(f, beacons[..n]) + [BeaconSighting(f, beacons, n)]
  {
    var n := |beacons| - 1;
    forall i | 0 <= i < n ensures BeaconSighting(f, beacons, i) == BeaconSighting(f, beacons[..n], i) {
      IdAtPrefix(beacons, n, i);
    }
  }

  lemma {:induction false} AcceptedPrefix(f: RobotIdFilter, beacons: seq<DiscoveryRead>, n: nat, i: nat, a: SocketAddr)
    requires i < n <= |beacons|
    ensures AcceptedFrom(f, beacons[..n], i, a) == AcceptedFrom(f, beacons, i, a)
  {
    IdAtPrefix(beacons, n, i);
  }

  lemma {:induction false} ReportPrefix(known: set<SocketAddr>, f: RobotIdFilter, beacons: seq<DiscoveryRead>, n: nat,
                                        i: nat)
    requires i < n <= |beacons|
    ensures BeaconReport(known, f, beacons[..n], i) == BeaconReport(known, f, beacons, i)
  {
    IdAtPrefix(beacons, n, i);
    if beacons[i].Beacon? {
      var a := DataAddr(beacons[i].src);
      forall j: nat | j <= i ensures AcceptedFrom(f, beacons[..n], j, a) == AcceptedFrom(f, beacons, j, a) {
        AcceptedPrefix(f, beacons, n, j, a);
      }
    }
  }

  lemma {:induction false} ReportsSnoc(known: set<SocketAddr>, f: RobotIdFilter, beacons: seq<DiscoveryRead>)
    requires |beacons| > 0
    ensures var n := |beacons| - 1;
            BeaconReports(known, f, beacons) ==
            BeaconReports(known, f, beacons[..n]) + [BeaconReport(known, f, beacons, n)]
  {
    var n := |beacons| - 1;
    forall i | 0 <= i < n ensures BeaconReport(known, f, beacons, i) == BeaconReport(known, f, beacons[..n], i) {
      ReportPrefix(known, f, beacons, n, i);
    }
  }

  lemma IntroducesIff(f: RobotIdFilter, beacons: seq<DiscoveryRead>, i: nat, a: SocketAddr)
    requires i < |beacons|
    ensures Introduces(BeaconSightings(f, beacons)[i], a) <==> AcceptedFrom(f, beacons, i, a)
  {
  }

  /** What becomes of an address: it stays as it was, or enters with the deadline of its first accepted beacon. */
  ghost predicate EntersFirst(was: map<SocketAddr, Instant>, now: map<SocketAddr, Instant>, f: RobotIdFilter,
                              beacons: seq<DiscoveryRead>, timeout: nat, a: SocketAddr) {
    if a in was then a in now && now[a] == was[a]
    else
      && (a in now ==> exists i: nat :: FirstAccepted(f, beacons, i, a))
      && (forall i: nat :: FirstAccepted(f, beacons, i, a) ==> a in now && now[a] == beacons[i].at + timeout)
  }

  lemma {:induction false} FirstOfSome(f: RobotIdFilter, beacons: seq<DiscoveryRead>, i: nat, a: SocketAddr)
    requires AcceptedFrom(f, beacons, i, a)
    ensures exists j: nat :: FirstAccepted(f, beacons, j, a)
    decreases i
  {
    if j: nat :| j < i && AcceptedFrom(f, beacons, j, a) {
      FirstOfSome(f, beacons, j, a);
    } else {
      assert FirstAccepted(f, beacons, i, a);
    }
  }

  lemma {:induction false} BeaconsEnter(table: map<SocketAddr, Instant>, f: RobotIdFilter, beacons: seq<DiscoveryRead>,
                                        timeout: nat, a: SocketAddr)
    ensures EntersFirst(table, SeeAll(table, BeaconSightings(f, beacons), timeout), f, beacons, timeout, a)
  {
    var ss := BeaconSightings(f, beacons);
    AnnouncementsEnter(table, ss, timeout, a);
    forall i | 0 <= i < |ss| ensures Introduces(ss[i], a) <==> AcceptedFrom(f, beacons, i, a) {
      IntroducesIff(f, beacons, i, a);
    }
    if i :| 0 <= i < |ss| && Introduces(ss[i], a) {
      FirstOfSome(f, beacons, i, a);
    }
    forall i: nat | a !in table && FirstAccepted(f, beacons, i, a)
      ensures a in SeeAll(table, ss, timeout) && SeeAll(table, ss, timeout)[a] == beacons[i].at + timeout
    {
      assert FirstAnnounced(ss, i, a);
      FirstAnnouncementCounts(table, ss, timeout, a, i);
    }
  }

  /** The fold over a burst of beacons, read by read: table and events as described above. */
  lemma {:induction false} DiscoverAllIs(table: map<SocketAddr, Instant>, beacons: seq<DiscoveryRead>, f: RobotIdFilter,
                                         timeout: nat)
    ensures var d := DiscoverAll(table, beacons, f, timeout);
            && d.table == SeeAll(table, BeaconSightings(f, beacons), timeout)
            && d.events == Somes(BeaconReports(table.Keys, f, beacons))
            && d.rxBuf == if |beacons| == 0 then 0 else IdAt(beacons, |beacons| - 1)
  {
    if |beacons| == 0 {
    } else {
      var n := |beacons| - 1;
      var before := DiscoverAll(table, beacons[..n], f, timeout);
      DiscoverAllIs(table, beacons[..n], f, timeout);
      if n > 0 {
        IdAtPrefix(beacons, n, n - 1);
      }
      DiscoverIs(table, before, beacons, f, timeout);
      SightingsSnoc(f, beacons);
      SeeAllSnoc(table, BeaconSightings(f, beacons[..n]), BeaconSighting(f, beacons, n), timeout);
      ReportsSnoc(table.Keys, f, beacons);
      SomesSnoc(BeaconReports(table.Keys, f, beacons[..n]), BeaconReport(table.Keys, f, beacons, n));
    }
  }

  /** The last read of a burst. */
  lemma {:induction false} DiscoverIs(table: map<SocketAddr, Instant>, before: Discovery, beacons: seq<DiscoveryRead>,
                                      f: RobotIdFilter, timeout: nat)
    requires |beacons| > 0
    requires var n := |beacons| - 1;
             && before.table == SeeAll(table, BeaconSightings(f, beacons[..n]), timeout)
             && before.rxBuf == if n == 0 then 0 else IdAt(beacons, n - 1)
    ensures var n := |beacons| - 1;
            var d, report := Discover(before, beacons[n], f, timeout), BeaconReport(table.Keys, f, beacons, n);
            && d.table == See(before.table, BeaconSighting(f, beacons, n), timeout)
            && d.events == before.events + (if report.Some? then [report.value] else [])
            && d.rxBuf == IdAt(beacons, n)
  {
    var n := |beacons| - 1;
    assert before.events + [] == before.events;
    if beacons[n].Beacon? {
      var a := DataAddr(beacons[n].src);
      KnownBefore(table, beacons, f, timeout, n, a);
    }
  }

  lemma {:induction false} KnownBefore(table: map<SocketAddr, Instant>, beacons: seq<DiscoveryRead>, f: RobotIdFilter,
                                       timeout: nat, n: nat, a: SocketAddr)
    requires n < |beacons| && AcceptedFrom(f, beacons, n, a) == Accepts(f, IdAt(beacons, n))
    ensures AcceptedFrom(f, beacons, n, a) ==>
              (a !in SeeAll(table, BeaconSightings(f, beacons[..n]), timeout) <==>
               a !in table && FirstAccepted(f, beacons, n, a))
  {
    var ss := BeaconSightings(f, beacons[..n]);
    AnnouncementsEnter(table, ss, timeout, a);
    forall j: nat | j < n ensures Introduces(ss[j], a) <==> AcceptedFrom(f, beacons, j, a) {
      IntroducesIff(f, beacons[..n], j, a);
      AcceptedPrefix(f, beacons, n, j, a);
    }
  }

  /** Packets from known addresses are reported; others are dropped. */
  function DataReport(known: set<SocketAddr>, read: DataRead): Option<Event> {
    match read
    case DataError => Some(Error)
    case Data(src, packet, _) => if src in known then Some(PacketReceived(Udp(src), packet)) else None
  }

  function DataReports(known: set<SocketAddr>, packets: seq<DataRead>): seq<Option<Event>> {
    seq(|packets|, i requires 0 <= i < |packets| => DataReport(known, packets[i]))
  }

  function DataSighting(read: DataRead): Sighting<SocketAddr> {
    match read
    case DataError => Nothing
    case Data(src, _, at) => Heard(src, at)
  }

  function DataSightings(packets: seq<DataRead>): (r: seq<Sighting<SocketAddr>>)
    ensures |r| == |packets|
  {
    seq(|packets|, i requires 0 <= i < |packets| => DataSighting(packets[i]))
  }

  predicate PacketFrom(read: DataRead, a: SocketAddr) {
    read.Data? && read.src == a
  }

  predicate LastPacketFrom(packets: seq<DataRead>, i: nat, a: SocketAddr) {
    i < |packets| && PacketFrom(packets[i], a) && forall j :: i < j < |packets| ==> !PacketFrom(packets[j], a)
  }

  predicate NoPacketFrom(packets: seq<DataRead>, a: SocketAddr) {
    forall i :: 0 <= i < |packets| ==> !PacketFrom(packets[i], a)
  }

  /** Every deadline follows the address's last packet, if there is one. */
  ghost predicate FollowsLast(was: map<SocketAddr, Instant>, now: map<SocketAddr, Instant>, packets: seq<DataRead>,
                              timeout: nat) {
    && now.Keys == was.Keys
    && (forall a, i: nat :: a in now && LastPacketFrom(packets, i, a) ==> now[a] == packets[i].at + timeout)
    && (forall a :: a in now && NoPacketFrom(packets, a) ==> now[a] == was[a])
  }

  lemma {:induction false} PacketsFollow(table: map<SocketAddr, Instant>, packets: seq<DataRead>, timeout: nat)
    ensures FollowsLast(table, SeeAll(table, DataSightings(packets), timeout), packets, timeout)
  {
    var ss := DataSightings(packets);
    var now := SeeAll(table, ss, timeout);
    forall a ensures a in now <==> a in table {
      PacketsMoveDeadlines(table, ss, timeout, a);
    }
    forall a | a in now && NoPacketFrom(packets, a) ensures now[a] == table[a] {
      PacketsMoveDeadlines(table, ss, timeout, a);
      assert Silent(ss, a);
    }
    forall a, i: nat | a in now && LastPacketFrom(packets, i, a) ensures now[a] == packets[i].at + timeout {
      PacketsMoveDeadlines(table, ss, timeout, a);
      assert LastHeard(ss, i, a);
    }
  }

  /** Every packet from a known address is reported. */
  ghost predicate ReportsPackets(known: set<SocketAddr>, packets: seq<DataRead>, events: seq<Event>) {
    forall i :: 0 <= i < |packets| && packets[i].Data? && packets[i].src in known ==>
      PacketReceived(Udp(packets[i].src), packets[i].packet) in events
  }

  lemma {:induction false} PacketsReported(known: set<SocketAddr>, packets: seq<DataRead>)
    ensures ReportsPackets(known, packets, Somes(DataReports(known, packets)))
  {
    forall i | 0 <= i < |packets| && packets[i].Data? && packets[i].src in known
      ensures PacketReceived(Udp(packets[i].src), packets[i].packet) in Somes(DataReports(known, packets))
    {
      SomesHas(DataReports(known, packets), i);
    }
  }

  /** Every new address is announced, under the id of its first accepted beacon. */
  ghost predicate ReportsAnnouncements(known: set<SocketAddr>, f: RobotIdFilter, beacons: seq<DiscoveryRead>,
                                       events: seq<Event>) {
    forall i: nat, a :: a !in known && FirstAccepted(f, beacons, i, a) ==> Connected(Udp(a), IdAt(beacons, i)) in events
  }

  lemma {:induction false} AnnouncementsReported(known: set<SocketAddr>, f: RobotIdFilter, beacons: seq<DiscoveryRead>)
    ensures ReportsAnnouncements(known, f, beacons, Somes(BeaconReports(known, f, beacons)))
  {
    forall i: nat, a | a !in known && FirstAccepted(f, beacons, i, a)
      ensures Connected(Udp(a), IdAt(beacons, i)) in Somes(BeaconReports(known, f, beacons))
    {
      SomesHas(BeaconReports(known, f, beacons), i);
    }
  }

  // ---- One poll event ----

  function Sightings(input: Readable, f: RobotIdFilter): seq<Sighting<SocketAddr>> {
    match input
    case DiscoverySocket(beacons) => BeaconSightings(f, beacons)
    case DataSocket(packets) => DataSightings(packets)
    case UnknownToken => []
  }

  function ReportsOf(known: set<SocketAddr>, input: Readable, f: RobotIdFilter): seq<Event> {
    match input
    case DiscoverySocket(beacons) => Somes(BeaconReports(known, f, beacons))
    case DataSocket(packets) => Somes(DataReports(known, packets))
    case UnknownToken => []
  }

  ghost function LiveOf(table: map<SocketAddr, Instant>): set<Address> {
    set a | a in table :: Udp(a)
  }

  /** Keeps the entries whose deadline is not before `now`, and reports each of the others once. */
  method RetainNotBefore(table: map<SocketAddr, Instant>, now: Instant, ghost f: RobotIdFilter)
    returns (kept: map<SocketAddr, Instant>, events: seq<Event>)
    ensures kept == NotBefore(table, now)
    ensures ReportsOnce(events, LiveOf(table) - LiveOf(kept))
    ensures forall e <- events :: OnUdp(e)
    ensures Disciplined(LiveOf(table), events, f) && LiveOf(kept) == LiveAfterAll(LiveOf(table), events)
  {
    events, kept := [], table;
    var todo := table.Keys;
    ghost var gone: seq<Address> := [];
    while todo != {}
      invariant todo <= kept.Keys
      invariant forall a :: a in kept ==> a in table && kept[a] == table[a]
      invariant forall a :: a in table ==> (a in kept <==> a in todo || table[a] >= now)
      invariant forall x <- gone :: x.Udp? && x.addr in table && x.addr !in kept
      invariant forall a :: a in table && a !in kept ==> Udp(a) in gone
      invariant Distinct(gone) && events == Disconnects(gone)
      decreases |todo|
    {
      var a :| a in todo;
      if kept[a] < now {
        kept := kept - {a};
        events := events + [Disconnected(Udp(a))];
        DisconnectsExtend(gone, Udp(a));
        gone := gone + [Udp(a)];
      }
      todo := todo - {a};
    }
    assert Members(gone) == LiveOf(table) - LiveOf(kept);
    DisconnectsReport(LiveOf(table), gone, f);
    assert LiveOf(kept) == LiveOf(table) - Members(gone);
  }

  lemma LiveWith(table: map<SocketAddr, Instant>, a: SocketAddr, t: Instant)
    ensures LiveOf(table[a := t]) == LiveOf(table) + {Udp(a)}
  {
    forall b | b in table ensures Udp(b) in LiveOf(table[a := t]) {
      assert b in table[a := t];
    }
    assert a in table[a := t];
  }

  ghost predicate Announces(events: seq<Event>) {
    forall e <- events :: OnUdp(e) && !e.Disconnected? && !e.PacketReceived?
  }

  /** A table whose live set the announcements so far account for. */
  ghost predicate Accounted(live: set<Address>, table: map<SocketAddr, Instant>, events: seq<Event>, f: RobotIdFilter) {
    Disciplined(live, events, f) && LiveOf(table) == LiveAfterAll(live, events) && Announces(events)
  }

  lemma AnnounceOne(live: set<Address>, table: map<SocketAddr, Instant>, events: seq<Event>, a: SocketAddr, id: byte,
                    t: Instant, f: RobotIdFilter)
    requires Accounted(live, table, events, f) && a !in table && Accepts(f, id)
    ensures Accounted(live, table[a := t], events + [Connected(Udp(a), id)], f)
  {
    assert Udp(a) !in LiveOf(table);
    DisciplineExtend(live, events, Connected(Udp(a), id), f);
    LiveWith(table, a, t);
  }

  lemma AccountedError(live: set<Address>, table: map<SocketAddr, Instant>, events: seq<Event>, f: RobotIdFilter)
    requires Accounted(live, table, events, f)
    ensures Accounted(live, table, events + [Error], f)
  {
    DisciplineExtend(live, events, Error, f);
  }

  lemma DiscoverDisciplined(live: set<Address>, d: Discovery, beacon: DiscoveryRead, f: RobotIdFilter, timeout: nat)
    requires Accounted(live, d.table, d.events, f)
    ensures var d' := Discover(d, beacon, f, timeout); Accounted(live, d'.table, d'.events, f)
  {
    if beacon.BeaconError? {
      AccountedError(live, d.table, d.events, f);
    } else {
      DiscoverBeacon(live, d, beacon, f, timeout);
    }
  }

  lemma DiscoverBeacon(live: set<Address>, d: Discovery, beacon: DiscoveryRead, f: RobotIdFilter, timeout: nat)
    requires Accounted(live, d.table, d.events, f) && beacon.Beacon?
    ensures var d' := Discover(d, beacon, f, timeout); Accounted(live, d'.table, d'.events, f)
  {
    var id := if |beacon.data| > 0 then beacon.data[0] else d.rxBuf;
    var addr, t := DataAddr(beacon.src), beacon.at + timeout;
    if Accepts(f, id) && addr !in d.table {
      AnnounceOne(live, d.table, d.events, addr, id, t, f);
      assert Discover(d, beacon, f, timeout) ==
             Discovery(d.table[addr := t], id, d.events + [Connected(Udp(addr), id)]);
    } else {
      assert Discover(d, beacon, f, timeout) == d.(rxBuf := id);
    }
  }

  /** Announcements are disciplined: an address already in the table is never announced again. */
  lemma {:induction false} DiscoverAllDisciplined(table: map<SocketAddr, Instant>, beacons: seq<DiscoveryRead>,
                                                  f: RobotIdFilter, timeout: nat)
    ensures var d := DiscoverAll(table, beacons, f, timeout); Accounted(LiveOf(table), d.table, d.events, f)
  {
    if |beacons| == 0 {
    } else {
      var n := |beacons| - 1;
      DiscoverAllDisciplined(table, beacons[..n], f, timeout);
      DiscoverDisciplined(LiveOf(table), DiscoverAll(table, beacons[..n], f, timeout), beacons[n], f, timeout);
    }
  }

  ghost predicate Reports(events: seq<Event>) {
    forall e <- events :: OnUdp(e) && !e.Disconnected? && !e.Connected?
  }

  lemma {:induction false} DataReportsSnoc(known: set<SocketAddr>, packets: seq<DataRead>)
    requires |packets| > 0
    ensures var n := |packets| - 1;
            && DataReports(known, packets) == DataReports(known, packets[..n]) + [DataReport(known, packets[n])]
            && DataSightings(packets) == DataSightings(packets[..n]) + [DataSighting(packets[n])]
  {
  }

  lemma {:induction false} DataEventsDisciplined(table: map<SocketAddr, Instant>, packets: seq<DataRead>,
                                                 f: RobotIdFilter)
    ensures var events := Somes(DataReports(table.Keys, packets));
            && Disciplined(LiveOf(table), events, f) && LiveAfterAll(LiveOf(table), events) == LiveOf(table)
            && Reports(events)
  {
    if |packets| == 0 {
    } else {
      var n, live := |packets| - 1, LiveOf(table);
      var before := Somes(DataReports(table.Keys, packets[..n]));
      DataEventsDisciplined(table, packets[..n], f);
      DataReportsSnoc(table.Keys, packets);
      SomesSnoc(DataReports(table.Keys, packets[..n]), DataReport(table.Keys, packets[n]));
      match packets[n]
      case DataError =>
        DisciplineExtend(live, before, Error, f);
      case Data(src, packet, _) =>
        if src in table {
          assert Udp(src) in live;
          DisciplineExtend(live, before, PacketReceived(Udp(src), packet), f);
        } else {
          assert before + [] == before;
        }
    }
  }

  /** One error event for every beacon that could not be sent. */
  method BeaconErrors(failed: nat) returns (events: seq<Event>)
    ensures OnlyErrors(events) && |events| == failed
  {
    events := [];
    for i := 0 to failed
      invariant OnlyErrors(events) && |events| == i
    {
      events := events + [Error];
    }
  }

  lemma {:induction false} ErrorsAfterReport(es: seq<Event>, errors: seq<Event>, gone: set<Address>)
    requires ReportsOnce(es, gone) && OnlyErrors(errors)
    ensures ReportsOnce(es + errors, gone)
  {
    var all := es + errors;
    assert forall k :: 0 <= k < |errors| ==> errors[k].Error?;
    forall i, j | 0 <= i < j < |all| && all[i].Disconnected? ensures all[i] != all[j] {
      assert i < |es|;
    }
  }

  class UdpTransceiver {
    var connectionTimeouts: map<SocketAddr, Instant>
    var nextBeaconTime: Instant
    var nextConnTimeout: Option<Instant>
    var idFilter: RobotIdFilter
    const connectionTimeout: nat

    ghost predicate Valid()
      reads this
    {
      IsMinimum(nextConnTimeout, connectionTimeouts)
    }

    ghost function Live(): set<Address>
      reads this
    {
      LiveOf(connectionTimeouts)
    }

    constructor (connectionTimeout: nat, now: Instant)
      ensures Valid() && Live() == {} && idFilter == NO_FILTER && this.connectionTimeout == connectionTimeout
    {
      this.connectionTimeout := connectionTimeout;
      connectionTimeouts, nextConnTimeout, idFilter := map[], None, NO_FILTER;
      nextBeaconTime := now + BEACON_PERIOD;
    }

    method SetIdFilter(f: RobotIdFilter)
      modifies this`idFilter
      ensures idFilter == f
    {
      idFilter := f;
    }

    /** The next moment the driver must call MioTimeout. */
    function NextTimeout(): (t: Instant)
      reads this
      ensures t <= nextBeaconTime
      ensures nextConnTimeout.Some? ==> t <= nextConnTimeout.value
      ensures t == nextBeaconTime || nextConnTimeout == Some(t)
    {
      if nextConnTimeout.Some? && nextConnTimeout.value < nextBeaconTime then nextConnTimeout.value
      else nextBeaconTime
    }

    /** No deadline before `now` survives, no other entry is touched, and every removed connection is
        reported by exactly one Disconnected event. */
    method MioTimeout(now: Instant, beaconErrors: nat) returns (events: seq<Event>)
      requires Valid()
      modifies this`connectionTimeouts, this`nextConnTimeout, this`nextBeaconTime
      ensures Valid()
      ensures connectionTimeouts == NotBefore(old(connectionTimeouts), now)
      ensures nextBeaconTime == old(nextBeaconTime) + if now >= old(nextBeaconTime) then 1000 else 0
      ensures ReportsOnce(events, old(Live()) - Live())
      ensures forall e <- events :: OnUdp(e)
      ensures Disciplined(old(Live()), events, idFilter) && Live() == LiveAfterAll(old(Live()), events)
    {
      events := [];
      if nextConnTimeout.Some? && nextConnTimeout.value < now {
        events := Expire(now);
        nextConnTimeout := Minimum(connectionTimeouts);
      }
      assert connectionTimeouts == NotBefore(old(connectionTimeouts), now);
      if now >= nextBeaconTime {
        var errors := BeaconErrors(beaconErrors);
        ErrorsAreDisciplined(Live(), errors, idFilter);
        DisciplineConcat(old(Live()), events, errors, idFilter);
        ErrorsAfterReport(events, errors, old(Live()) - Live());
        events := events + errors;
        nextBeaconTime := nextBeaconTime + BEACON_PERIOD;
      }
    }

    /** The retain call of MioTimeout. */
    method Expire(now: Instant) returns (events: seq<Event>)
      modifies this`connectionTimeouts
      ensures connectionTimeouts == NotBefore(old(connectionTimeouts), now)
      ensures ReportsOnce(events, old(Live()) - Live())
      ensures forall e <- events :: OnUdp(e)
      ensures Disciplined(old(Live()), events, idFilter) && Live() == LiveAfterAll(old(Live()), events)
    {
      var kept;
      kept, events := RetainNotBefore(connectionTimeouts, now, idFilter);
      connectionTimeouts := kept;
    }

    method MioEvent(input: Readable) returns (events: seq<Event>)
      requires Valid()
      modifies this`connectionTimeouts, this`nextConnTimeout
      ensures Valid()
      ensures forall e <- events :: OnUdp(e)
      ensures Disciplined(old(Live()), events, idFilter) && Live() == LiveAfterAll(old(Live()), events)
      ensures input.DataSocket? ==> ReportsPackets(old(connectionTimeouts).Keys, input.packets, events)
      ensures input.DiscoverySocket? ==>
                ReportsAnnouncements(old(connectionTimeouts).Keys, idFilter, input.beacons, events)
      ensures events == ReportsOf(old(connectionTimeouts).Keys, input, idFilter)
      ensures connectionTimeouts == SeeAll(old(connectionTimeouts), Sightings(input, idFilter), connectionTimeout)
    {
      match input {
        case DiscoverySocket(beacons) => events := ReceiveDiscoveryPackets(beacons);
        case DataSocket(packets) => events := ReceiveDataPackets(packets);
        case UnknownToken =>
          events := [];
          return;
      }
      nextConnTimeout := Minimum(connectionTimeouts);
    }

    method ReceiveDiscoveryPackets(beacons: seq<DiscoveryRead>) returns (events: seq<Event>)
      modifies this`connectionTimeouts
      ensures connectionTimeouts ==
              SeeAll(old(connectionTimeouts), BeaconSightings(idFilter, beacons), connectionTimeout)
      ensures forall a ::
                EntersFirst(old(connectionTimeouts), connectionTimeouts, idFilter, beacons, connectionTimeout, a)
      ensures ReportsAnnouncements(old(connectionTimeouts).Keys, idFilter, beacons, events)
      ensures events == Somes(BeaconReports(old(connectionTimeouts).Keys, idFilter, beacons))
      ensures Announces(events)
      ensures Disciplined(old(Live()), events, idFilter) && Live() == LiveAfterAll(old(Live()), events)
    {
      events := [];
      var rxBuf: byte := 0;
      for i := 0 to |beacons|
        invariant DiscoverAll(old(connectionTimeouts), beacons[..i], idFilter, connectionTimeout)
               == Discovery(connectionTimeouts, rxBuf, events)
      {
        assert beacons[..i + 1][..i] == beacons[..i];
        match beacons[i]
        case BeaconError =>
          events := events + [Error];
        case Beacon(src, data, at) =>
          if |data| > 0 {
            rxBuf := data[0];
          }
          var addr := DataAddr(src);
          if Accepts(idFilter, rxBuf) && addr !in connectionTimeouts {
            connectionTimeouts := connectionTimeouts[addr := at + connectionTimeout];
            events := events + [Connected(Udp(addr), rxBuf)];
          }
      }
      assert beacons[..|beacons|] == beacons;
      DiscoverAllDisciplined(old(connectionTimeouts), beacons, idFilter, connectionTimeout);
      DiscoverAllIs(old(connectionTimeouts), beacons, idFilter, connectionTimeout);
      AnnouncementsReported(old(connectionTimeouts).Keys, idFilter, beacons);
      forall a
        ensures EntersFirst(old(connectionTimeouts), connectionTimeouts, idFilter, beacons, connectionTimeout, a)
      {
        BeaconsEnter(old(connectionTimeouts), idFilter, beacons, connectionTimeout, a);
      }
    }

    method ReceiveDataPackets(packets: seq<DataRead>) returns (events: seq<Event>)
      modifies this`connectionTimeouts
      ensures connectionTimeouts == SeeAll(old(connectionTimeouts), DataSightings(packets), connectionTimeout)
      ensures FollowsLast(old(connectionTimeouts), connectionTimeouts, packets, connectionTimeout)
      ensures ReportsPackets(old(connectionTimeouts).Keys, packets, events)
      ensures events == Somes(DataReports(old(connectionTimeouts).Keys, packets))
      ensures Reports(events)
      ensures Disciplined(old(Live()), events, idFilter) && Live() == LiveAfterAll(old(Live()), events)
    {
      ghost var was := connectionTimeouts;
      events := [];
      for i := 0 to |packets|
        invariant connectionTimeouts.Keys == was.Keys
        invariant connectionTimeouts == SeeAll(was, DataSightings(packets[..i]), connectionTimeout)
        invariant events == Somes(DataReports(was.Keys, packets[..i]))
      {
        assert packets[..i + 1][..i] == packets[..i];
        DataReportsSnoc(was.Keys, packets[..i + 1]);
        SomesSnoc(DataReports(was.Keys, packets[..i]), DataReport(was.Keys, packets[i]));
        SeeAllSnoc(was, DataSightings(packets[..i]), DataSighting(packets[i]), connectionTimeout);
        match packets[i]
        case DataError =>
          events := events + [Error];
        case Data(src, packet, at) =>
          if src in connectionTimeouts {
            connectionTimeouts := connectionTimeouts[src := at + connectionTimeout];
            events := events + [PacketReceived(Udp(src), packet)];
          }
      }
      assert packets[..|packets|] == packets;
      PacketsFollow(was, packets, connectionTimeout);
      PacketsReported(was.Keys, packets);
      DataEventsDisciplined(was, packets, idFilter);
    }
  }
}
