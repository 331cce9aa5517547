/** The serial transceiver's connection table, discovery state and deadline cache. Port probing, port reads and
    the clock are inputs. */
module SerialTransceivers {
  import opened Options
  import opened Deadlines
  import opened DualMap
  import opened IdFilter
  import opened Transceivers

  const DISCOVERY_WAIT: nat := 500

  datatype Connection = Connection(portInfo: PortInfo, timeout: Instant)

  /** How opening and greeting a port turned out. */
  datatype Probe = OpenFailed | WriteFailed | RegisterFailed | Ready

  /** What a probed port answered by the end of the discovery. */
  datatype Answer = ReadFailed | NotText | Parsed(id: Option<byte>, at: Instant, deregisterFails: bool)

  /** Token, port. */
  type DiscoveryPort = (nat, PortInfo)

  ghost predicate DistinctNames(ports: seq<(PortInfo, Probe)>) {
    forall i, j :: 0 <= i < j < |ports| ==> ports[i].0.name != ports[j].0.name
  }

  ghost predicate DistinctPorts(ports: seq<DiscoveryPort>) {
    forall i, j :: 0 <= i < j < |ports| ==> ports[i].0 != ports[j].0 && ports[i].1.name != ports[j].1.name
  }

  /** The cache is never later than any deadline, and is present whenever there is one. */
  ghost predicate IsLowerBound(cache: Option<Instant>, table: map<nat, (string, Connection)>) {
    forall t :: t in table ==> cache.Some? && cache.value <= table[t].1.timeout
  }

  function TimeoutsOf(table: map<nat, (string, Connection)>): map<nat, Instant> {
    map t | t in table :: table[t].1.timeout
  }

  lemma MinimumBounds(r: Option<Instant>, table: map<nat, (string, Connection)>)
    requires IsMinimum(r, TimeoutsOf(table))
    ensures IsLowerBound(r, table)
  {
    forall t | t in table ensures t in TimeoutsOf(table) && TimeoutsOf(table)[t] == table[t].1.timeout {}
  }

  function Saturating(a: nat, b: nat): nat {
    if a < b then 0 else a - b
  }

  type Entry = (nat, string, Connection)

  function AddrOf(e: Entry): Address {
    Serial(e.2.portInfo)
  }

  ghost function LiveOf(table: map<nat, (string, Connection)>): set<Address> {
    set t | t in table :: Serial(table[t].1.portInfo)
  }

  function Unexpired(table: map<nat, (string, Connection)>, now: Instant): map<nat, (string, Connection)> {
    map t | t in table && table[t].1.timeout >= now :: table[t]
  }

  /** Every entry is stored under the name of its port. */
  ghost predicate NamedByPort(table: map<nat, (string, Connection)>) {
    forall t :: t in table ==> table[t].1.portInfo.name == table[t].0
  }

  /** A new entry under a new name adds its address, which was not there before. */
  lemma LiveWith(table: map<nat, (string, Connection)>, token: nat, entry: (string, Connection))
    requires NamedByPort(table) && token !in table && entry.1.portInfo.name == entry.0
    requires forall t :: t in table ==> table[t].0 != entry.0
    ensures LiveOf(table[token := entry]) == LiveOf(table) + {Serial(entry.1.portInfo)}
    ensures Serial(entry.1.portInfo) !in LiveOf(table)
  {
    var more := table[token := entry];
    forall t | t in table ensures Serial(table[t].1.portInfo) in LiveOf(more) {
      assert t in more && more[t] == table[t];
    }
    assert token in more;
  }

  lemma NamesWith(table: map<nat, (string, Connection)>, token: nat, entry: (string, Connection))
    requires token !in table
    ensures SecKeysOf(table[token := entry]) == SecKeysOf(table) + {entry.0}
  {
    var more := table[token := entry];
    forall t | t in table ensures table[t].0 in SecKeysOf(more) {
      assert t in more && more[t] == table[t];
    }
    assert token in more;
  }

  /** What an expiry reports, as facts about the table before and after. */
  lemma {:induction false} ExpiryReport(was: map<nat, (string, Connection)>, table: map<nat, (string, Connection)>,
                                        dropped: seq<Entry>, f: RobotIdFilter)
    requires NamedByPort(was) && Injective(was)
    requires forall t :: t in table ==> t in was && table[t] == was[t]
    requires forall e :: e in dropped <==> e.0 in was && e.0 !in table && was[e.0] == (e.1, e.2)
    requires forall i, j :: 0 <= i < j < |dropped| ==> dropped[i].0 != dropped[j].0
    ensures var events := Disconnects(Addresses(dropped));
            && ReportsOnce(events, LiveOf(was) - LiveOf(table))
            && (forall e <- events :: OnSerial(e))
            && Disciplined(LiveOf(was), events, f) && LiveOf(table) == LiveAfterAll(LiveOf(was), events)
  {
    DroppedAddresses(was, table, dropped);
    DisconnectsReport(LiveOf(was), Addresses(dropped), f);
    assert LiveOf(was) - LiveOf(table) == Members(Addresses(dropped));
  }

  function Addresses(dropped: seq<Entry>): seq<Address> {
    seq(|dropped|, i requires 0 <= i < |dropped| => AddrOf(dropped[i]))
  }

  /** The entries removed by an expiry: their addresses are distinct, and are what the live set loses. */
  lemma DroppedAddresses(was: map<nat, (string, Connection)>, table: map<nat, (string, Connection)>,
                         dropped: seq<Entry>)
    requires NamedByPort(was) && Injective(was)
    requires forall t :: t in table ==> t in was && table[t] == was[t]
    requires forall e :: e in dropped <==> e.0 in was && e.0 !in table && was[e.0] == (e.1, e.2)
    requires forall i, j :: 0 <= i < j < |dropped| ==> dropped[i].0 != dropped[j].0
    ensures Distinct(Addresses(dropped))
    ensures Members(Addresses(dropped)) <= LiveOf(was)
    ensures LiveOf(table) == LiveOf(was) - Members(Addresses(dropped))
  {
    var gone := Addresses(dropped);
    forall i, j | 0 <= i < j < |gone| ensures gone[i] != gone[j] {
      assert dropped[i] in dropped && dropped[j] in dropped;
      assert was[dropped[i].0].0 != was[dropped[j].0].0;
    }
    forall i | 0 <= i < |gone| ensures gone[i] in LiveOf(was) && gone[i] !in LiveOf(table) {
      assert dropped[i] in dropped;
      forall t | t in table ensures Serial(table[t].1.portInfo) != gone[i] {
        assert was[t].0 != was[dropped[i].0].0;
      }
    }
    forall t | t in was && t !in table ensures Serial(was[t].1.portInfo) in gone {
      var e := (t, was[t].0, was[t].1);
      assert e in dropped;
      var i :| 0 <= i < |dropped| && dropped[i] == e;
      assert gone[i] == Serial(was[t].1.portInfo);
    }
  }

  /** One Disconnected event per removed entry, in the order visited. */
  method ReportDropped(dropped: seq<Entry>) returns (events: seq<Event>)
    ensures events == Disconnects(Addresses(dropped))
  {
    events := [];
    for i := 0 to |dropped|
      invariant events == Disconnects(Addresses(dropped[..i]))
    {
      DisconnectsExtend(Addresses(dropped[..i]), AddrOf(dropped[i]));
      assert Addresses(dropped[..i + 1]) == Addresses(dropped[..i]) + [AddrOf(dropped[i])];
      events := events + [Disconnected(AddrOf(dropped[i]))];
    }
    assert dropped[..|dropped|] == dropped;
  }

  // ---- What a discovery does ----

  predicate IsNew(p: (PortInfo, Probe), known: set<string>) {
    p.0.name !in known
  }

  /** The new ports that could be opened, greeted and registered, in order. */
  function Greeted(available: seq<(PortInfo, Probe)>, known: set<string>): seq<PortInfo> {
    if |available| == 0 then []
    else
      var last := available[|available| - 1];
      Greeted(available[..|available| - 1], known) + if IsNew(last, known) && last.1.Ready? then [last.0] else []
  }

  /** The new ports that could be opened, in order. */
  function Opened(available: seq<(PortInfo, Probe)>, known: set<string>): seq<(PortInfo, Probe)> {
    if |available| == 0 then []
    else
      var last := available[|available| - 1];
      Opened(available[..|available| - 1], known) + if IsNew(last, known) && !last.1.OpenFailed? then [last] else []
  }

  /** How many new ports failed on the way. */
  function Failures(available: seq<(PortInfo, Probe)>, known: set<string>): nat {
    if |available| == 0 then 0
    else
      var last := available[|available| - 1];
      Failures(available[..|available| - 1], known) + if IsNew(last, known) && !last.1.Ready? then 1 else 0
  }

  lemma {:induction false} PortAppended(available: seq<(PortInfo, Probe)>, p: (PortInfo, Probe), known: set<string>)
    ensures Greeted(available + [p], known) ==
            Greeted(available, known) + if IsNew(p, known) && p.1.Ready? then [p.0] else []
    ensures Failures(available + [p], known) ==
            Failures(available, known) + if IsNew(p, known) && !p.1.Ready? then 1 else 0
    ensures Opened(available + [p], known) ==
            Opened(available, known) + if IsNew(p, known) && !p.1.OpenFailed? then [p] else []
  {
    assert (available + [p])[..|available|] == available;
  }

  lemma {:induction false} OpenedMembers(available: seq<(PortInfo, Probe)>, known: set<string>)
    ensures forall p <- Opened(available, known) :: p in available && IsNew(p, known) && !p.1.OpenFailed?
  {
    if |available| == 0 {
    } else {
      OpenedMembers(available[..|available| - 1], known);
    }
  }

  lemma {:induction false} OpenedDistinct(available: seq<(PortInfo, Probe)>, known: set<string>)
    requires DistinctNames(available)
    ensures DistinctNames(Opened(available, known))
  {
    if |available| == 0 {
    } else {
      var n := |available| - 1;
      OpenedDistinct(available[..n], known);
      OpenedMembers(available[..n], known);
      forall p | p in Opened(available[..n], known) ensures p.0.name != available[n].0.name {
        var i :| 0 <= i < n && available[..n][i] == p;
      }
    }
  }

  lemma {:induction false} OpenedGreeted(available: seq<(PortInfo, Probe)>, known: set<string>)
    ensures Greeted(Opened(available, known), known) == Greeted(available, known)
  {
    if |available| == 0 {
    } else {
      var n := |available| - 1;
      OpenedGreeted(available[..n], known);
      PortAppended(Opened(available[..n], known), available[n], known);
      assert Opened(available[..n], known) + [] == Opened(available[..n], known);
    }
  }

  /** The i-th port, if it is new and could be opened, greeted and registered. */
  function IfGreeted(p: (PortInfo, Probe), known: set<string>): Option<PortInfo> {
    if p.0.name !in known && p.1 == Ready then Some(p.0) else None
  }

  function GreetedOf(available: seq<(PortInfo, Probe)>, known: set<string>): seq<Option<PortInfo>> {
    seq(|available|, i requires 0 <= i < |available| => IfGreeted(available[i], known))
  }

  /** The positions of the new ports that failed on the way. */
  function FailedOf(available: seq<(PortInfo, Probe)>, known: set<string>): set<nat> {
    set i: nat | i < |available| && available[i].0.name !in known && available[i].1 != Ready
  }

  lemma {:induction false} GreetedAre(available: seq<(PortInfo, Probe)>, known: set<string>)
    ensures Greeted(available, known) == Somes(GreetedOf(available, known))
    decreases |available|
  {
    if |available| == 0 {
    } else {
      var n := |available| - 1;
      GreetedAre(available[..n], known);
      assert GreetedOf(available, known) == GreetedOf(available[..n], known) + [IfGreeted(available[n], known)];
      SomesSnoc(GreetedOf(available[..n], known), IfGreeted(available[n], known));
    }
  }

  lemma {:induction false} FailedSnoc(available: seq<(PortInfo, Probe)>, p: (PortInfo, Probe), known: set<string>)
    ensures |available| !in FailedOf(available, known)
    ensures FailedOf(available + [p], known) ==
            FailedOf(available, known) + if IsNew(p, known) && !p.1.Ready? then {|available|} else {}
  {
    var more := available + [p];
    forall i | i in FailedOf(more, known)
      ensures i in FailedOf(available, known) || (i == |available| && IsNew(p, known) && !p.1.Ready?)
    {
      assert i < |available| ==> more[i] == available[i];
    }
    forall i | i in FailedOf(available, known) ensures i in FailedOf(more, known) {
      assert more[i] == available[i];
    }
  }

  lemma {:induction false} FailuresAre(available: seq<(PortInfo, Probe)>, known: set<string>)
    ensures Failures(available, known) == |FailedOf(available, known)|
    decreases |available|
  {
    if |available| == 0 {
      assert FailedOf(available, known) == {};
    } else {
      var n := |available| - 1;
      FailuresAre(available[..n], known);
      FailedSnoc(available[..n], available[n], known);
      PortAppended(available[..n], available[n], known);
      assert available == available[..n] + [available[n]];
    }
  }

  function PortsOf(ports: seq<DiscoveryPort>): seq<PortInfo> {
    seq(|ports|, i requires 0 <= i < |ports| => ports[i].1)
  }

  /** The ports that could be greeted and registered, under consecutive tokens, and the next free token. A token is
      used up before a registration that fails. */
  function Numbered(openPorts: seq<(PortInfo, Probe)>, nextToken: nat): (seq<DiscoveryPort>, nat) {
    if |openPorts| == 0 then ([], nextToken)
    else
      var (ports, token) := Numbered(openPorts[..|openPorts| - 1], nextToken);
      var (info, probe) := openPorts[|openPorts| - 1];
      (if probe.Ready? then ports + [(token, info)] else ports,
       if probe.Ready? || probe.RegisterFailed? then token + 1 else token)
  }

  lemma {:induction false} NumberedAppended(openPorts: seq<(PortInfo, Probe)>, p: (PortInfo, Probe), nextToken: nat)
    ensures var (ports, token) := Numbered(openPorts, nextToken);
            Numbered(openPorts + [p], nextToken) ==
            (if p.1.Ready? then ports + [(token, p.0)] else ports,
             if p.1.Ready? || p.1.RegisterFailed? then token + 1 else token)
  {
    assert (openPorts + [p])[..|openPorts|] == openPorts;
  }

  lemma {:induction false} NumberedTokens(openPorts: seq<(PortInfo, Probe)>, nextToken: nat)
    ensures var (ports, token) := Numbered(openPorts, nextToken);
            nextToken <= token && forall p <- ports :: nextToken <= p.0 < token
  {
    if |openPorts| == 0 {
    } else {
      NumberedTokens(openPorts[..|openPorts| - 1], nextToken);
    }
  }

  lemma {:induction false} NumberedMembers(openPorts: seq<(PortInfo, Probe)>, nextToken: nat)
    ensures forall p <- Numbered(openPorts, nextToken).0 :: exists q <- openPorts :: q.0 == p.1
  {
    if |openPorts| == 0 {
    } else {
      var n := |openPorts| - 1;
      var before := Numbered(openPorts[..n], nextToken).0;
      NumberedMembers(openPorts[..n], nextToken);
      forall p | p in Numbered(openPorts, nextToken).0 ensures exists q <- openPorts :: q.0 == p.1 {
        if p in before {
          var q :| q in openPorts[..n] && q.0 == p.1;
          assert q in openPorts;
        } else {
          assert openPorts[n] in openPorts && openPorts[n].0 == p.1;
        }
      }
    }
  }

  lemma {:induction false} NumberedDistinct(openPorts: seq<(PortInfo, Probe)>, nextToken: nat)
    requires DistinctNames(openPorts)
    ensures DistinctPorts(Numbered(openPorts, nextToken).0)
  {
    if |openPorts| == 0 {
    } else {
      var n := |openPorts| - 1;
      var (before, token) := Numbered(openPorts[..n], nextToken);
      NumberedDistinct(openPorts[..n], nextToken);
      NumberedTokens(openPorts[..n], nextToken);
      NumberedMembers(openPorts[..n], nextToken);
      forall p | p in before ensures p.0 != token && p.1.name != openPorts[n].0.name {
        var q :| q in openPorts[..n] && q.0 == p.1;
        var i :| 0 <= i < n && openPorts[..n][i] == q;
      }
      DistinctAppended(before, (token, openPorts[n].0));
    }
  }

  lemma {:induction false} DistinctAppended(ports: seq<DiscoveryPort>, p: DiscoveryPort)
    requires DistinctPorts(ports) && forall q <- ports :: q.0 != p.0 && q.1.name != p.1.name
    ensures DistinctPorts(ports + [p])
  {
    var more := ports + [p];
    forall i, j | 0 <= i < j < |more| ensures more[i].0 != more[j].0 && more[i].1.name != more[j].1.name {
      assert more[i] in ports;
    }
  }

  lemma {:induction false} NumberedGreeted(openPorts: seq<(PortInfo, Probe)>, nextToken: nat, known: set<string>)
    requires forall p <- openPorts :: IsNew(p, known)
    ensures PortsOf(Numbered(openPorts, nextToken).0) == Greeted(openPorts, known)
  {
    if |openPorts| == 0 {
    } else {
      var n := |openPorts| - 1;
      assert openPorts[n] in openPorts;
      NumberedGreeted(openPorts[..n], nextToken, known);
      var (before, token) := Numbered(openPorts[..n], nextToken);
      assert PortsOf(before + [(token, openPorts[n].0)]) == PortsOf(before) + [openPorts[n].0];
    }
  }

  /** The connection and the event that one probed port's answer leads to. */
  function Answered(table: map<nat, (string, Connection)>, p: DiscoveryPort, answer: Answer, f: RobotIdFilter,
                    timeout: nat)
    : (map<nat, (string, Connection)>, seq<Event>)
  {
    match answer
    case ReadFailed => (table, [Error])
    case NotText => (table, [])
    case Parsed(id, at, deregisterFails) =>
      if id.Some? && Accepts(f, id.value) then
        (table[p.0 := (p.1.name, Connection(p.1, at + timeout))], [Connected(Serial(p.1), id.value)])
      else (table, if deregisterFails then [Error] else [])
  }

  function AllAnswered(table: map<nat, (string, Connection)>, ports: seq<DiscoveryPort>, answer: nat -> Answer,
                       f: RobotIdFilter, timeout: nat)
    : (map<nat, (string, Connection)>, seq<Event>)
  {
    if |ports| == 0 then (table, [])
    else
      var n := |ports| - 1;
      var (before, events) := AllAnswered(table, ports[..n], answer, f, timeout);
      var (after, more) := Answered(before, ports[n], answer(ports[n].0), f, timeout);
      (after, events + more)
  }

  lemma {:induction false} AnsweredStep(table: map<nat, (string, Connection)>, ports: seq<DiscoveryPort>, i: nat,
                                        answer: nat -> Answer, f: RobotIdFilter, timeout: nat)
    requires i < |ports|
    ensures var (before, events) := AllAnswered(table, ports[..i], answer, f, timeout);
            var (after, more) := Answered(before, ports[i], answer(ports[i].0), f, timeout);
            AllAnswered(table, ports[..i + 1], answer, f, timeout) == (after, events + more)
  {
    assert ports[..i + 1][..i] == ports[..i];
  }

  /** The answer names a robot id that the filter accepts. */
  predicate IsAccepted(answer: Answer, f: RobotIdFilter) {
    answer.Parsed? && answer.id.Some? && Accepts(f, answer.id.value)
  }

  function AnswerReport(p: DiscoveryPort, answer: Answer, f: RobotIdFilter): Option<Event> {
    if IsAccepted(answer, f) then Some(Connected(Serial(p.1), answer.id.value))
    else if answer.ReadFailed? || (answer.Parsed? && answer.deregisterFails) then Some(Error)
    else None
  }

  function AnswerReports(ports: seq<DiscoveryPort>, answer: nat -> Answer, f: RobotIdFilter): seq<Option<Event>> {
    seq(|ports|, i requires 0 <= i < |ports| => AnswerReport(ports[i], answer(ports[i].0), f))
  }

  /** Every port with an accepted answer is announced. */
  ghost predicate ReportsAccepted(ports: seq<DiscoveryPort>, answer: nat -> Answer, f: RobotIdFilter,
                                  events: seq<Event>) {
    forall p <- ports :: IsAccepted(answer(p.0), f) ==> Connected(Serial(p.1), answer(p.0).id.value) in events
  }

  lemma {:induction false} AcceptedReported(ports: seq<DiscoveryPort>, answer: nat -> Answer, f: RobotIdFilter)
    ensures ReportsAccepted(ports, answer, f, Somes(AnswerReports(ports, answer, f)))
  {
    forall p | p in ports && IsAccepted(answer(p.0), f)
      ensures Connected(Serial(p.1), answer(p.0).id.value) in Somes(AnswerReports(ports, answer, f))
    {
      var i :| 0 <= i < |ports| && ports[i] == p;
      SomesHas(AnswerReports(ports, answer, f), i);
    }
  }

  function AnswerSighting(p: DiscoveryPort, answer: Answer, f: RobotIdFilter): Sighting<nat> {
    if IsAccepted(answer, f) then Announced(p.0, answer.at) else Nothing
  }

  function AnswerSightings(ports: seq<DiscoveryPort>, answer: nat -> Answer, f: RobotIdFilter): seq<Sighting<nat>> {
    seq(|ports|, i requires 0 <= i < |ports| => AnswerSighting(ports[i], answer(ports[i].0), f))
  }

  /** Only ports with accepted answers enter the table. */
  ghost predicate OnlyAccepted(was: map<nat, (string, Connection)>, now: map<nat, (string, Connection)>,
                               ports: seq<DiscoveryPort>, answer: nat -> Answer, f: RobotIdFilter) {
    forall t :: t in now && t !in was ==> exists p <- ports :: p.0 == t && IsAccepted(answer(t), f)
  }

  /** All of them do, each with a deadline that follows its answer. */
  ghost predicate AllAccepted(now: map<nat, (string, Connection)>, ports: seq<DiscoveryPort>, answer: nat -> Answer,
                              f: RobotIdFilter, timeout: nat) {
    forall p <- ports :: IsAccepted(answer(p.0), f) ==>
      p.0 in now && now[p.0] == (p.1.name, Connection(p.1, answer(p.0).at + timeout))
  }

  /** Every port with an accepted answer gets its connection; nothing else is entered or changed. */
  ghost predicate EntersAccepted(was: map<nat, (string, Connection)>, now: map<nat, (string, Connection)>,
                                 ports: seq<DiscoveryPort>, answer: nat -> Answer, f: RobotIdFilter, timeout: nat) {
    && (forall t :: t in was ==> t in now && now[t] == was[t])
    && OnlyAccepted(was, now, ports, answer, f)
    && AllAccepted(now, ports, answer, f, timeout)
  }

  /** Ports under distinct tokens that are not in use. */
  predicate FreshTokens(table: map<nat, (string, Connection)>, ports: seq<DiscoveryPort>) {
    && (forall i, j :: 0 <= i < j < |ports| ==> ports[i].0 != ports[j].0)
    && (forall p <- ports :: p.0 !in table)
  }

  lemma {:induction false} OnlyOneMore(was: map<nat, (string, Connection)>, before: map<nat, (string, Connection)>,
                                       ports: seq<DiscoveryPort>, p: DiscoveryPort, answer: nat -> Answer,
                                       f: RobotIdFilter, timeout: nat)
    requires OnlyAccepted(was, before, ports, answer, f)
    ensures OnlyAccepted(was, Answered(before, p, answer(p.0), f, timeout).0, ports + [p], answer, f)
  {
    var after, more := Answered(before, p, answer(p.0), f, timeout).0, ports + [p];
    assert more[|ports|] == p;
    forall t | t in after && t !in was ensures exists q <- more :: q.0 == t && IsAccepted(answer(t), f) {
      if t in before {
        var q :| q in ports && q.0 == t && IsAccepted(answer(t), f);
        assert q in more;
      } else {
        assert p in more && t == p.0;
      }
    }
  }

  lemma {:induction false} AllAndOneMore(before: map<nat, (string, Connection)>, ports: seq<DiscoveryPort>,
                                         p: DiscoveryPort, answer: nat -> Answer, f: RobotIdFilter, timeout: nat)
    requires AllAccepted(before, ports, answer, f, timeout) && forall q <- ports :: q.0 != p.0
    ensures AllAccepted(Answered(before, p, answer(p.0), f, timeout).0, ports + [p], answer, f, timeout)
  {
    forall q | q in ports + [p] ensures q in ports || q == p {}
  }

  lemma {:induction false} AnsweredEnters(was: map<nat, (string, Connection)>, before: map<nat, (string, Connection)>,
                                          ports: seq<DiscoveryPort>, p: DiscoveryPort, answer: nat -> Answer,
                                          f: RobotIdFilter, timeout: nat)
    requires EntersAccepted(was, before, ports, answer, f, timeout)
    requires p.0 !in was && forall q <- ports :: q.0 != p.0
    ensures p.0 !in before
    ensures EntersAccepted(was, Answered(before, p, answer(p.0), f, timeout).0, ports + [p], answer, f, timeout)
  {
    OnlyOneMore(was, before, ports, p, answer, f, timeout);
    AllAndOneMore(before, ports, p, answer, f, timeout);
  }

  lemma AnsweredSees(table: map<nat, (string, Connection)>, p: DiscoveryPort, answer: Answer, f: RobotIdFilter,
                     timeout: nat)
    requires p.0 !in table
    ensures TimeoutsOf(Answered(table, p, answer, f, timeout).0) ==
            See(TimeoutsOf(table), AnswerSighting(p, answer, f), timeout)
    ensures var report := AnswerReport(p, answer, f);
            Answered(table, p, answer, f, timeout).1 == if report.Some? then [report.value] else []
  {
  }

  /** The fold over the answers, port by port: table, deadlines and events as described above. */
  lemma {:induction false} AllAnsweredIs(table: map<nat, (string, Connection)>, ports: seq<DiscoveryPort>,
                                         answer: nat -> Answer, f: RobotIdFilter, timeout: nat)
    requires FreshTokens(table, ports)
    ensures var (after, events) := AllAnswered(table, ports, answer, f, timeout);
            && EntersAccepted(table, after, ports, answer, f, timeout)
            && TimeoutsOf(after) == SeeAll(TimeoutsOf(table), AnswerSightings(ports, answer, f), timeout)
            && events == Somes(AnswerReports(ports, answer, f))
    decreases |ports|
  {
    if |ports| == 0 {
    } else {
      var n := |ports| - 1;
      var first, p := ports[..n], ports[n];
      assert ports == first + [p] && p in ports;
      AllAnsweredIs(table, first, answer, f, timeout);
      var before := AllAnswered(table, first, answer, f, timeout).0;
      AnsweredEnters(table, before, first, p, answer, f, timeout);
      AnsweredSees(before, p, answer(p.0), f, timeout);
      AnswersSnoc(first, p, answer, f);
      SeeAllSnoc(TimeoutsOf(table), AnswerSightings(first, answer, f), AnswerSighting(p, answer(p.0), f), timeout);
      SomesSnoc(AnswerReports(first, answer, f), AnswerReport(p, answer(p.0), f));
    }
  }

  lemma AnswersSnoc(ports: seq<DiscoveryPort>, p: DiscoveryPort, answer: nat -> Answer, f: RobotIdFilter)
    ensures AnswerReports(ports + [p], answer, f) == AnswerReports(ports, answer, f) + [AnswerReport(p, answer(p.0), f)]
    ensures AnswerSightings(ports + [p], answer, f) ==
            AnswerSightings(ports, answer, f) + [AnswerSighting(p, answer(p.0), f)]
  {
  }

  function PacketSightings(token: nat, packets: seq<(ResponsePacket, Instant)>): (r: seq<Sighting<nat>>)
    ensures |r| == |packets|
  {
    seq(|packets|, i requires 0 <= i < |packets| => Heard(token, packets[i].1))
  }

  /** Packets from one port move its deadline as any packets do. */
  lemma {:induction false} PacketsSeen(table: map<nat, (string, Connection)>, token: nat,
                                       packets: seq<(ResponsePacket, Instant)>, timeout: nat)
    ensures TimeoutsOf(AfterPackets(table, token, packets, timeout)) ==
            SeeAll(TimeoutsOf(table), PacketSightings(token, packets), timeout)
    decreases |packets|
  {
    if |packets| == 0 {
    } else {
      var n := |packets| - 1;
      PacketsSeen(table, token, packets[..n], timeout);
      assert PacketSightings(token, packets) ==
             PacketSightings(token, packets[..n]) + [Heard(token, packets[n].1)];
      SeeAllSnoc(TimeoutsOf(table), PacketSightings(token, packets[..n]), Heard(token, packets[n].1), timeout);
      assert TimeoutsOf(AfterPackets(table, token, packets, timeout)) ==
             See(TimeoutsOf(AfterPackets(table, token, packets[..n], timeout)), Heard(token, packets[n].1), timeout);
    }
  }

  lemma UnexpiredSeen(table: map<nat, (string, Connection)>, now: Instant, timeout: nat)
    ensures TimeoutsOf(Unexpired(table, now)) == See(TimeoutsOf(table), Expiry(now), timeout)
  {
  }

  /** The table after packets from one port: its deadline follows the last of them. */
  function AfterPackets(table: map<nat, (string, Connection)>, token: nat, packets: seq<(ResponsePacket, Instant)>,
                 timeout: nat)
    : map<nat, (string, Connection)>
  {
    if token in table && |packets| > 0 then
      var (name, c) := table[token];
      table[token := (name, c.(timeout := packets[|packets| - 1].1 + timeout))]
    else table
  }

  /** Packets touch no key, no name and no address. */
  lemma {:induction false} PacketsKeep(table: map<nat, (string, Connection)>, token: nat,
                                      packets: seq<(ResponsePacket, Instant)>, timeout: nat)
    requires NamedByPort(table)
    ensures var after := AfterPackets(table, token, packets, timeout);
            after.Keys == table.Keys && NamedByPort(after) && LiveOf(after) == LiveOf(table)
  {
    var after := AfterPackets(table, token, packets, timeout);
    forall t | t in table
      ensures t in after && after[t].0 == table[t].0 && after[t].1.portInfo == table[t].1.portInfo {}
  }

  /** A cache that moves down with the deadline stays a lower bound. */
  lemma {:induction false} PacketsBound(cache: Option<Instant>, table: map<nat, (string, Connection)>, token: nat,
                                      packets: seq<(ResponsePacket, Instant)>, timeout: nat)
    requires IsLowerBound(cache, table) && token in table
    ensures var after := AfterPackets(table, token, packets, timeout);
            var t := after[token].1.timeout;
            IsLowerBound(if cache.Some? && t < cache.value then Some(t) else cache, after)
  {
    assert cache.Some? && cache.value <= table[token].1.timeout;
  }

  /** One event per packet, in order, and one for a final read error. */
  function PortReports(addr: Address, packets: seq<(ResponsePacket, Instant)>, readError: bool): seq<Event> {
    seq(|packets|, i requires 0 <= i < |packets| => PacketReceived(addr, packets[i].0))
    + if readError then [Error] else []
  }

  /** What a poll event makes the transceiver report; it ignores tokens that are not its own. */
  function ReportsOf(table: map<nat, (string, Connection)>, token: nat, packets: seq<(ResponsePacket, Instant)>,
                     readError: bool)
    : seq<Event>
  {
    if token in table then PortReports(Serial(table[token].1.portInfo), packets, readError) else []
  }

  class SerialTransceiver {
    const connections: DualHashMap<nat, string, Connection>
    var activeDiscoveryPorts: Option<seq<DiscoveryPort>>
    var nextDiscoveryTime: Instant
    var nextConnTimeout: Option<Instant>
    var idFilter: RobotIdFilter
    const probePeriod: nat
    const connectionTimeout: nat

    ghost predicate TableOk()
      reads this, connections
    {
      && connections.Valid()
      && NamedByPort(connections.primToVal)
      && IsLowerBound(nextConnTimeout, connections.primToVal)
    }

    /** The ports are new to the connection table: neither their tokens nor their names occur in it. */
    ghost predicate NewPorts(ports: seq<DiscoveryPort>)
      reads this, connections
    {
      && DistinctPorts(ports)
      && forall p <- ports :: p.0 !in connections.primToVal && p.1.name !in connections.secToPrim
    }

    ghost predicate Valid()
      reads this, connections
    {
      TableOk() && (activeDiscoveryPorts.Some? ==> NewPorts(activeDiscoveryPorts.value))
    }

    /** All tokens in use were handed out before `next`. */
    ghost predicate TokensBelow(next: nat)
      reads this, connections
    {
      && (forall t :: t in connections.primToVal ==> t < next)
      && (activeDiscoveryPorts.Some? ==> forall p <- activeDiscoveryPorts.value :: p.0 < next)
    }

    ghost function Live(): set<Address>
      reads this, connections
    {
      LiveOf(connections.primToVal)
    }

    constructor (probePeriod: nat, connectionTimeout: nat, now: Instant)
      ensures Valid() && fresh(connections) && Live() == {} && idFilter == NO_FILTER && TokensBelow(0)
    {
      connections := new DualHashMap();
      this.probePeriod, this.connectionTimeout := probePeriod, connectionTimeout;
      activeDiscoveryPorts, nextDiscoveryTime, nextConnTimeout, idFilter := None, now, None, NO_FILTER;
    }

    method SetIdFilter(f: RobotIdFilter)
      modifies this`idFilter
      ensures idFilter == f
    {
      idFilter := f;
    }

    /** The next moment the driver must call MioTimeout. */
    function NextTimeout(): (t: Instant)
      reads this
      ensures t <= nextDiscoveryTime
      ensures nextConnTimeout.Some? ==> t <= nextConnTimeout.value
      ensures t == nextDiscoveryTime || nextConnTimeout == Some(t)
    {
      if nextConnTimeout.Some? && nextConnTimeout.value < nextDiscoveryTime then nextConnTimeout.value
      else nextDiscoveryTime
    }

    /** The table when the discovery part of MioTimeout is through. */
    ghost function Discovered(now: Instant, answer: nat -> Answer): map<nat, (string, Connection)>
      reads this, connections
    {
      if nextDiscoveryTime < now && activeDiscoveryPorts.Some? then
        AllAnswered(connections.primToVal, activeDiscoveryPorts.value, answer, idFilter, connectionTimeout).0
      else connections.primToVal
    }

    /** What MioTimeout sees: the accepted answers of a discovery that ends, and then the expiry. */
    ghost function TurnSightings(now: Instant, answer: nat -> Answer): seq<Sighting<nat>>
      reads this
    {
      (if nextDiscoveryTime < now && activeDiscoveryPorts.Some? then
         AnswerSightings(activeDiscoveryPorts.value, answer, idFilter)
       else []) + [Expiry(now)]
    }

    lemma TurnSeen(now: Instant, answer: nat -> Answer)
      requires Valid()
      ensures TimeoutsOf(Unexpired(Discovered(now, answer), now)) ==
              SeeAll(TimeoutsOf(connections.primToVal), TurnSightings(now, answer), connectionTimeout)
    {
      var ss := TurnSightings(now, answer);
      UnexpiredSeen(Discovered(now, answer), now, connectionTimeout);
      SeeAllSnoc(TimeoutsOf(connections.primToVal), ss[..|ss| - 1], Expiry(now), connectionTimeout);
      if nextDiscoveryTime < now && activeDiscoveryPorts.Some? {
        AllAnsweredIs(connections.primToVal, activeDiscoveryPorts.value, answer, idFilter, connectionTimeout);
        assert ss[..|ss| - 1] == AnswerSightings(activeDiscoveryPorts.value, answer, idFilter);
      } else {
        assert ss[..|ss| - 1] == [];
      }
    }

    /** Discovery and expiry. Afterwards no deadline lies before `now`. `available` lists the candidate ports,
        under distinct names, with the outcome of probing each; `answer` gives what each probed token replied. */
    method MioTimeout(now: Instant, nextToken: nat, available: seq<(PortInfo, Probe)>, answer: nat -> Answer)
      returns (events: seq<Event>, nextToken': nat)
      requires Valid() && TokensBelow(nextToken)
      requires DistinctNames(available)
      modifies this, connections
      ensures Valid() && TokensBelow(nextToken') && idFilter == old(idFilter)
      ensures forall t :: t in connections.primToVal ==> connections.primToVal[t].1.timeout >= now
      ensures connections.primToVal == Unexpired(old(Discovered(now, answer)), now)
      ensures TimeoutsOf(connections.primToVal) ==
              SeeAll(TimeoutsOf(old(connections.primToVal)), old(TurnSightings(now, answer)), connectionTimeout)
      ensures DisconnectsOnce(events, LiveOf(old(Discovered(now, answer))) - Live())
      ensures old(nextDiscoveryTime) < now && old(activeDiscoveryPorts).Some? ==>
                Somes(AnswerReports(old(activeDiscoveryPorts).value, answer, idFilter)) <= events
      ensures activeDiscoveryPorts.Some? <==> (old(activeDiscoveryPorts).Some? != (old(nextDiscoveryTime) < now))
      ensures nextDiscoveryTime == old(nextDiscoveryTime) +
              if old(nextDiscoveryTime) >= now then 0
              else if old(activeDiscoveryPorts).Some? then Saturating(probePeriod, 500) else 500
      ensures forall e <- events :: OnSerial(e)
      ensures Disciplined(old(Live()), events, idFilter) && Live() == LiveAfterAll(old(Live()), events)
    {
      TurnSeen(now, answer);
      events, nextToken' := DiscoveryTurn(now, nextToken, available, answer);
      if nextConnTimeout.Some? && nextConnTimeout.value < now {
        ghost var live := Live();
        var expired := Expire(now);
        DisciplineConcat(old(Live()), events, expired, idFilter);
        DisconnectsAfterOthers(events, expired, live - Live());
        events := events + expired;
      } else {
        assert connections.primToVal == Unexpired(connections.primToVal, now);
      }
    }

    /** The discovery part of MioTimeout. */
    method DiscoveryTurn(now: Instant, nextToken: nat, available: seq<(PortInfo, Probe)>, answer: nat -> Answer)
      returns (events: seq<Event>, nextToken': nat)
      requires Valid() && TokensBelow(nextToken) && DistinctNames(available)
      modifies this, connections
      ensures Valid() && TokensBelow(nextToken') && idFilter == old(idFilter)
      ensures connections.primToVal == old(Discovered(now, answer))
      ensures old(nextDiscoveryTime) < now && old(activeDiscoveryPorts).Some? ==>
                events == Somes(AnswerReports(old(activeDiscoveryPorts).value, answer, idFilter))
      ensures activeDiscoveryPorts.Some? <==> (old(activeDiscoveryPorts).Some? != (old(nextDiscoveryTime) < now))
      ensures nextDiscoveryTime == old(nextDiscoveryTime) +
              if old(nextDiscoveryTime) >= now then 0
              else if old(activeDiscoveryPorts).Some? then Saturating(probePeriod, 500) else 500
      ensures forall e <- events :: OnSerial(e) && !e.Disconnected?
      ensures Disciplined(old(Live()), events, idFilter) && Live() == LiveAfterAll(old(Live()), events)
    {
      events, nextToken' := [], nextToken;
      if nextDiscoveryTime < now {
        if activeDiscoveryPorts.Some? {
          var ports := activeDiscoveryPorts.value;
          activeDiscoveryPorts := None;
          events := EndDiscovery(ports, answer, nextToken);
          nextDiscoveryTime := nextDiscoveryTime + Saturating(probePeriod, DISCOVERY_WAIT);
        } else {
          var ports;
          ports, events, nextToken' := StartDiscovery(available, nextToken);
          ErrorsAreDisciplined(Live(), events, idFilter);
          activeDiscoveryPorts := Some(ports);
          nextDiscoveryTime := nextDiscoveryTime + DISCOVERY_WAIT;
        }
      }
    }

    /** The retain loop of MioTimeout: removes exactly the connections whose deadline lies before `now` and reports
        each of them once. The cache becomes the minimum of what remains. */
    method Expire(now: Instant) returns (events: seq<Event>)
      requires Valid()
      modifies this`nextConnTimeout, connections
      ensures Valid()
      ensures connections.primToVal == Unexpired(old(connections.primToVal), now)
      ensures forall next: nat :: old(TokensBelow(next)) ==> TokensBelow(next)
      ensures ReportsOnce(events, old(Live()) - Live())
      ensures forall e <- events :: OnSerial(e)
      ensures Disciplined(old(Live()), events, idFilter) && Live() == LiveAfterAll(old(Live()), events)
    {
      ghost var was := connections.primToVal;
      connections.IsInjective();
      var dropped := DropExpired(now);
      events := ReportDropped(dropped);
      ExpiryReport(was, connections.primToVal, dropped, idFilter);
      nextConnTimeout := MinimumTimeout();
    }

    method DropExpired(now: Instant) returns (dropped: seq<Entry>)
      requires connections.Valid()
      modifies connections
      ensures connections.Valid() && connections.primToVal == Unexpired(old(connections.primToVal), now)
      ensures forall e :: e in dropped <==> e.0 in old(connections.primToVal) && e.0 !in connections.primToVal
                                            && old(connections.primToVal)[e.0] == (e.1, e.2)
      ensures forall i, j :: 0 <= i < j < |dropped| ==> dropped[i].0 != dropped[j].0
      ensures connections.secToPrim.Keys <= old(connections.secToPrim).Keys
    {
      dropped := connections.Retain((t, name, c: Connection) => (c.timeout >= now, c));
      assert connections.primToVal == Unexpired(old(connections.primToVal), now);
      forall name | name in connections.secToPrim ensures name in old(connections.secToPrim) {
        assert connections.primToVal[connections.secToPrim[name]].0 == name;
      }
    }

    method MinimumTimeout() returns (r: Option<Instant>)
      ensures IsMinimum(r, TimeoutsOf(connections.primToVal))
      ensures IsLowerBound(r, connections.primToVal)
    {
      r := Minimum(TimeoutsOf(connections.primToVal));
      MinimumBounds(r, connections.primToVal);
    }

    /** Probes the ports whose names are not connected yet, under fresh tokens. */
    method StartDiscovery(available: seq<(PortInfo, Probe)>, nextToken: nat)
      returns (ports: seq<DiscoveryPort>, events: seq<Event>, nextToken': nat)
      requires Valid() && TokensBelow(nextToken) && DistinctNames(available)
      ensures NewPorts(ports) && nextToken <= nextToken' && forall p <- ports :: nextToken <= p.0 < nextToken'
      ensures PortsOf(ports) == Somes(GreetedOf(available, connections.secToPrim.Keys))
      ensures OnlyErrors(events) && |events| == |FailedOf(available, connections.secToPrim.Keys)|
    {
      GreetedAre(available, connections.secToPrim.Keys);
      FailuresAre(available, connections.secToPrim.Keys);
      var openPorts, greetErrors;
      openPorts, events := OpenNewPorts(available);
      OpenedMembers(available, connections.secToPrim.Keys);
      OpenedDistinct(available, connections.secToPrim.Keys);
      OpenedGreeted(available, connections.secToPrim.Keys);
      ports, greetErrors, nextToken' := GreetPorts(openPorts, nextToken, connections.secToPrim.Keys);
      events := events + greetErrors;
    }

    method OpenNewPorts(available: seq<(PortInfo, Probe)>)
      returns (openPorts: seq<(PortInfo, Probe)>, events: seq<Event>)
      ensures openPorts == Opened(available, connections.secToPrim.Keys)
      ensures Failures(openPorts, connections.secToPrim.Keys) + |events| ==
              Failures(available, connections.secToPrim.Keys)
      ensures OnlyErrors(events)
    {
      openPorts, events := [], [];
      ghost var known := connections.secToPrim.Keys;
      for i := 0 to |available|
        invariant openPorts == Opened(available[..i], known)
        invariant Failures(openPorts, known) + |events| == Failures(available[..i], known)
        invariant OnlyErrors(events)
      {
        assert available[..i + 1] == available[..i] + [available[i]];
        PortAppended(available[..i], available[i], known);
        PortAppended(openPorts, available[i], known);
        var (portInfo, probe) := available[i];
        if portInfo.name !in connections.secToPrim {
          if probe.OpenFailed? {
            events := events + [Error];
          } else {
            openPorts := openPorts + [available[i]];
          }
        }
      }
      assert available[..|available|] == available;
    }

    static method GreetPorts(openPorts: seq<(PortInfo, Probe)>, nextToken: nat, ghost known: set<string>)
      returns (ports: seq<DiscoveryPort>, events: seq<Event>, nextToken': nat)
      requires DistinctNames(openPorts)
      requires forall p <- openPorts :: p.0.name !in known && !p.1.OpenFailed?
      ensures DistinctPorts(ports) && forall p <- ports :: p.1.name !in known
      ensures nextToken <= nextToken' && forall p <- ports :: nextToken <= p.0 < nextToken'
      ensures PortsOf(ports) == Greeted(openPorts, known)
      ensures OnlyErrors(events) && |events| == Failures(openPorts, known)
    {
      ports, events, nextToken' := [], [], nextToken;
      for i := 0 to |openPorts|
        invariant (ports, nextToken') == Numbered(openPorts[..i], nextToken)
        invariant OnlyErrors(events) && |events| == Failures(openPorts[..i], known)
      {
        assert openPorts[..i + 1] == openPorts[..i] + [openPorts[i]];
        PortAppended(openPorts[..i], openPorts[i], known);
        NumberedAppended(openPorts[..i], openPorts[i], nextToken);
        var (portInfo, probe) := openPorts[i];
        if probe.WriteFailed? {
          events := events + [Error];
        } else {
          var token := nextToken';
          nextToken' := nextToken' + 1;
          if probe.RegisterFailed? {
            events := events + [Error];
          } else {
            ports := ports + [(token, portInfo)];
          }
        }
      }
      assert openPorts[..|openPorts|] == openPorts;
      NumberedTokens(openPorts, nextToken);
      NumberedMembers(openPorts, nextToken);
      NumberedDistinct(openPorts, nextToken);
      NumberedGreeted(openPorts, nextToken, known);
    }

    /** Turns the answers of the probed ports into connections. */
    method EndDiscovery(ports: seq<DiscoveryPort>, answer: nat -> Answer, ghost nextToken: nat)
      returns (events: seq<Event>)
      requires TableOk() && NewPorts(ports) && activeDiscoveryPorts.None?
      requires TokensBelow(nextToken) && forall p <- ports :: p.0 < nextToken
      modifies this`nextConnTimeout, connections
      ensures TableOk() && TokensBelow(nextToken)
      ensures EntersAccepted(old(connections.primToVal), connections.primToVal, ports, answer, idFilter,
                             connectionTimeout)
      ensures ReportsAccepted(ports, answer, idFilter, events)
      ensures events == Somes(AnswerReports(ports, answer, idFilter))
      ensures connections.primToVal ==
              AllAnswered(old(connections.primToVal), ports, answer, idFilter, connectionTimeout).0
      ensures forall e <- events :: OnSerial(e) && !e.Disconnected?
      ensures Disciplined(old(Live()), events, idFilter) && Live() == LiveAfterAll(old(Live()), events)
    {
      events := [];
      ghost var was, live, f := connections.primToVal, Live(), idFilter;
      for i := 0 to |ports|
        invariant TableOk() && TokensBelow(nextToken)
        invariant NewPorts(ports[i..])
        invariant AllAnswered(was, ports[..i], answer, f, connectionTimeout) == (connections.primToVal, events)
        invariant forall e <- events :: OnSerial(e) && !e.Disconnected?
        invariant Disciplined(live, events, f) && Live() == LiveAfterAll(live, events)
      {
        AnsweredStep(was, ports, i, answer, f, connectionTimeout);
        var more := TakeAnswer(ports[i], answer(ports[i].0), ports[i..], nextToken);
        assert ports[i..][1..] == ports[i + 1..];
        DisciplineConcat(live, events, more, f);
        events := events + more;
      }
      assert ports[..|ports|] == ports;
      AcceptedReported(ports, answer, f);
      AllAnsweredIs(was, ports, answer, f, connectionTimeout);
    }

    /** Accepts or rejects one probed port. */
    method TakeAnswer(p: DiscoveryPort, answer: Answer, ghost ports: seq<DiscoveryPort>, ghost nextToken: nat)
      returns (events: seq<Event>)
      requires TableOk() && TokensBelow(nextToken) && activeDiscoveryPorts.None? && p.0 < nextToken
      requires |ports| > 0 && ports[0] == p && NewPorts(ports)
      modifies this`nextConnTimeout, connections
      ensures TableOk() && TokensBelow(nextToken)
      ensures (connections.primToVal, events) ==
              Answered(old(connections.primToVal), p, answer, idFilter, connectionTimeout)
      ensures NewPorts(ports[1..])
      ensures forall e <- events :: OnSerial(e) && !e.Disconnected?
      ensures Disciplined(old(Live()), events, idFilter) && Live() == LiveAfterAll(old(Live()), events)
    {
      events := [];
      assert forall q <- ports[1..] :: q.0 != p.0 && q.1.name != p.1.name;
      match answer
      case ReadFailed =>
        events := [Error];
        ErrorsAreDisciplined(Live(), events, idFilter);
      case NotText =>
      case Parsed(id, at, deregisterFails) =>
        if id.Some? && Accepts(idFilter, id.value) {
          events := Announce(p, id.value, at + connectionTimeout);
        } else if deregisterFails {
          events := [Error];
          ErrorsAreDisciplined(Live(), events, idFilter);
        }
    }

    /** Enters and announces the connection of an accepted port. */
    method Announce(p: DiscoveryPort, id: byte, timeout: Instant) returns (events: seq<Event>)
      requires TableOk() && p.0 !in connections.primToVal && p.1.name !in connections.secToPrim
      requires Accepts(idFilter, id)
      modifies this`nextConnTimeout, connections
      ensures TableOk()
      ensures connections.primToVal == old(connections.primToVal)[p.0 := (p.1.name, Connection(p.1, timeout))]
      ensures connections.secToPrim.Keys == old(connections.secToPrim).Keys + {p.1.name}
      ensures events == [Connected(Serial(p.1), id)]
      ensures Disciplined(old(Live()), events, idFilter) && Live() == LiveAfterAll(old(Live()), events)
    {
      ghost var live := Live();
      Connect(p.0, p.1, timeout);
      events := [Connected(Serial(p.1), id)];
      DisciplineExtend(live, [], Connected(Serial(p.1), id), idFilter);
      assert [] + events == events;
    }

    /** Enters a new connection; nothing is evicted. */
    method Connect(token: nat, portInfo: PortInfo, timeout: Instant)
      requires TableOk() && token !in connections.primToVal && portInfo.name !in connections.secToPrim
      modifies this`nextConnTimeout, connections
      ensures TableOk()
      ensures connections.primToVal ==
              old(connections.primToVal)[token := (portInfo.name, Connection(portInfo, timeout))]
      ensures connections.secToPrim.Keys == old(connections.secToPrim).Keys + {portInfo.name}
      ensures Serial(portInfo) !in old(Live()) && Live() == old(Live()) + {Serial(portInfo)}
    {
      ghost var was := connections.primToVal;
      connections.SecKeys();
      nextConnTimeout := Some(if nextConnTimeout.Some? && nextConnTimeout.value < timeout then nextConnTimeout.value
                              else timeout);
      connections.Insert(token, portInfo.name, Connection(portInfo, timeout));
      assert connections.primToVal == was[token := (portInfo.name, Connection(portInfo, timeout))];
      LiveWith(was, token, (portInfo.name, Connection(portInfo, timeout)));
      NamesWith(was, token, (portInfo.name, Connection(portInfo, timeout)));
      connections.SecKeys();
    }

    /** Packets read from a connected port, and possibly a final read error. The cache only ever moves down. */
    method MioEvent(token: nat, packets: seq<(ResponsePacket, Instant)>, readError: bool) returns (events: seq<Event>)
      requires Valid()
      modifies this`nextConnTimeout, connections
      ensures Valid() && connections.primToVal.Keys == old(connections.primToVal).Keys
      ensures connections.secToPrim == old(connections.secToPrim)
      ensures forall t :: t in connections.primToVal && (t != token || |packets| == 0) ==>
                connections.primToVal[t] == old(connections.primToVal)[t]
      ensures token in connections.primToVal && |packets| > 0 ==>
                var (name, c) := old(connections.primToVal)[token];
                connections.primToVal[token] ==
                (name, Connection(c.portInfo, packets[|packets| - 1].1 + connectionTimeout))
      ensures connections.primToVal == AfterPackets(old(connections.primToVal), token, packets, connectionTimeout)
      ensures token in connections.primToVal ==> |events| == |packets| + (if readError then 1 else 0)
      ensures token in connections.primToVal ==> forall i :: 0 <= i < |packets| ==>
                events[i] == PacketReceived(Serial(connections.primToVal[token].1.portInfo), packets[i].0)
      ensures events == ReportsOf(old(connections.primToVal), token, packets, readError)
      ensures forall e <- events :: OnSerial(e) && (e.Error? || e.PacketReceived?)
      ensures Disciplined(old(Live()), events, idFilter) && Live() == old(Live()) == LiveAfterAll(old(Live()), events)
    {
      events := [];
      if token in connections.primToVal {
        var addr := Serial(connections.primToVal[token].1.portInfo);
        assert addr in LiveOf(connections.primToVal);
        events := PortEvents(addr, packets, readError, Live(), idFilter);
        MoveDeadline(token, packets);
      }
    }

    /** Moves the deadline of a connection to its last packet, and the cache down with it. */
    method MoveDeadline(token: nat, packets: seq<(ResponsePacket, Instant)>)
      requires Valid() && token in connections.primToVal
      modifies this`nextConnTimeout, connections
      ensures Valid() && connections.primToVal.Keys == old(connections.primToVal).Keys
      ensures connections.secToPrim == old(connections.secToPrim)
      ensures connections.primToVal == AfterPackets(old(connections.primToVal), token, packets, connectionTimeout)
      ensures Live() == old(Live())
    {
      var conn := connections.primToVal[token].1;
      ghost var was := connections.primToVal;
      if |packets| > 0 {
        conn := conn.(timeout := packets[|packets| - 1].1 + connectionTimeout);
      }
      PacketsKeep(was, token, packets, connectionTimeout);
      PacketsBound(nextConnTimeout, was, token, packets, connectionTimeout);
      connections.SetValue(token, conn);
      if nextConnTimeout.Some? && conn.timeout < nextConnTimeout.value {
        nextConnTimeout := Some(conn.timeout);
      }
      assert connections.primToVal == AfterPackets(was, token, packets, connectionTimeout);
    }

    /** The receive loop of MioEvent. */
    static method PortEvents(addr: Address, packets: seq<(ResponsePacket, Instant)>, readError: bool,
                             ghost live: set<Address>, ghost f: RobotIdFilter)
      returns (events: seq<Event>)
      requires addr in live && addr.Serial?
      ensures events == PortReports(addr, packets, readError)
      ensures Disciplined(live, events, f) && LiveAfterAll(live, events) == live
    {
      events := [];
      for i := 0 to |packets|
        invariant events == seq(i, k requires 0 <= k < i => PacketReceived(addr, packets[k].0))
        invariant Disciplined(live, events, f) && LiveAfterAll(live, events) == live
      {
        DisciplineExtend(live, events, PacketReceived(addr, packets[i].0), f);
        events := events + [PacketReceived(addr, packets[i].0)];
      }
      if readError {
        DisciplineExtend(live, events, Error, f);
        events := events + [Error];
      }
    }
  }
}
