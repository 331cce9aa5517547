/** Addresses and events shared by the transceivers and the driver, and the announcement discipline: an address
    is announced only while it is not live, and removed or heard from only while it is. */
module Transceivers {
  import opened Options
  import opened Datagrams
  import opened RadioProtocol
  import opened IdFilter

  type RegularResponse = s: seq<byte> | |s| == PAYLOAD_SIZE witness seq(PAYLOAD_SIZE, _ => 0)

  type ResponsePacket = Packet<ResponseType, RegularResponse>

  datatype SocketAddr = V4(ip: nat, port: nat) | V6(ip: nat, port: nat, flowinfo: nat, scope: nat)

  datatype PortInfo = PortInfo(name: string, portType: nat)

  datatype Address = Serial(port: PortInfo) | Udp(addr: SocketAddr)

  datatype Event =
    | Connected(addr: Address, id: byte)
    | Disconnected(addr: Address)
    | PacketReceived(addr: Address, packet: ResponsePacket)
    | Error

  // ---- Deadlines ----

  /** The cache is the minimum of the table. */
  ghost predicate IsMinimum<A>(cache: Option<Instant>, table: map<A, Instant>) {
    match cache
    case None => table == map[]
    case Some(t) => (exists a :: a in table && table[a] == t) && (forall a :: a in table ==> t <= table[a])
  }

  method Minimum<A>(table: map<A, Instant>) returns (r: Option<Instant>)
    ensures IsMinimum(r, table)
  {
    r := None;
    var todo := table.Keys;
    while todo != {}
      invariant todo <= table.Keys
      invariant r.None? ==> todo == table.Keys
      invariant r.Some? ==> exists a :: a in table && table[a] == r.value
      invariant r.Some? ==> forall a :: a in table && a !in todo ==> r.value <= table[a]
      decreases |todo|
    {
      var a :| a in todo;
      if r.None? || table[a] < r.value {
        r := Some(table[a]);
      }
      todo := todo - {a};
    }
  }

  // ---- Events ----

  ghost predicate Allowed(live: set<Address>, e: Event, f: RobotIdFilter) {
    match e
    case Connected(a, id) => a !in live && Accepts(f, id)
    case Disconnected(a) => a in live
    case PacketReceived(a, _) => a in live
    case Error => true
  }

  function LiveAfter(live: set<Address>, e: Event): set<Address> {
    match e
    case Connected(a, _) => live + {a}
    case Disconnected(a) => live - {a}
    case _ => live
  }

  function LiveAfterAll(live: set<Address>, es: seq<Event>): set<Address> {
    if |es| == 0 then live else LiveAfter(LiveAfterAll(live, es[..|es| - 1]), es[|es| - 1])
  }

  ghost predicate Disciplined(live: set<Address>, es: seq<Event>, f: RobotIdFilter) {
    |es| == 0 || (var n := |es| - 1;
                  Disciplined(live, es[..n], f) && Allowed(LiveAfterAll(live, es[..n]), es[n], f))
  }

  lemma {:induction false} DisciplineExtend(live: set<Address>, es: seq<Event>, e: Event, f: RobotIdFilter)
    requires Disciplined(live, es, f) && Allowed(LiveAfterAll(live, es), e, f)
    ensures Disciplined(live, es + [e], f)
    ensures LiveAfterAll(live, es + [e]) == LiveAfter(LiveAfterAll(live, es), e)
  {
    assert (es + [e])[..|es|] == es;
  }

  lemma {:induction false} DisciplineConcat(live: set<Address>, a: seq<Event>, b: seq<Event>, f: RobotIdFilter)
    requires Disciplined(live, a, f) && Disciplined(LiveAfterAll(live, a), b, f)
    ensures Disciplined(live, a + b, f)
    ensures LiveAfterAll(live, a + b) == LiveAfterAll(LiveAfterAll(live, a), b)
    decreases |b|
  {
    if |b| == 0 {
      assert a + b == a;
    } else {
      var n := |b| - 1;
      DisciplineConcat(live, a, b[..n], f);
      DisciplineExtend(live, a + b[..n], b[n], f);
      assert a + b == (a + b[..n]) + [b[n]];
    }
  }

  predicate OnlyErrors(es: seq<Event>) {
    forall e <- es :: e.Error?
  }

  lemma {:induction false} ErrorsAreDisciplined(live: set<Address>, es: seq<Event>, f: RobotIdFilter)
    requires OnlyErrors(es)
    ensures Disciplined(live, es, f) && LiveAfterAll(live, es) == live
    decreases |es|
  {
    if |es| == 0 {
    } else {
      ErrorsAreDisciplined(live, es[..|es| - 1], f);
      assert es[|es| - 1] in es;
    }
  }

  /** Whether an event belongs to the serial transceiver (errors belong to both). */
  predicate OnSerial(e: Event) { e.Error? || e.addr.Serial? }

  predicate OnUdp(e: Event) { e.Error? || e.addr.Udp? }

  /** Two transceivers with different kinds of addresses do not disturb each other. */
  lemma {:induction false} DisciplineFrame(mine: set<Address>, others: set<Address>, es: seq<Event>, f: RobotIdFilter)
    requires Disciplined(mine, es, f)
    requires forall e <- es :: e.Error? || e.addr !in others
    ensures Disciplined(mine + others, es, f)
    ensures LiveAfterAll(mine + others, es) == LiveAfterAll(mine, es) + others
    decreases |es|
  {
    if |es| == 0 {
    } else {
      var n := |es| - 1;
      DisciplineFrame(mine, others, es[..n], f);
      assert es[n] in es;
    }
  }

  /** The Disconnected events among the given ones name exactly the given addresses, each once. */
  ghost predicate DisconnectsOnce(es: seq<Event>, gone: set<Address>) {
    && (forall e <- es :: e.Disconnected? ==> e.addr in gone)
    && (forall a <- gone :: Disconnected(a) in es)
    && (forall i, j :: 0 <= i < j < |es| && es[i].Disconnected? ==> es[i] != es[j])
  }

  /** The events report exactly the given addresses as disconnected, each once, and nothing else but errors. */
  ghost predicate ReportsOnce(es: seq<Event>, gone: set<Address>) {
    DisconnectsOnce(es, gone) && forall e <- es :: e.Error? || e.Disconnected?
  }

  lemma DisconnectsAfterOthers(others: seq<Event>, es: seq<Event>, gone: set<Address>)
    requires DisconnectsOnce(es, gone) && forall e <- others :: !e.Disconnected?
    ensures DisconnectsOnce(others + es, gone)
  {
    var all := others + es;
    assert forall k :: 0 <= k < |others| ==> !others[k].Disconnected?;
    forall i, j | 0 <= i < j < |all| && all[i].Disconnected? ensures all[i] != all[j] {
      assert i >= |others|;
    }
  }

  /** The reports of both transceivers together: no address belongs to both. */
  lemma {:induction false} DisconnectsTogether(es: seq<Event>, gone: set<Address>, fs: seq<Event>, lost: set<Address>)
    requires DisconnectsOnce(es, gone) && DisconnectsOnce(fs, lost) && gone !! lost
    ensures DisconnectsOnce(es + fs, gone + lost)
  {
    var all := es + fs;
    forall e | e in all ensures e in es || e in fs {}
    forall i, j | 0 <= i < j < |all| && all[i].Disconnected? ensures all[i] != all[j] {
      if i < |es| <= j {
        assert all[i] in es;
        assert all[j] in fs;
      }
    }
  }

  function Disconnects(gone: seq<Address>): (es: seq<Event>) {
    seq(|gone|, i requires 0 <= i < |gone| => Disconnected(gone[i]))
  }

  predicate Distinct(gone: seq<Address>) {
    forall i, j :: 0 <= i < j < |gone| ==> gone[i] != gone[j]
  }

  ghost function Members(gone: seq<Address>): set<Address> {
    set a | a in gone
  }

  lemma DisconnectsExtend(gone: seq<Address>, a: Address)
    ensures Disconnects(gone + [a]) == Disconnects(gone) + [Disconnected(a)]
  {
  }

  /** Disconnecting distinct live addresses one after the other reports each of them once. */
  lemma {:induction false} DisconnectsReport(live: set<Address>, gone: seq<Address>, f: RobotIdFilter)
    requires Distinct(gone) && Members(gone) <= live
    ensures ReportsOnce(Disconnects(gone), Members(gone))
    ensures Disciplined(live, Disconnects(gone), f) && LiveAfterAll(live, Disconnects(gone)) == live - Members(gone)
  {
    DisconnectsDisciplined(live, gone, f);
    var es := Disconnects(gone);
    forall a | a in Members(gone) ensures Disconnected(a) in es {
      var i :| 0 <= i < |gone| && gone[i] == a;
      assert es[i] == Disconnected(a);
    }
  }

  lemma MembersExtend(gone: seq<Address>, a: Address)
    ensures Members(gone + [a]) == Members(gone) + {a}
  {
  }

  /** Disconnecting one more address. */
  lemma {:induction false} DisconnectOne(live: set<Address>, es: seq<Event>, rest: set<Address>, a: Address,
                                         f: RobotIdFilter)
    requires Disciplined(live, es, f) && LiveAfterAll(live, es) == rest && a in rest
    ensures Disciplined(live, es + [Disconnected(a)], f)
    ensures LiveAfterAll(live, es + [Disconnected(a)]) == rest - {a}
  {
    DisciplineExtend(live, es, Disconnected(a), f);
  }

  lemma {:induction false} DisconnectsDisciplined(live: set<Address>, gone: seq<Address>, f: RobotIdFilter)
    requires Distinct(gone) && Members(gone) <= live
    ensures Disciplined(live, Disconnects(gone), f) && LiveAfterAll(live, Disconnects(gone)) == live - Members(gone)
    decreases |gone|
  {
    if |gone| == 0 {
    } else {
      var n := |gone| - 1;
      var before, a := gone[..n], gone[n];
      assert gone == before + [a];
      MembersExtend(before, a);
      DisconnectsExtend(before, a);
      DisconnectsDisciplined(live, before, f);
      assert a in Members(gone) && a !in Members(before);
      DisconnectOne(live, Disconnects(before), live - Members(before), a, f);
      assert live - Members(gone) == live - Members(before) - {a};
    }
  }
}
