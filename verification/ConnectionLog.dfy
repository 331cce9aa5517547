/** The driver's outgoing event log and the cache that replays it. */
module ConnectionLog {
  import opened Options
  import opened Datagrams
  import opened Transceivers

  datatype DriverEvent =
    | RobotConnected(id: byte, addr: Address)
    | RobotDisconnected(id: byte)
    | RegularReceived(id: byte, response: RegularResponse)
    | DatagramReceived(id: byte, datagram: ResponseDatagram)
    | TransceiverError

  datatype RobotState = RobotState(addr: Address, latest: Option<RegularResponse>)

  function Update(robots: map<byte, RobotState>, e: DriverEvent): map<byte, RobotState> {
    match e
    case RobotConnected(id, addr) => robots[id := RobotState(addr, None)]
    case RobotDisconnected(id) => robots - {id}
    case RegularReceived(id, response) =>
      if id in robots then robots[id := robots[id].(latest := Some(response))] else robots
    case _ => robots
  }

  function Replay(log: seq<DriverEvent>): map<byte, RobotState> {
    if |log| == 0 then map[] else Update(Replay(log[..|log| - 1]), log[|log| - 1])
  }

  /** Whether an event may follow a log after which exactly the robots in `open` are connected. */
  predicate Fits(open: set<byte>, e: DriverEvent) {
    match e
    case RobotConnected(id, _) => id !in open
    case TransceiverError => true
    case _ => e.id in open
  }

  /** Connected and disconnected events alternate per robot, and packet events fall only in between. */
  predicate Bracketed(log: seq<DriverEvent>) {
    |log| == 0 || (Bracketed(log[..|log| - 1]) && Fits(Replay(log[..|log| - 1]).Keys, log[|log| - 1]))
  }

  lemma {:induction false} LogExtend(log: seq<DriverEvent>, e: DriverEvent)
    ensures Replay(log + [e]) == Update(Replay(log), e)
    ensures Bracketed(log + [e]) <==> Bracketed(log) && Fits(Replay(log).Keys, e)
  {
    assert (log + [e])[..|log|] == log;
  }

  // ---- What the replay means, read off the log backwards ----

  /** The address in the robot's last connected event, if no disconnected event follows it. */
  function AddressIn(log: seq<DriverEvent>, id: byte): Option<Address> {
    if |log| == 0 then None
    else
      var e := log[|log| - 1];
      if e.RobotConnected? && e.id == id then Some(e.addr)
      else if e.RobotDisconnected? && e.id == id then None
      else AddressIn(log[..|log| - 1], id)
  }

  /** The last regular response since the robot's last connected or disconnected event. */
  function LatestIn(log: seq<DriverEvent>, id: byte): Option<RegularResponse> {
    if |log| == 0 then None
    else
      var e := log[|log| - 1];
      if (e.RobotConnected? || e.RobotDisconnected?) && e.id == id then None
      else if e.RegularReceived? && e.id == id then Some(e.response)
      else LatestIn(log[..|log| - 1], id)
  }

  /** For every log whatsoever, the cache holds exactly the robots whose last connection is still open, each with
      that connection's address and the latest regular response received on it. */
  lemma {:induction false} ReplayIsLastConnection(log: seq<DriverEvent>, id: byte)
    ensures id in Replay(log) <==> AddressIn(log, id).Some?
    ensures id in Replay(log) ==> Replay(log)[id] == RobotState(AddressIn(log, id).value, LatestIn(log, id))
    decreases |log|
  {
    if |log| == 0 {
    } else {
      ReplayIsLastConnection(log[..|log| - 1], id);
    }
  }

  class ConnectionStateCache {
    var connectedRobots: map<byte, RobotState>

    constructor ()
      ensures connectedRobots == Replay([])
    {
      connectedRobots := map[];
    }

    method UpdateWith(e: DriverEvent, ghost log: seq<DriverEvent>)
      requires connectedRobots == Replay(log)
      modifies this
      ensures connectedRobots == Replay(log + [e])
    {
      LogExtend(log, e);
      match e
      case RobotConnected(id, addr) =>
        connectedRobots := connectedRobots[id := RobotState(addr, None)];
      case RobotDisconnected(id) =>
        connectedRobots := connectedRobots - {id};
      case RegularReceived(id, response) =>
        if id in connectedRobots {
          connectedRobots := connectedRobots[id := connectedRobots[id].(latest := Some(response))];
        }
      case _ =>
    }
  }
}
