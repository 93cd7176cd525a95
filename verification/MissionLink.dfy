/** The protocol variables and the stored waypoints, changed in place by messages and ticks. */
module MissionLink {
  import opened FixedWidth
  import opened MissionProtocol

  class Link {
    var timeout: nat
    var receivingWaypoints: bool
    var sendingWaypoints: bool
    var requestSpecific: bool
    var sendCount: bool
    var sendSpecific: bool
    var requestIndex: nat
    var requestedSequence: nat
    var waypointTotal: nat
    const waypointSet: array<Point>
    var numPoints: nat
    ghost var sent: seq<Message>

    ghost predicate Ready()
      reads this
    {
      waypointSet.Length == MAX_WAYPOINTS && numPoints <= MAX_WAYPOINTS
    }

    ghost function View(): Mission
      requires Ready()
      reads this, waypointSet
    {
      Mission(timeout, receivingWaypoints, sendingWaypoints, requestSpecific, sendCount, sendSpecific,
              requestIndex, requestedSequence, waypointTotal, waypointSet[..numPoints], sent)
    }

    constructor (unset: Point)
      ensures Ready() && View() == Mission(0, false, false, false, false, false, 0, 0, 0, [], []) && Sound(View())
    {
      timeout, receivingWaypoints, sendingWaypoints := 0, false, false;
      requestSpecific, sendCount, sendSpecific := false, false, false;
      requestIndex, requestedSequence, waypointTotal, numPoints, sent := 0, 0, 0, 0, [];
      waypointSet := new Point[MAX_WAYPOINTS](_ => unset);
    }

    /** `add_waypoint`. */
    method AddPoint(p: Point)
      requires Ready()
      modifies `numPoints, waypointSet
      ensures Ready() && waypointSet[..numPoints] == AddWaypoint(old(waypointSet[..numPoints]), p)
    {
      if numPoints < MAX_WAYPOINTS {
        waypointSet[numPoints] := p;
        numPoints := numPoints + 1;
      }
    }

    method MissionCount(count: nat)
      requires Ready()
      modifies this
      ensures Ready() && View() == OnCount(old(View()), count)
    {
      waypointTotal := count;
      if waypointTotal > MAX_WAYPOINTS { waypointTotal := MAX_WAYPOINTS; }
      timeout := WAYPOINT_TIMEOUT;
      receivingWaypoints := true;
      sendingWaypoints := false;
      requestSpecific := true;
      requestIndex := 0;
    }

    /** Frame and command of an item as the flags of a waypoint. */
    static method Interpret(item: Item) returns (known: bool, point: Point)
      ensures known == Supported(item.command) && (known ==> point == PointOf(item))
    {
      var flags := 0;
      if item.frame == Global { flags := F_ABSOLUTE; }
      match item.command {
        case NavTakeoff => flags := flags + F_TAKEOFF;
        case NavLand => flags := flags + F_LAND;
        case NavWaypoint =>
        case NavLoiter =>
        case OtherCommand => return false, Point(item.at, 0);
      }
      return true, Point(item.at, flags);
    }

    method MissionItem(number: nat, item: Item)
      requires Ready()
      modifies this, waypointSet
      ensures Ready() && View() == OnItem(old(View()), number, item)
    {
      hide PointOf;
      if !receivingWaypoints { return; }
      if number != requestIndex { return; }
      var known, point := Interpret(item);
      if !known { return; }
      AddPoint(point);
      timeout := WAYPOINT_TIMEOUT;
      requestIndex := U16(requestIndex + 1);
      if requestIndex == waypointTotal {
        sent := sent + [TellAck];
        receivingWaypoints := false;
      } else {
        requestSpecific := true;
      }
    }

    method MissionClearAll()
      requires Ready()
      modifies this
      ensures Ready() && View() == OnClear(old(View()))
    {
      waypointTotal := 0;
      numPoints := 0;
      ghost var before := sent;
      for i := 0 to 3
        invariant Ready() && View() == old(View()).(total := 0, plan := [], sent := sent)
        invariant sent == before + seq(i, _ => TellAck)
      {
        sent := sent + [TellAck];
      }
    }

    method MissionRequestList()
      requires Ready()
      modifies this
      ensures Ready() && View() == OnRequestList(old(View()))
    {
      timeout := WAYPOINT_TIMEOUT;
      sendingWaypoints := true;
      receivingWaypoints := false;
      sendCount := true;
    }

    method MissionRequest(seqNo: nat)
      requires Ready()
      modifies this
      ensures Ready() && View() == OnRequest(old(View()), seqNo)
    {
      if !sendingWaypoints { return; }
      timeout := WAYPOINT_TIMEOUT;
      requestedSequence := seqNo;
      sendSpecific := true;
    }

    method MissionAck()
      requires Ready()
      modifies this
      ensures Ready() && View() == OnAck(old(View()))
    {
      sendingWaypoints := false;
      timeout := 0;
    }

    /** The messages that are due. */
    method SendDue()
      requires Ready()
      modifies `sent, `requestSpecific, `sendCount, `sendSpecific
      ensures sent == old(sent) + Outgoing(old(View())) && !requestSpecific && !sendCount && !sendSpecific
    {
      if requestSpecific {
        sent := sent + [AskItem(requestIndex)];
        requestSpecific := false;
      }
      if sendCount {
        sent := sent + [TellCount(numPoints)];
        sendCount := false;
      }
      if sendSpecific {
        sent := sent + [TellItem(requestedSequence, if requestedSequence < numPoints then Stored(waypointSet[requestedSequence]) else Behind)];
        sendSpecific := false;
      }
    }

    /** `MAVMissionOutput_40hz`. */
    method Output()
      requires Ready()
      modifies this
      ensures Ready() && View() == OnTick(old(View()))
    {
      hide Outgoing;
      if timeout <= 0 {
        sendingWaypoints := false;
        receivingWaypoints := false;
      }
      DueIsSame(old(View()), View());
      SendDue();
      if timeout > 0 { timeout := timeout - 1; }
    }

    static lemma DueIsSame(m: Mission, n: Mission)
      requires n == m.(sending := n.sending, receiving := n.receiving)
      ensures Outgoing(n) == Outgoing(m)
    {
    }

    /** `MAVMissionHandleMessage` and the output clock. */
    method Handle(e: Event)
      requires Ready()
      modifies this, waypointSet
      ensures Ready() && View() == Step(old(View()), e)
    {
      hide OnCount, OnItem, OnClear, OnRequestList, OnRequest, OnAck, OnTick;
      match e {
        case Count(n) => MissionCount(n);
        case SendItem(number, item) => MissionItem(number, item);
        case ClearAll => MissionClearAll();
        case RequestList => MissionRequestList();
        case Request(wanted) => MissionRequest(wanted);
        case Ack => MissionAck();
        case Tick => Output();
      }
    }
  }
}
