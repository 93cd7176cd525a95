/** The MAVLink mission protocol: uploading and announcing waypoints, as a function of the messages received. */
module MissionProtocol {
  import opened FixedWidth

  const MAX_WAYPOINTS := 20
  const WAYPOINT_TIMEOUT := 120
  const F_TAKEOFF := 1
  const F_LAND := 128
  const F_ABSOLUTE := 256

  datatype Frame = Global | LocalNed | OtherFrame

  datatype Command = NavTakeoff | NavLand | NavWaypoint | NavLoiter | OtherCommand

  datatype Location = Location(x: int, y: int, z: int)

  /** A stored waypoint; the view point is not written. */
  datatype Point = Point(at: Location, flags: int)

  /** A mission item; for other frames than the global one the stored location is whatever `at` holds. */
  datatype Item = Item(frame: Frame, command: Command, at: Location)

  datatype Event =
    | Count(n: nat)
    | SendItem(number: nat, item: Item)
    | ClearAll
    | RequestList
    | Request(wanted: nat)
    | Ack
    | Tick

  /** The waypoint a message is made from: a stored one, or whatever lies behind them. */
  datatype Told = Stored(point: Point) | Behind

  /** What goes out to the ground station. */
  datatype Message = AskItem(seqNo: nat) | TellCount(count: nat) | TellItem(seqNo: nat, told: Told) | TellAck

  datatype Mission = Mission(
    timeout: nat, receiving: bool, sending: bool,
    askItem: bool, tellCount: bool, tellItem: bool,
    index: nat, wanted: nat, total: nat, plan: seq<Point>, sent: seq<Message>)

  predicate Supported(c: Command) {
    c != OtherCommand
  }

  function PointOf(i: Item): Point {
    Point(i.at, (if i.frame == Global then F_ABSOLUTE else 0)
                + (if i.command == NavTakeoff then F_TAKEOFF else if i.command == NavLand then F_LAND else 0))
  }

  /** `add_waypoint`: a full plan stays as it is. */
  function AddWaypoint(plan: seq<Point>, p: Point): seq<Point> {
    if |plan| < MAX_WAYPOINTS then plan + [p] else plan
  }

  /** `MissionCount`. */
  function OnCount(m: Mission, n: nat): Mission {
    m.(total := if n > MAX_WAYPOINTS then MAX_WAYPOINTS else n, timeout := WAYPOINT_TIMEOUT,
       receiving := true, sending := false, askItem := true, index := 0)
  }

  /** The items that are taken: the one asked for, while receiving, with a command that is understood. */
  predicate Takes(m: Mission, number: nat, i: Item) {
    m.receiving && number == m.index && Supported(i.command)
  }

  /** `MissionItem`. */
  function OnItem(m: Mission, number: nat, i: Item): Mission {
    if !Takes(m, number, i) then m
    else
      var next := U16(m.index + 1);
      var stored := m.(plan := AddWaypoint(m.plan, PointOf(i)), timeout := WAYPOINT_TIMEOUT, index := next);
      if next == m.total then stored.(sent := m.sent + [TellAck], receiving := false) else stored.(askItem := true)
  }

  /** `MissionClearAll`. */
  function OnClear(m: Mission): Mission {
    m.(total := 0, plan := [], sent := m.sent + [TellAck, TellAck, TellAck])
  }

  /** `MissionRequestList`. */
  function OnRequestList(m: Mission): Mission {
    m.(timeout := WAYPOINT_TIMEOUT, sending := true, receiving := false, tellCount := true)
  }

  /** `MissionRequest`. */
  function OnRequest(m: Mission, wanted: nat): Mission {
    if m.sending then m.(timeout := WAYPOINT_TIMEOUT, wanted := wanted, tellItem := true) else m
  }

  /** `MissionAck`. */
  function OnAck(m: Mission): Mission {
    m.(sending := false, timeout := 0)
  }

  function Waypoint(plan: seq<Point>, k: nat): Told {
    if k < |plan| then Stored(plan[k]) else Behind
  }

  function Outgoing(m: Mission): seq<Message> {
    (if m.askItem then [AskItem(m.index)] else []) +
    (if m.tellCount then [TellCount(|m.plan|)] else []) +
    (if m.tellItem then [TellItem(m.wanted, Waypoint(m.plan, m.wanted))] else [])
  }

  /** `MAVMissionOutput_40hz`. */
  function OnTick(m: Mission): Mission {
    m.(sending := m.sending && m.timeout > 0, receiving := m.receiving && m.timeout > 0,
       sent := m.sent + Outgoing(m), askItem := false, tellCount := false, tellItem := false,
       timeout := if m.timeout > 0 then m.timeout - 1 else 0)
  }

  function Step(m: Mission, e: Event): Mission {
    match e
    case Count(n) => OnCount(m, n)
    case SendItem(number, item) => OnItem(m, number, item)
    case ClearAll => OnClear(m)
    case RequestList => OnRequestList(m)
    case Request(wanted) => OnRequest(m, wanted)
    case Ack => OnAck(m)
    case Tick => OnTick(m)
  }

  function Run(m: Mission, events: seq<Event>): Mission {
    if events == [] then m else Step(Run(m, events[..|events| - 1]), events[|events| - 1])
  }

  // ---------------------------------------------------------------- one direction at a time

  predicate Sound(m: Mission) {
    !(m.sending && m.receiving) && m.timeout <= 120 && |m.plan| <= 20 && m.total <= 20
  }

  lemma StepSound(m: Mission, e: Event)
    requires Sound(m)
    ensures Sound(Step(m, e))
  {
  }

  /** Whatever arrives, the vehicle never sends and receives at once, and the plan fits its table. */
  lemma {:induction false} AlwaysSound(m: Mission, events: seq<Event>)
    requires Sound(m)
    ensures Sound(Run(m, events))
    decreases |events|
  {
    hide Step, Sound;
    if events != [] {
      AlwaysSound(m, events[..|events| - 1]);
      StepSound(Run(m, events[..|events| - 1]), events[|events| - 1]);
    }
  }

  // ---------------------------------------------------------------- an upload

  function Points(items: seq<Item>): (p: seq<Point>)
    ensures |p| == |items|
  {
    seq(|items|, k requires 0 <= k < |items| => PointOf(items[k]))
  }

  /** A plan that takes as much of `points` as it has room for. */
  function Filled(base: seq<Point>, points: seq<Point>): seq<Point> {
    (base + points)[..Min(|base| + |points|, MAX_WAYPOINTS)]
  }

  /** An item of the mission being uploaded, however often and in whatever order, or anything that starts no other upload. */
  predicate DuringUpload(items: seq<Item>, e: Event) {
    match e
    case Count(n) => false
    case ClearAll => false
    case SendItem(number, item) => number < |items| && item == items[number] && Supported(item.command)
    case _ => true
  }

  function Acks(sent: seq<Message>): nat {
    if sent == [] then 0 else Acks(sent[..|sent| - 1]) + if sent[|sent| - 1] == TellAck then 1 else 0
  }

  lemma {:induction false} AcksOfMore(a: seq<Message>, b: seq<Message>)
    ensures Acks(a + b) == Acks(a) + Acks(b)
    decreases |b|
  {
    if b == [] {
      assert a + b == a;
    } else {
      assert (a + b)[..|a + b| - 1] == a + b[..|b| - 1];
      AcksOfMore(a, b[..|b| - 1]);
    }
  }

  lemma TickSendsNoAck(m: Mission)
    ensures Acks(Outgoing(m)) == 0
  {
    var a := if m.askItem then [AskItem(m.index)] else [];
    var b := if m.tellCount then [TellCount(|m.plan|)] else [];
    var c := if m.tellItem then [TellItem(m.wanted, Waypoint(m.plan, m.wanted))] else [];
    NoAck(a);
    NoAck(b);
    NoAck(c);
    AcksOfMore(a, b);
    AcksOfMore(a + b, c);
  }

  lemma NoAck(a: seq<Message>)
    requires |a| <= 1 && (a != [] ==> a[0] != TellAck)
    ensures Acks(a) == 0
  {
  }

  /** How an upload stands: the first items in order are stored, and all of them exactly when acknowledged. */
  predicate Uploading(m: Mission, base: seq<Point>, items: seq<Item>, acks: nat) {
    m.index <= |items| == m.total && |base| <= MAX_WAYPOINTS && m.plan == Filled(base, Points(items[..m.index])) &&
    (m.receiving ==> m.index < |items|) && Acks(m.sent) == acks + (if m.index == |items| then 1 else 0)
  }

  lemma FilledMore(base: seq<Point>, points: seq<Point>, p: Point)
    requires |base| <= MAX_WAYPOINTS
    ensures AddWaypoint(Filled(base, points), p) == Filled(base, points + [p])
  {
    assert base + (points + [p]) == (base + points) + [p];
  }

  lemma ItemUploads(m: Mission, base: seq<Point>, items: seq<Item>, acks: nat, number: nat)
    requires Uploading(m, base, items, acks) && 0 < |items| <= MAX_WAYPOINTS && number < |items|
    requires Supported(items[number].command)
    ensures Uploading(OnItem(m, number, items[number]), base, items, acks)
  {
    hide Filled, Acks, PointOf;
    var i := items[number];
    if Takes(m, number, i) {
      FilledMore(base, Points(items[..m.index]), PointOf(i));
      assert Points(items[..m.index + 1]) == Points(items[..m.index]) + [PointOf(i)];
      AcksOfMore(m.sent, [TellAck]);
      OneAck();
    }
  }

  lemma OneAck()
    ensures Acks([TellAck]) == 1
  {
    assert [TellAck][..0] == [];
  }

  lemma EventUploads(m: Mission, base: seq<Point>, items: seq<Item>, acks: nat, e: Event)
    requires Uploading(m, base, items, acks) && 0 < |items| <= MAX_WAYPOINTS && DuringUpload(items, e)
    ensures Uploading(Step(m, e), base, items, acks)
  {
    hide Filled, Acks, PointOf, OnItem, Points;
    if e.SendItem? {
      ItemUploads(m, base, items, acks, e.number);
    } else if e == Tick {
      AcksOfMore(m.sent, Outgoing(m));
      TickSendsNoAck(m);
    }
  }

  /**
   * After a count, under any loss, repetition or reordering of the mission's items, the plan is
   * what was there before followed by the first `index` items in order, as far as there is room.
   */
  lemma {:induction false} UploadInOrder(m: Mission, items: seq<Item>, events: seq<Event>)
    requires Sound(m) && 0 < |items| <= MAX_WAYPOINTS && forall e <- events :: DuringUpload(items, e)
    ensures Uploading(Run(OnCount(m, |items|), events), m.plan, items, Acks(m.sent))
    decreases |events|
  {
    hide Step, DuringUpload, Acks, OnCount;
    if events == [] {
      UploadStarts(m, items);
    } else {
      var front, e := events[..|events| - 1], events[|events| - 1];
      assert DuringUpload(items, e);
      UploadInOrder(m, items, front);
      EventUploads(Run(OnCount(m, |items|), front), m.plan, items, Acks(m.sent), e);
    }
  }

  lemma UploadStarts(m: Mission, items: seq<Item>)
    requires Sound(m) && 0 < |items| <= MAX_WAYPOINTS
    ensures Uploading(OnCount(m, |items|), m.plan, items, Acks(m.sent))
  {
    assert Points(items[..0]) == [];
    assert m.plan + [] == m.plan;
  }

  /** After a clear the plan is exactly the first `index` items, and is whole exactly when the ack has gone out. */
  lemma ClearedUpload(m: Mission, items: seq<Item>, events: seq<Event>)
    requires Sound(m) && 0 < |items| <= MAX_WAYPOINTS && forall e <- events :: DuringUpload(items, e)
    ensures var cleared := OnClear(m);
      var r := Run(OnCount(cleared, |items|), events);
      r.index <= |items| && r.plan == Points(items[..r.index]) &&
      Acks(r.sent) == Acks(cleared.sent) + (if r.plan == Points(items) then 1 else 0)
  {
    hide Step, DuringUpload, Acks, OnCount, PointOf;
    var cleared := OnClear(m);
    StepSound(m, ClearAll);
    assert Sound(cleared) by { ClearSound(m); }
    UploadInOrder(cleared, items, events);
    var r := Run(OnCount(cleared, |items|), events);
    var points := Points(items[..r.index]);
    assert [] + points == points && points[..|points|] == points;
    if r.index == |items| { assert items[..r.index] == items; }
  }

  lemma ClearSound(m: Mission)
    requires Sound(m)
    ensures Sound(OnClear(m))
  {
  }

  /**
   Without a clear the new items follow the old ones, as far as there is room: the plan then is the
   mission that was sent exactly if it was empty before or, for a mission that fills the whole
   plan, if the old points followed by the new ones begin with just those.
   */
  lemma UnclearedUpload(m: Mission, items: seq<Item>, events: seq<Event>)
    requires Sound(m) && 0 < |items| <= MAX_WAYPOINTS && forall e <- events :: DuringUpload(items, e)
    ensures var r := Run(OnCount(m, |items|), events);
      r.index == |items| ==>
        && (|items| < MAX_WAYPOINTS ==> (r.plan == Points(items) <==> m.plan == []))
        && (|items| == MAX_WAYPOINTS ==> (r.plan == Points(items) <==> (m.plan + Points(items))[..MAX_WAYPOINTS] == Points(items)))
  {
    hide Step, DuringUpload, Acks, OnCount, PointOf;
    UploadInOrder(m, items, events);
    assert items[..|items|] == items;
    var points := Points(items);
    assert [] + points == points && points[..|points|] == points;
  }

  /** So a full mission that repeats the one stored is stored whole, though nothing was cleared. */
  lemma RepeatedUpload(m: Mission, items: seq<Item>, events: seq<Event>)
    requires Sound(m) && |items| == MAX_WAYPOINTS && m.plan == Points(items) && forall e <- events :: DuringUpload(items, e)
    ensures var r := Run(OnCount(m, |items|), events);
      r.index == |items| ==> r.plan == Points(items)
  {
    hide Step, DuringUpload, Acks, OnCount, PointOf, Run;
    UnclearedUpload(m, items, events);
    var points := Points(items);
    assert (points + points)[..MAX_WAYPOINTS] == points;
  }

  // ---------------------------------------------------------------- silence

  /** Traffic that restarts the timer. */
  predicate Restarts(m: Mission, e: Event) {
    match e
    case Count(n) => true
    case SendItem(number, item) => Takes(m, number, item)
    case RequestList => true
    case Request(wanted) => m.sending
    case _ => false
  }

  function Ticks(events: seq<Event>): nat {
    if events == [] then 0 else Ticks(events[..|events| - 1]) + if events[|events| - 1] == Tick then 1 else 0
  }

  ghost predicate Silent(m: Mission, events: seq<Event>) {
    forall k :: 0 <= k < |events| ==> !Restarts(Run(m, events[..k]), events[k])
  }

  lemma SilentFront(m: Mission, events: seq<Event>)
    requires Silent(m, events) && events != []
    ensures Silent(m, events[..|events| - 1]) && !Restarts(Run(m, events[..|events| - 1]), events[|events| - 1])
  {
    hide Restarts, Run;
    var front := events[..|events| - 1];
    forall k | 0 <= k < |front| ensures !Restarts(Run(m, front[..k]), front[k]) {
      assert front[..k] == events[..k];
    }
  }

  lemma SilentStep(m: Mission, e: Event)
    requires !Restarts(m, e)
    ensures var r := Step(m, e);
      r.timeout <= (if e == Tick && m.timeout > 0 then m.timeout - 1 else m.timeout) &&
      (!m.sending && !m.receiving ==> !r.sending && !r.receiving) &&
      (e == Tick && m.timeout == 0 ==> !r.sending && !r.receiving)
  {
  }

  /** Without accepted traffic both directions are dropped by the tick after the timer has run out, the 121st at most. */
  lemma {:induction false} SilenceEnds(m: Mission, events: seq<Event>)
    requires Sound(m) && Silent(m, events)
    ensures var r := Run(m, events);
      (Ticks(events) <= m.timeout ==> r.timeout <= m.timeout - Ticks(events)) &&
      (Ticks(events) > m.timeout ==> r.timeout == 0 && !r.sending && !r.receiving)
    ensures Ticks(events) >= 121 ==> !Run(m, events).sending && !Run(m, events).receiving
    decreases |events|
  {
    hide Step, Restarts, Silent;
    if events != [] {
      SilentFront(m, events);
      SilenceEnds(m, events[..|events| - 1]);
      SilentStep(Run(m, events[..|events| - 1]), events[|events| - 1]);
    }
  }

  /** And not before: with nothing but ticks an upload stays open for exactly as many of them as the timer counts. */
  lemma {:induction false} OpenUntil(m: Mission, events: seq<Event>)
    requires forall k :: 0 <= k < |events| ==> events[k] == Tick
    ensures var r := Run(m, events);
      (r.receiving <==> m.receiving && |events| <= m.timeout) && (r.sending <==> m.sending && |events| <= m.timeout) &&
      r.timeout == if |events| <= m.timeout then m.timeout - |events| else 0
    decreases |events|
  {
    hide Outgoing;
    if events != [] {
      OpenUntil(m, events[..|events| - 1]);
      assert events[|events| - 1] == Tick;
    }
  }
}
