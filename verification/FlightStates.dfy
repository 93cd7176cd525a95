/** The flight mode machine: the 40 Hz heartbeat, the mode flags, and the handlers of the seven states. */
module FlightStates {
  import opened ModeSwitch

  const WAGGLE_SIZE := 300
  const NUM_WAGGLES := 4

  datatype State = Start | Calibrate | Acquiring | ManualFlight | StabilizedFlight | WaypointFlight | ReturnFlight

  datatype Plan = NoPlan | MainPlan | RtlPlan

  datatype AltitudeHold = HoldNone | PitchOnly | HoldFull

  /** Build options: the two pauses in runs of the state machine, and FAILSAFE_HOLD. */
  datatype Build = Build(calibPause: int, standbyPause: int, failsafeHold: bool)

  /** The three request flags. */
  datatype Request = Request(man: bool, auto: bool, home: bool)

  datatype ModeFlags = ModeFlags(request: Request, last: Request, hold: bool)

  datatype Control = Control(steering: bool, feedback: bool, throttleHold: bool, pitchHold: bool, plan: Plan)

  /** `origins` and `trims` count how often saving the origin was asked for and the trims were recorded. */
  datatype Progress = Progress(
    calibTimer: int, standbyTimer: int, waggle: int, deadReckon: bool, origins: nat, trims: nat)

  datatype Craft = Craft(state: State, flags: ModeFlags, control: Control, progress: Progress)

  datatype Flight = Flight(counter: nat, asap: bool, navCapable: bool, craft: Craft)

  /** What one heartbeat finds: radio, switch, GPS and settings. */
  datatype Input = Input(
    radioOn: bool, wanted: Mode, turnedOff: bool, gpsFresh: bool, startupOk: bool, magnetOk: bool,
    stabilizedHold: AltitudeHold, waypointHold: AltitudeHold)

  const NOTHING := Request(false, false, false)

  const NO_CONTROL := Control(false, false, false, false, NoPlan)

  /** After `init_states`; the flags start at zero. */
  function PowerOn(b: Build, nav: bool): Flight {
    Flight(0, false, nav, Craft(Start, ModeFlags(NOTHING, NOTHING, false), NO_CONTROL,
                                Progress(b.calibPause, b.standbyPause, 0, false, 0, 0)))
  }

  function Flags(m: Mode): Request {
    Request(m == Manual, m == Stabilized, m == Autonomous)
  }

  /** `flight_mode_switch_check_set`. */
  function CheckSet(f: ModeFlags, i: Input): ModeFlags {
    if !i.radioOn then f.(request := Request(false, false, true))
    else if f.hold && Flags(i.wanted) == f.last then f.(request := NOTHING)
    else ModeFlags(Flags(i.wanted), Flags(i.wanted), false)
  }

  /** The control flags on entering a state without control; the flight plan stays selected. */
  function Released(c: Control): Control {
    Control(false, false, false, false, c.plan)
  }

  function Following(plan: Plan, i: Input): Control {
    Control(true, true, i.waypointHold == HoldFull, i.waypointHold != HoldNone, plan)
  }

  function EnterCalibrate(b: Build, c: Craft): Craft {
    Craft(Calibrate, c.flags, Released(c.control), c.progress.(waggle := 0, calibTimer := b.calibPause))
  }

  function EnterAcquiring(b: Build, c: Craft): Craft {
    Craft(Acquiring, c.flags, Released(c.control),
          c.progress.(waggle := WAGGLE_SIZE, standbyTimer := b.standbyPause, trims := c.progress.trims + 1))
  }

  function EnterManual(c: Craft): Craft {
    Craft(ManualFlight, c.flags, Released(c.control), c.progress.(waggle := 0))
  }

  function EnterStabilized(c: Craft, i: Input): Craft {
    Craft(StabilizedFlight, c.flags,
          Control(false, true, i.stabilizedHold == HoldFull, i.stabilizedHold != HoldNone, c.control.plan),
          c.progress.(waggle := 0))
  }

  function EnterWaypoint(c: Craft, i: Input): Craft {
    Craft(WaypointFlight, c.flags, Following(MainPlan, i), c.progress.(waggle := 0))
  }

  function EnterReturn(b: Build, c: Craft, i: Input): Craft {
    Craft(ReturnFlight, c.flags.(hold := c.flags.hold || b.failsafeHold), Following(RtlPlan, i), c.progress.(waggle := 0))
  }

  function OnCalibrate(b: Build, c: Craft, i: Input): Craft {
    if !i.radioOn then EnterCalibrate(b, c)
    else
      var d := c.(progress := c.progress.(calibTimer := c.progress.calibTimer - 1));
      if d.progress.calibTimer <= 0 then EnterAcquiring(b, d) else d
  }

  function Waggled(p: Progress): int {
    if p.standbyTimer == NUM_WAGGLES + 1 then WAGGLE_SIZE else if p.standbyTimer <= NUM_WAGGLES then -p.waggle else 0
  }

  /** One good run of the standby pause. */
  function Standby(p: Progress): Progress {
    var timer := p.standbyTimer - 1;
    p.(waggle := Waggled(p), standbyTimer := timer,
       origins := if timer == 6 then p.origins + 1 else p.origins,
       deadReckon := p.deadReckon || timer == 2)
  }

  function OnAcquiring(c: Craft, nav: bool, i: Input): Craft {
    if !(nav && i.magnetOk && i.radioOn) then c.(progress := c.progress.(waggle := 0))
    else if !i.startupOk then c
    else
      var d := c.(progress := Standby(c.progress));
      if d.progress.standbyTimer <= 0 then EnterManual(d) else d
  }

  function OnManual(b: Build, c: Craft, nav: bool, i: Input): Craft {
    if i.radioOn then
      if c.flags.request.home && nav then EnterWaypoint(c, i)
      else if c.flags.request.auto then EnterStabilized(c, i)
      else c
    else if nav then EnterReturn(b, c, i)
    else EnterStabilized(c, i)
  }

  function OnStabilized(b: Build, c: Craft, nav: bool, i: Input): Craft {
    if i.radioOn then
      if c.flags.request.home && nav then EnterWaypoint(c, i)
      else if c.flags.request.man then EnterManual(c)
      else c
    else if nav then EnterReturn(b, c, i)
    else c
  }

  function OnWaypoint(b: Build, c: Craft, i: Input): Craft {
    if i.radioOn then
      if c.flags.request.man then EnterManual(c)
      else if c.flags.request.auto then EnterStabilized(c, i)
      else c
    else EnterReturn(b, c, i)
  }

  function OnReturn(b: Build, c: Craft, nav: bool, i: Input): Craft {
    if i.radioOn then
      if c.flags.request.man then EnterManual(c)
      else if c.flags.request.auto then EnterStabilized(c, i)
      else if c.flags.request.home && nav then EnterWaypoint(c, i)
      else c
    else c.(flags := c.flags.(hold := c.flags.hold || b.failsafeHold))
  }

  /** `(*stateS)()`. */
  function Handle(b: Build, c: Craft, nav: bool, i: Input): Craft {
    match c.state
    case Start => EnterCalibrate(b, c)
    case Calibrate => OnCalibrate(b, c, i)
    case Acquiring => OnAcquiring(c, nav, i)
    case ManualFlight => OnManual(b, c, nav, i)
    case StabilizedFlight => OnStabilized(b, c, nav, i)
    case WaypointFlight => OnWaypoint(b, c, i)
    case ReturnFlight => OnReturn(b, c, nav, i)
  }

  /** `udb_heartbeat_40hz_callback`; the radio's turning off may have been signalled since the last one. */
  function Heartbeat(b: Build, f: Flight, i: Input): Flight {
    var c := f.craft.(flags := CheckSet(f.craft.flags, i));
    if f.counter >= 20 then Flight(0, false, i.gpsFresh, Handle(b, c, i.gpsFresh, i))
    else Flight(f.counter + 1, false, f.navCapable, if f.asap || i.turnedOff then Handle(b, c, f.navCapable, i) else c)
  }

  function Fly(b: Build, f: Flight, inputs: seq<Input>): Flight {
    if inputs == [] then f else Heartbeat(b, Fly(b, f, inputs[..|inputs| - 1]), inputs[|inputs| - 1])
  }

  // ---------------------------------------------------------------- what every state guarantees

  predicate OnGround(s: State) {
    s == Start || s == Calibrate || s == Acquiring
  }

  /** Steering, pitch feedback and flight plan are determined by the state. */
  predicate Controlled(s: State, c: Control) {
    (c.steering <==> s == WaypointFlight || s == ReturnFlight) &&
    (c.feedback <==> s == StabilizedFlight || s == WaypointFlight || s == ReturnFlight) &&
    (s == WaypointFlight ==> c.plan == MainPlan) &&
    (s == ReturnFlight ==> c.plan == RtlPlan) &&
    (!c.feedback ==> !c.throttleHold && !c.pitchHold) && (c.throttleHold ==> c.pitchHold)
  }

  /** How far the start-up has got: trims once, then the origin once, then dead reckoning. */
  predicate StartedUp(b: Build, s: State, p: Progress) {
    p.trims == (if s == Start || s == Calibrate then 0 else 1) &&
    (s == Acquiring ==>
       0 < p.standbyTimer <= b.standbyPause &&
       p.origins == (if p.standbyTimer <= 6 then 1 else 0) && p.deadReckon == (p.standbyTimer <= 2)) &&
    (s == Start || s == Calibrate ==> p.origins == 0 && !p.deadReckon) &&
    (!OnGround(s) ==> p.origins == 1 && p.deadReckon)
  }

  predicate Waggles(s: State, waggle: int) {
    (s != Acquiring ==> waggle == 0) && (waggle == 0 || waggle == WAGGLE_SIZE || waggle == -WAGGLE_SIZE)
  }

  predicate Sound(b: Build, c: Craft) {
    Controlled(c.state, c.control) && StartedUp(b, c.state, c.progress) && Waggles(c.state, c.progress.waggle) &&
    (c.flags.hold ==> c.state == ReturnFlight && b.failsafeHold)
  }

  /** Behind the mode switch a hold leaves nothing requested while the radio is on. */
  predicate Held(f: ModeFlags, i: Input) {
    f.hold && i.radioOn ==> f.request == NOTHING
  }

  lemma GroundSound(b: Build, c: Craft, i: Input)
    requires Sound(b, c) && b.standbyPause > 6
    ensures c.state == Start ==> Sound(b, EnterCalibrate(b, c))
    ensures c.state == Calibrate ==> Sound(b, OnCalibrate(b, c, i))
  {
  }

  lemma AcquiringSound(b: Build, c: Craft, nav: bool, i: Input)
    requires Sound(b, c) && c.state == Acquiring
    ensures Sound(b, OnAcquiring(c, nav, i))
  {
  }

  lemma FlightSound(b: Build, c: Craft, nav: bool, i: Input)
    requires Sound(b, c)
    ensures c.state == ManualFlight ==> Sound(b, OnManual(b, c, nav, i))
    ensures c.state == StabilizedFlight ==> Sound(b, OnStabilized(b, c, nav, i))
    ensures c.state == WaypointFlight ==> Sound(b, OnWaypoint(b, c, i))
  {
  }

  lemma ReturnSound(b: Build, c: Craft, nav: bool, i: Input)
    requires Sound(b, c) && c.state == ReturnFlight && Held(c.flags, i)
    ensures Sound(b, OnReturn(b, c, nav, i))
  {
  }

  lemma HandleSound(b: Build, c: Craft, nav: bool, i: Input)
    requires Sound(b, c) && b.standbyPause > 6 && Held(c.flags, i)
    ensures Sound(b, Handle(b, c, nav, i))
  {
    hide Sound, Held, EnterCalibrate, OnCalibrate, OnAcquiring, OnManual, OnStabilized, OnWaypoint, OnReturn;
    match c.state {
      case Start => GroundSound(b, c, i);
      case Calibrate => GroundSound(b, c, i);
      case Acquiring => AcquiringSound(b, c, nav, i);
      case ManualFlight => FlightSound(b, c, nav, i);
      case StabilizedFlight => FlightSound(b, c, nav, i);
      case WaypointFlight => FlightSound(b, c, nav, i);
      case ReturnFlight => ReturnSound(b, c, nav, i);
    }
  }

  lemma CheckSetSound(b: Build, c: Craft, i: Input)
    requires Sound(b, c)
    ensures Sound(b, c.(flags := CheckSet(c.flags, i))) && Held(CheckSet(c.flags, i), i)
  {
    hide Controlled, StartedUp, Waggles;
  }

  lemma HeartbeatSound(b: Build, f: Flight, i: Input)
    requires Sound(b, f.craft) && f.counter <= 20 && b.standbyPause > 6
    ensures Sound(b, Heartbeat(b, f, i).craft) && Heartbeat(b, f, i).counter <= 20
  {
    hide Handle, CheckSet, Sound, Held;
    var c := f.craft.(flags := CheckSet(f.craft.flags, i));
    CheckSetSound(b, f.craft, i);
    HandleSound(b, c, i.gpsFresh, i);
    HandleSound(b, c, f.navCapable, i);
  }

  /** In every run from power-on. */
  lemma {:induction false} AlwaysSound(b: Build, nav: bool, inputs: seq<Input>)
    requires b.standbyPause > 6
    ensures var f := Fly(b, PowerOn(b, nav), inputs);
      Sound(b, f.craft) && f.counter <= 20
    decreases |inputs|
  {
    hide Sound, Heartbeat;
    if inputs == [] {
      PowerOnSound(b, nav);
    } else {
      AlwaysSound(b, nav, inputs[..|inputs| - 1]);
      HeartbeatSound(b, Fly(b, PowerOn(b, nav), inputs[..|inputs| - 1]), inputs[|inputs| - 1]);
    }
  }

  lemma PowerOnSound(b: Build, nav: bool)
    ensures Sound(b, PowerOn(b, nav).craft)
  {
  }

  // ---------------------------------------------------------------- no way back to the ground

  lemma HandleOnward(b: Build, c: Craft, nav: bool, i: Input)
    ensures !OnGround(c.state) ==> !OnGround(Handle(b, c, nav, i).state)
    ensures c.state == Acquiring ==> Handle(b, c, nav, i).state == Acquiring || Handle(b, c, nav, i).state == ManualFlight
  {
  }

  lemma HeartbeatOnward(b: Build, f: Flight, i: Input)
    ensures !OnGround(f.craft.state) ==> !OnGround(Heartbeat(b, f, i).craft.state)
    ensures f.craft.state == Acquiring ==>
      Heartbeat(b, f, i).craft.state == Acquiring || Heartbeat(b, f, i).craft.state == ManualFlight
  {
    hide Handle, CheckSet;
    var c := f.craft.(flags := CheckSet(f.craft.flags, i));
    HandleOnward(b, c, i.gpsFresh, i);
    HandleOnward(b, c, f.navCapable, i);
  }

  /** Once it has left the ground states the machine does not go through start-up again. */
  lemma {:induction false} NeverGroundedAgain(b: Build, f: Flight, inputs: seq<Input>)
    requires !OnGround(f.craft.state)
    ensures !OnGround(Fly(b, f, inputs).craft.state)
    decreases |inputs|
  {
    hide Heartbeat;
    if inputs != [] {
      NeverGroundedAgain(b, f, inputs[..|inputs| - 1]);
      HeartbeatOnward(b, Fly(b, f, inputs[..|inputs| - 1]), inputs[|inputs| - 1]);
    }
  }

  // ---------------------------------------------------------------- signal lost

  /** No radio, and a GPS position whenever it is asked for. */
  predicate Lost(i: Input) {
    !i.radioOn && i.gpsFresh
  }

  lemma LostHandle(b: Build, c: Craft, nav: bool, i: Input)
    requires !i.radioOn && !OnGround(c.state)
    ensures nav || c.state == ReturnFlight || c.state == WaypointFlight ==> Handle(b, c, nav, i).state == ReturnFlight
    ensures Handle(b, c, nav, i).state == ReturnFlight || Handle(b, c, nav, i).state == StabilizedFlight
  {
  }

  /** One heartbeat without radio: a synchronous one ends in return, and return is kept. */
  lemma LostBeat(b: Build, f: Flight, i: Input)
    requires Lost(i) && !OnGround(f.craft.state) && f.counter <= 20
    ensures var g := Heartbeat(b, f, i);
      (f.counter == 20 || f.craft.state == ReturnFlight ==> g.craft.state == ReturnFlight) &&
      !OnGround(g.craft.state) && g.counter == if f.counter == 20 then 0 else f.counter + 1
  {
    hide Handle, CheckSet;
    var c := f.craft.(flags := CheckSet(f.craft.flags, i));
    LostHandle(b, c, i.gpsFresh, i);
    LostHandle(b, c, f.navCapable, i);
  }

  /** Signal lost: the return state is entered by the next synchronous heartbeat, at most 21 away, and kept. */
  lemma {:induction false} ReturnsHome(b: Build, f: Flight, inputs: seq<Input>)
    requires !OnGround(f.craft.state) && f.counter <= 20 && forall i <- inputs :: Lost(i)
    ensures |inputs| >= 21 - f.counter || f.craft.state == ReturnFlight ==> Fly(b, f, inputs).craft.state == ReturnFlight
    ensures |inputs| < 21 - f.counter ==> Fly(b, f, inputs).counter == f.counter + |inputs|
    ensures !OnGround(Fly(b, f, inputs).craft.state) && Fly(b, f, inputs).counter <= 20
    decreases |inputs|
  {
    hide Heartbeat, Lost;
    if inputs != [] {
      var front := inputs[..|inputs| - 1];
      ReturnsHome(b, f, front);
      assert Lost(inputs[|inputs| - 1]);
      LostBeat(b, Fly(b, f, front), inputs[|inputs| - 1]);
    }
  }

  // ---------------------------------------------------------------- signal regained

  /** The flags of the position the switch had when the radio was last on. */
  function LastWanted(before: Request, inputs: seq<Input>): Request {
    if inputs == [] then before
    else if inputs[|inputs| - 1].radioOn then Flags(inputs[|inputs| - 1].wanted)
    else LastWanted(before, inputs[..|inputs| - 1])
  }

  lemma HandleKeepsFlags(b: Build, c: Craft, nav: bool, i: Input)
    ensures var d := Handle(b, c, nav, i);
      d.flags.request == c.flags.request && d.flags.last == c.flags.last && (i.radioOn ==> d.flags == c.flags) &&
      (c.flags.hold ==> d.flags.hold)
  {
  }

  lemma BeatRemembers(b: Build, f: Flight, i: Input)
    ensures Heartbeat(b, f, i).craft.flags.last == if i.radioOn then Flags(i.wanted) else f.craft.flags.last
  {
    hide Handle, Flags;
    var c := f.craft.(flags := CheckSet(f.craft.flags, i));
    HandleKeepsFlags(b, c, i.gpsFresh, i);
    HandleKeepsFlags(b, c, f.navCapable, i);
  }

  /** Under a hold or not, the remembered flags are those of the last position seen by radio. */
  lemma {:induction false} Remembers(b: Build, f: Flight, inputs: seq<Input>)
    ensures Fly(b, f, inputs).craft.flags.last == LastWanted(f.craft.flags.last, inputs)
    decreases |inputs|
  {
    hide Heartbeat, Flags;
    if inputs != [] {
      Remembers(b, f, inputs[..|inputs| - 1]);
      BeatRemembers(b, Fly(b, f, inputs[..|inputs| - 1]), inputs[|inputs| - 1]);
    }
  }

  /** One heartbeat under a hold: it lasts exactly until the radio is on with the switch elsewhere. */
  lemma HoldBeat(b: Build, f: Flight, i: Input)
    requires Sound(b, f.craft) && f.counter <= 20 && b.standbyPause > 6 && f.craft.flags.hold
    ensures var g := Heartbeat(b, f, i).craft;
      var moved := i.radioOn && Flags(i.wanted) != f.craft.flags.last;
      g.flags.hold == !moved && (g.flags.hold ==> g.state == ReturnFlight) &&
      (moved ==> g.flags.request == Flags(i.wanted))
  {
    hide Handle, Controlled, StartedUp, Waggles;
    HeartbeatSound(b, f, i);
    var c := f.craft.(flags := CheckSet(f.craft.flags, i));
    HandleKeepsFlags(b, c, i.gpsFresh, i);
    HandleKeepsFlags(b, c, f.navCapable, i);
  }

  /** While the switch stays where it was, regaining the signal does not end the return. */
  lemma {:induction false} HoldLasts(b: Build, f: Flight, inputs: seq<Input>)
    requires Sound(b, f.craft) && f.counter <= 20 && f.craft.flags.hold && b.standbyPause > 6
    requires forall i <- inputs :: i.radioOn ==> Flags(i.wanted) == f.craft.flags.last
    ensures var g := Fly(b, f, inputs);
      g.craft.state == ReturnFlight && g.craft.flags.hold && g.craft.flags.last == f.craft.flags.last &&
      Sound(b, g.craft) && g.counter <= 20
    decreases |inputs|
  {
    hide Heartbeat, Flags, Controlled, StartedUp, Waggles;
    if inputs != [] {
      var front, i := inputs[..|inputs| - 1], inputs[|inputs| - 1];
      HoldLasts(b, f, front);
      assert i in inputs;
      var g := Fly(b, f, front);
      HoldBeat(b, g, i);
      BeatRemembers(b, g, i);
      HeartbeatSound(b, g, i);
    }
  }

  // ---------------------------------------------------------------- the switch is obeyed

  /** The radio is on and the switch in this position; for autonomous flight there is a GPS position. */
  predicate Asks(i: Input, mode: Mode) {
    i.radioOn && i.wanted == mode && (mode == Autonomous ==> i.gpsFresh)
  }

  function FlightOf(mode: Mode): State {
    match mode
    case Manual => ManualFlight
    case Stabilized => StabilizedFlight
    case Autonomous => WaypointFlight
  }

  lemma AskedHandle(b: Build, c: Craft, nav: bool, i: Input, mode: Mode)
    requires i.radioOn && !OnGround(c.state) && c.flags.request == Flags(mode)
    ensures var d := Handle(b, c, nav, i);
      d.flags == c.flags && !OnGround(d.state) &&
      (mode != Autonomous || nav || c.state == WaypointFlight ==> d.state == FlightOf(mode))
  {
  }

  lemma AskedBeat(b: Build, f: Flight, i: Input, mode: Mode)
    requires Asks(i, mode) && !OnGround(f.craft.state) && f.counter <= 20 && !f.craft.flags.hold
    ensures var g := Heartbeat(b, f, i);
      (f.counter == 20 || f.craft.state == FlightOf(mode) ==> g.craft.state == FlightOf(mode)) &&
      !OnGround(g.craft.state) && !g.craft.flags.hold && g.counter == if f.counter == 20 then 0 else f.counter + 1
  {
    hide Handle;
    var c := f.craft.(flags := CheckSet(f.craft.flags, i));
    AskedHandle(b, c, i.gpsFresh, i, mode);
    AskedHandle(b, c, f.navCapable, i, mode);
  }

  /**
   Out of a hold the pilot has the flight the switch asks for -- manual, stabilized or waypoint -- by the next
   synchronous heartbeat, whatever the state, and keeps it.
   */
  lemma {:induction false} PilotObeyed(b: Build, f: Flight, inputs: seq<Input>, mode: Mode)
    requires !OnGround(f.craft.state) && f.counter <= 20 && !f.craft.flags.hold && forall i <- inputs :: Asks(i, mode)
    ensures |inputs| >= 21 - f.counter || f.craft.state == FlightOf(mode) ==> Fly(b, f, inputs).craft.state == FlightOf(mode)
    ensures |inputs| < 21 - f.counter ==> Fly(b, f, inputs).counter == f.counter + |inputs|
    ensures var g := Fly(b, f, inputs); !OnGround(g.craft.state) && g.counter <= 20 && !g.craft.flags.hold
    decreases |inputs|
  {
    hide Heartbeat, Asks, FlightOf;
    if inputs != [] {
      var front := inputs[..|inputs| - 1];
      PilotObeyed(b, f, front, mode);
      assert Asks(inputs[|inputs| - 1], mode);
      AskedBeat(b, Fly(b, f, front), inputs[|inputs| - 1], mode);
    }
  }

  // ---------------------------------------------------------------- waypoint flight is asked for

  lemma WaypointHandle(b: Build, c: Craft, nav: bool, i: Input)
    requires Handle(b, c, nav, i).state == WaypointFlight
    ensures c.state == WaypointFlight || (i.radioOn && c.flags.request.home)
  {
  }

  lemma WaypointBeat(b: Build, f: Flight, i: Input)
    requires Heartbeat(b, f, i).craft.state == WaypointFlight
    ensures f.craft.state == WaypointFlight || (i.radioOn && i.wanted == Autonomous)
  {
    hide Handle;
    var c := f.craft.(flags := CheckSet(f.craft.flags, i));
    var nav := if f.counter >= 20 then i.gpsFresh else f.navCapable;
    if Handle(b, c, nav, i).state == WaypointFlight { WaypointHandle(b, c, nav, i); }
  }

  lemma {:induction false} WaypointIsAskedFor(b: Build, nav: bool, inputs: seq<Input>) returns (k: nat)
    requires Fly(b, PowerOn(b, nav), inputs).craft.state == WaypointFlight
    ensures k < |inputs| && inputs[k].radioOn && inputs[k].wanted == Autonomous
    decreases |inputs|
  {
    hide Heartbeat;
    if inputs == [] {
      assert false;
    } else {
      var n := |inputs| - 1;
      var f := Fly(b, PowerOn(b, nav), inputs[..n]);
      WaypointBeat(b, f, inputs[n]);
      k := n;
      if f.craft.state == WaypointFlight { k := WaypointIsAskedFor(b, nav, inputs[..n]); }
    }
  }

  /** At heartbeat `k` the radio was on, and the polls so far had toggled the switch twice in time. */
  ghost predicate ToggledAt(inputs: seq<Input>, polls: seq<Level>, k: nat, m: Marks)
    requires |polls| == |inputs|
  {
    k < |inputs| && inputs[k].radioOn && AutonomousSince(polls[..k + 1], m)
  }

  /**
   With the two-position switch polled once before every heartbeat, no run is in waypoint flight
   unless the switch was toggled twice in time, out of stabilized, by some heartbeat with the radio on.
   */
  lemma WaypointNeedsToggles(b: Build, nav: bool, inputs: seq<Input>, polls: seq<Level>)
    requires |polls| == |inputs| && forall j :: 0 <= j < |inputs| ==> inputs[j].wanted == After(polls[..j + 1]).request
    requires Fly(b, PowerOn(b, nav), inputs).craft.state == WaypointFlight
    ensures exists k: nat, m: Marks :: ToggledAt(inputs, polls, k, m)
  {
    hide Fly;
    hide After;
    hide AutonomousSince;
    var k := WaypointIsAskedFor(b, nav, inputs);
    AutonomousIff(polls[..k + 1]);
    var m :| AutonomousSince(polls[..k + 1], m);
    assert ToggledAt(inputs, polls, k, m);
  }
}
