/** The flight mode machine as a table: where one run of it leads from each state, with which control, and how it starts up. */
module FlightTable {
  import opened ModeSwitch
  import opened FlightStates

  // ---------------------------------------------------------------- in flight

  /** Where one run leads in flight: the switch decides while the radio is on, else the aircraft returns if it can navigate. */
  function Target(s: State, held: bool, nav: bool, i: Input): State {
    if i.radioOn then
      if held then s
      else if i.wanted == Manual then ManualFlight
      else if i.wanted == Stabilized then StabilizedFlight
      else if nav || s == WaypointFlight then WaypointFlight
      else s
    else if nav || s == WaypointFlight || s == ReturnFlight then ReturnFlight
    else StabilizedFlight
  }

  /** A hold that the switch has not ended. */
  predicate StillHeld(f: ModeFlags, i: Input) {
    f.hold && i.radioOn && Flags(i.wanted) == f.last
  }

  lemma FlagsApart(m: Mode, n: Mode)
    ensures Flags(m) == Flags(n) <==> m == n
  {
  }

  lemma HandleGoes(b: Build, f: ModeFlags, c: Craft, nav: bool, i: Input)
    requires !OnGround(c.state) && c.flags == CheckSet(f, i)
    ensures Handle(b, c, nav, i).state == Target(c.state, StillHeld(f, i), nav, i)
  {
    FlagsApart(i.wanted, Manual);
    FlagsApart(i.wanted, Stabilized);
  }

  /** Does a heartbeat run the state machine, and what does it know of the GPS then? */
  predicate MachineRuns(f: Flight, i: Input) {
    f.counter >= 20 || f.asap || i.turnedOff
  }

  function Navigable(f: Flight, i: Input): bool {
    if f.counter >= 20 then i.gpsFresh else f.navCapable
  }

  /** Every heartbeat in flight, from every state: the next state is the table's, on the 21st heartbeat or when signalled. */
  lemma BeatGoes(b: Build, f: Flight, i: Input)
    requires !OnGround(f.craft.state)
    ensures var g := Heartbeat(b, f, i);
      && g.craft.state == (if MachineRuns(f, i) then Target(f.craft.state, StillHeld(f.craft.flags, i), Navigable(f, i), i) else f.craft.state)
      && g.counter == (if f.counter >= 20 then 0 else f.counter + 1)
      && g.navCapable == Navigable(f, i) && !g.asap
  {
    hide Handle, Target, CheckSet, StillHeld;
    var c := f.craft.(flags := CheckSet(f.craft.flags, i));
    HandleGoes(b, f.craft.flags, c, i.gpsFresh, i);
    HandleGoes(b, f.craft.flags, c, f.navCapable, i);
  }

  /** What every heartbeat requests: to come home without radio, nothing under a hold, and else what the switch asks for. */
  lemma BeatRequests(b: Build, f: Flight, i: Input)
    ensures var r := Heartbeat(b, f, i).craft.flags.request;
      r == if !i.radioOn then Request(false, false, true)
           else if StillHeld(f.craft.flags, i) then Request(false, false, false)
           else match i.wanted
             case Manual => Request(true, false, false)
             case Stabilized => Request(false, true, false)
             case Autonomous => Request(false, false, true)
  {
    hide Handle;
    var c := f.craft.(flags := CheckSet(f.craft.flags, i));
    HandleKeepsFlags(b, c, i.gpsFresh, i);
    HandleKeepsFlags(b, c, f.navCapable, i);
  }

  lemma HandleHolds(b: Build, c: Craft, nav: bool, i: Input)
    ensures var d := Handle(b, c, nav, i);
      d.flags.hold == (c.flags.hold || (b.failsafeHold && !i.radioOn && d.state == ReturnFlight))
  {
  }

  /** A hold begins when the machine runs without radio and ends up returning, and ends when the switch is seen elsewhere. */
  lemma BeatHolds(b: Build, f: Flight, i: Input)
    ensures var g := Heartbeat(b, f, i).craft;
      g.flags.hold == if i.radioOn then StillHeld(f.craft.flags, i)
                      else f.craft.flags.hold || (b.failsafeHold && MachineRuns(f, i) && g.state == ReturnFlight)
  {
    hide Handle;
    var c := f.craft.(flags := CheckSet(f.craft.flags, i));
    HandleHolds(b, c, i.gpsFresh, i);
    HandleHolds(b, c, f.navCapable, i);
  }

  // ---------------------------------------------------------------- control

  /** Steering, feedback, holds and plan a state is entered with. */
  predicate EnteredWith(s: State, before: Control, c: Control, i: Input) {
    var altitude := match s
      case StabilizedFlight => i.stabilizedHold
      case WaypointFlight => i.waypointHold
      case ReturnFlight => i.waypointHold
      case _ => HoldNone;
    && c.steering == (s in {WaypointFlight, ReturnFlight})
    && c.feedback == (s in {StabilizedFlight, WaypointFlight, ReturnFlight})
    && c.throttleHold == (altitude == HoldFull)
    && c.pitchHold == (altitude in {PitchOnly, HoldFull})
    && c.plan == (if s == WaypointFlight then MainPlan else if s == ReturnFlight then RtlPlan else before.plan)
  }

  lemma HandleControls(b: Build, c: Craft, nav: bool, i: Input)
    requires Sound(b, c)
    ensures var d := Handle(b, c, nav, i);
      if d.state == c.state then d.control == c.control else EnteredWith(d.state, c.control, d.control, i)
  {
    hide StartedUp, Waggles;
  }

  /** A heartbeat that changes the state sets the control for it, altitude holds by the settings of that moment; no other changes it. */
  lemma BeatControls(b: Build, f: Flight, i: Input)
    requires Sound(b, f.craft) && b.standbyPause > 6
    ensures var (c, d) := (f.craft, Heartbeat(b, f, i).craft);
      if d.state == c.state then d.control == c.control else EnteredWith(d.state, c.control, d.control, i)
  {
    hide Handle, Sound, CheckSet, Held;
    CheckSetSound(b, f.craft, i);
    var c := f.craft.(flags := CheckSet(f.craft.flags, i));
    HandleControls(b, c, i.gpsFresh, i);
    HandleControls(b, c, f.navCapable, i);
  }

  // ---------------------------------------------------------------- start-up

  /** The machine run `n` times, finding everything it waits for. */
  function Prepared(b: Build, c: Craft, i: Input, n: nat): Craft {
    if n == 0 then c else Handle(b, Prepared(b, c, i, n - 1), true, i)
  }

  predicate Fine(i: Input) {
    i.radioOn && i.startupOk && i.magnetOk
  }

  /** Calibration: `calibTimer` runs with the radio on. */
  lemma {:induction false} Calibrates(b: Build, c: Craft, i: Input, n: nat)
    requires c.state == Calibrate && i.radioOn && n < c.progress.calibTimer
    ensures Prepared(b, c, i, n) == c.(progress := c.progress.(calibTimer := c.progress.calibTimer - n))
    ensures var d := Prepared(b, c, i, n + 1);
      if n + 1 < c.progress.calibTimer then d.state == Calibrate
      else d.state == Acquiring && d.progress.standbyTimer == b.standbyPause && d.progress.trims == c.progress.trims + 1
           && d.progress.waggle == 300 && d.progress.origins == c.progress.origins && d.progress.deadReckon == c.progress.deadReckon
    decreases n
  {
    if n > 0 { Calibrates(b, c, i, n - 1); }
  }

  /** The elevator while the standby pause runs: still, and four waggles to alternate sides at its end. */
  function WaggleAt(timer: int): int {
    if timer > 4 then 0 else if timer == 4 || timer == 2 then 300 else -300
  }

  /** Acquiring: `standbyTimer` good runs, the origin saved with 6 to go, dead reckoning from 2 to go, then manual flight. */
  lemma {:induction false} Acquires(b: Build, c: Craft, i: Input, n: nat)
    requires c.state == Acquiring && Fine(i) && c.progress.standbyTimer > 6 && 1 <= n <= c.progress.standbyTimer
    ensures var (d, t) := (Prepared(b, c, i, n), c.progress.standbyTimer - n);
      && d.progress.origins == c.progress.origins + (if t <= 6 then 1 else 0)
      && d.progress.deadReckon == (c.progress.deadReckon || t <= 2)
      && d.progress.trims == c.progress.trims
      && (if t > 0 then d.state == Acquiring && d.progress.standbyTimer == t && d.progress.waggle == WaggleAt(t)
          else d.state == ManualFlight && d.progress.waggle == 0)
    decreases n
  {
    assert Prepared(b, c, i, n) == Handle(b, Prepared(b, c, i, n - 1), true, i);
    if n > 1 { Acquires(b, c, i, n - 1); }
  }

  /** From power-on: calibration, then standby, then manual flight, after exactly so many runs and no fewer. */
  lemma StartUpTakes(b: Build, i: Input, n: nat)
    requires b.calibPause > 0 && b.standbyPause > 6 && Fine(i)
    ensures var s := Prepared(b, PowerOn(b, false).craft, i, n).state;
      && (s == Start <==> n == 0)
      && (s == Calibrate <==> 1 <= n <= b.calibPause)
      && (s == Acquiring <==> b.calibPause < n <= b.calibPause + b.standbyPause)
      && (n == b.calibPause + b.standbyPause + 1 ==> s == ManualFlight)
    decreases n
  {
    hide Handle;
    var c := PowerOn(b, false).craft;
    FirstRun(b, c, i);
    if n > 0 { PreparedAdd(b, c, i, 1, n - 1); }
    var d := Prepared(b, c, i, 1);
    if 1 <= n <= b.calibPause { Calibrates(b, d, i, n - 1); }
    Calibrates(b, d, i, b.calibPause - 1);
    var e := Prepared(b, d, i, b.calibPause);
    if n > b.calibPause + 1 {
      PreparedAdd(b, d, i, b.calibPause, n - 1 - b.calibPause);
      if n <= b.calibPause + b.standbyPause + 1 {
        Acquires(b, e, i, n - 1 - b.calibPause);
      } else {
        PreparedAdd(b, e, i, b.standbyPause, n - 1 - b.calibPause - b.standbyPause);
        Acquires(b, e, i, b.standbyPause);
        StaysAloft(b, Prepared(b, e, i, b.standbyPause), i, n - 1 - b.calibPause - b.standbyPause);
      }
    }
  }

  /** From power-on, with no signal from the radio, the machine first runs at the 21st heartbeat. */
  lemma {:induction false} FirstBeats(b: Build, nav: bool, inputs: seq<Input>)
    requires forall i <- inputs :: !i.turnedOff
    ensures |inputs| <= 20 ==> var f := Fly(b, PowerOn(b, nav), inputs); f.craft.state == Start && f.counter == |inputs| && !f.asap
    ensures |inputs| == 21 ==> Fly(b, PowerOn(b, nav), inputs).craft.state == Calibrate
    decreases |inputs|
  {
    hide CheckSet;
    if inputs != [] {
      FirstBeats(b, nav, inputs[..|inputs| - 1]);
      assert !inputs[|inputs| - 1].turnedOff;
    }
  }

  lemma FirstRun(b: Build, c: Craft, i: Input)
    requires c.state == Start
    ensures var d := Prepared(b, c, i, 1); d.state == Calibrate && d.progress.calibTimer == b.calibPause
  {
    assert Prepared(b, c, i, 1) == Handle(b, Prepared(b, c, i, 0), true, i);
  }

  lemma {:induction false} PreparedAdd(b: Build, c: Craft, i: Input, k: nat, n: nat)
    ensures Prepared(b, c, i, k + n) == Prepared(b, Prepared(b, c, i, k), i, n)
    decreases n
  {
    hide Handle;
    if n > 0 { PreparedAdd(b, c, i, k, n - 1); }
  }

  lemma {:induction false} StaysAloft(b: Build, c: Craft, i: Input, n: nat)
    requires !OnGround(c.state)
    ensures !OnGround(Prepared(b, c, i, n).state)
    decreases n
  {
    hide Handle;
    if n > 0 {
      StaysAloft(b, c, i, n - 1);
      HandleOnward(b, Prepared(b, c, i, n - 1), true, i);
    }
  }

  /** On the ground without the radio: calibration starts over; without radio, GPS or magnetometer the standby pause stands still. */
  lemma GroundWaits(b: Build, c: Craft, nav: bool, i: Input)
    requires OnGround(c.state) && c.state != Start
    ensures var d := Handle(b, c, nav, i);
      && (c.state == Calibrate && !i.radioOn ==> d.state == Calibrate && d.progress.calibTimer == b.calibPause)
      && (c.state == Acquiring && !(nav && i.magnetOk && i.radioOn && i.startupOk) ==>
            d.state == Acquiring && d.progress.(waggle := 0) == c.progress.(waggle := 0) &&
            d.progress.waggle == if nav && i.magnetOk && i.radioOn then c.progress.waggle else 0)
  {
  }
}
