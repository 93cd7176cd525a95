/** The variables behind the flight mode machine, changed in place by the heartbeat. */
module FlightComputer {
  import opened ModeSwitch
  import opened FlightStates

  class Computer {
    const build: Build
    var stateS: State
    var counter: nat
    var calibTimer: int
    var standbyTimer: int
    var waggle: int
    var steering: bool
    var feedback: bool
    var throttleHold: bool
    var pitchHold: bool
    var plan: Plan
    var request: Request
    var oldRtlFlags: Request
    var rtlHold: bool
    var asap: bool
    var navCapable: bool
    var deadReckon: bool
    var origins: nat
    var trims: nat

    ghost function Body(): Craft
      reads this
    {
      Craft(stateS, ModeFlags(request, oldRtlFlags, rtlHold), Control(steering, feedback, throttleHold, pitchHold, plan),
            Progress(calibTimer, standbyTimer, waggle, deadReckon, origins, trims))
    }

    ghost function View(): Flight
      reads this
    {
      Flight(counter, asap, navCapable, Body())
    }

    /** `init_states` on fresh variables. */
    constructor (b: Build, nav: bool)
      ensures build == b && View() == PowerOn(b, nav)
    {
      build := b;
      stateS, counter, calibTimer, standbyTimer, waggle := Start, 0, b.calibPause, b.standbyPause, 0;
      steering, feedback, throttleHold, pitchHold, plan := false, false, false, false, NoPlan;
      request, oldRtlFlags, rtlHold := NOTHING, NOTHING, false;
      asap, navCapable, deadReckon, origins, trims := false, nav, false, 0, 0;
    }

    /** `udb_callback_radio_did_turn_off`. */
    method RadioTurnedOff()
      modifies `asap
      ensures View() == old(View()).(asap := true)
    {
      asap := true;
    }

    /** `flight_mode_switch_check_set`. */
    method CheckModeSwitch(i: Input)
      modifies `request, `oldRtlFlags, `rtlHold
      ensures Body() == old(Body()).(flags := CheckSet(old(Body().flags), i))
    {
      if i.radioOn {
        request := Request(i.wanted == Manual, i.wanted == Stabilized, i.wanted == Autonomous);
        if rtlHold {
          if request == oldRtlFlags {
            request := NOTHING;
          } else {
            oldRtlFlags := request;
            rtlHold := false;
          }
        } else {
          oldRtlFlags := request;
        }
      } else {
        request := Request(false, false, true);
      }
    }

    method ReleaseControl()
      modifies `steering, `feedback, `throttleHold, `pitchHold
      ensures Body() == old(Body()).(control := Released(old(Body().control)))
    {
      steering, feedback, throttleHold, pitchHold := false, false, false, false;
    }

    /** `ent_calibrateS`. */
    method EntCalibrate()
      modifies `stateS, `steering, `feedback, `throttleHold, `pitchHold, `waggle, `calibTimer
      ensures Body() == EnterCalibrate(build, old(Body()))
    {
      ReleaseControl();
      waggle := 0;
      stateS := Calibrate;
      calibTimer := build.calibPause;
    }

    /** `ent_acquiringS`. */
    method EntAcquiring()
      modifies `stateS, `steering, `feedback, `throttleHold, `pitchHold, `waggle, `standbyTimer, `trims
      ensures Body() == EnterAcquiring(build, old(Body()))
    {
      ReleaseControl();
      trims := trims + 1;
      waggle := WAGGLE_SIZE;
      stateS := Acquiring;
      standbyTimer := build.standbyPause;
    }

    /** `ent_manualS`. */
    method EntManual()
      modifies `stateS, `steering, `feedback, `throttleHold, `pitchHold, `waggle
      ensures Body() == EnterManual(old(Body()))
    {
      ReleaseControl();
      waggle := 0;
      stateS := ManualFlight;
    }

    /** `ent_stabilizedS`. */
    method EntStabilized(i: Input)
      modifies `stateS, `steering, `feedback, `throttleHold, `pitchHold, `waggle
      ensures Body() == EnterStabilized(old(Body()), i)
    {
      steering, feedback := false, true;
      throttleHold := i.stabilizedHold == HoldFull;
      pitchHold := i.stabilizedHold == HoldFull || i.stabilizedHold == PitchOnly;
      waggle := 0;
      stateS := StabilizedFlight;
    }

    /** `ent_waypointS`. */
    method EntWaypoint(i: Input)
      modifies `stateS, `steering, `feedback, `throttleHold, `pitchHold, `waggle, `plan
      ensures Body() == EnterWaypoint(old(Body()), i)
    {
      steering, feedback := true, true;
      throttleHold := i.waypointHold == HoldFull;
      pitchHold := i.waypointHold == HoldFull || i.waypointHold == PitchOnly;
      plan := MainPlan;
      waggle := 0;
      stateS := WaypointFlight;
    }

    /** `ent_returnS`. */
    method EntReturn(i: Input)
      modifies `stateS, `steering, `feedback, `throttleHold, `pitchHold, `waggle, `plan, `rtlHold
      ensures Body() == EnterReturn(build, old(Body()), i)
    {
      steering, feedback := true, true;
      throttleHold := i.waypointHold == HoldFull;
      pitchHold := i.waypointHold == HoldFull || i.waypointHold == PitchOnly;
      if build.failsafeHold { rtlHold := true; }
      plan := RtlPlan;
      waggle := 0;
      stateS := ReturnFlight;
    }

    method RunCalibrate(i: Input)
      modifies this
      ensures Body() == OnCalibrate(build, old(Body()), i)
      ensures counter == old(counter) && asap == old(asap) && navCapable == old(navCapable)
    {
      if i.radioOn {
        calibTimer := calibTimer - 1;
        if calibTimer <= 0 { EntAcquiring(); }
      } else {
        EntCalibrate();
      }
    }

    method RunAcquiring(i: Input)
      modifies this
      ensures Body() == OnAcquiring(old(Body()), navCapable, i)
      ensures counter == old(counter) && asap == old(asap) && navCapable == old(navCapable)
    {
      if navCapable && i.magnetOk {
        if i.radioOn {
          if i.startupOk {
            if standbyTimer == NUM_WAGGLES + 1 {
              waggle := WAGGLE_SIZE;
            } else if standbyTimer <= NUM_WAGGLES {
              waggle := -waggle;
            } else {
              waggle := 0;
            }
            standbyTimer := standbyTimer - 1;
            if standbyTimer == 6 {
              origins := origins + 1;
            } else if standbyTimer == 2 {
              deadReckon := true;
            } else if standbyTimer <= 0 {
              EntManual();
            }
          }
        } else {
          waggle := 0;
        }
      } else {
        waggle := 0;
      }
    }

    method RunInFlight(i: Input)
      requires !OnGround(stateS)
      modifies this
      ensures Body() == Handle(build, old(Body()), navCapable, i)
      ensures counter == old(counter) && asap == old(asap) && navCapable == old(navCapable)
    {
      hide EnterManual, EnterStabilized, EnterWaypoint, EnterReturn;
      match stateS {
        case ManualFlight =>
          if i.radioOn {
            if request.home && navCapable { EntWaypoint(i); } else if request.auto { EntStabilized(i); }
          } else if navCapable {
            EntReturn(i);
          } else {
            EntStabilized(i);
          }
        case StabilizedFlight =>
          if i.radioOn {
            if request.home && navCapable { EntWaypoint(i); } else if request.man { EntManual(); }
          } else if navCapable {
            EntReturn(i);
          }
        case WaypointFlight =>
          if i.radioOn {
            if request.man { EntManual(); } else if request.auto { EntStabilized(i); }
          } else {
            EntReturn(i);
          }
        case ReturnFlight =>
          if i.radioOn {
            if request.man {
              EntManual();
            } else if request.auto {
              EntStabilized(i);
            } else if request.home && navCapable {
              EntWaypoint(i);
            }
          } else if build.failsafeHold {
            rtlHold := true;
          }
      }
    }

    /** The handler of the current state runs. */
    method RunState(i: Input)
      modifies this
      ensures Body() == Handle(build, old(Body()), navCapable, i)
      ensures counter == old(counter) && asap == old(asap) && navCapable == old(navCapable)
    {
      hide EnterCalibrate, OnCalibrate, OnAcquiring, OnManual, OnStabilized, OnWaypoint, OnReturn;
      if stateS == Start {
        EntCalibrate();
      } else if stateS == Calibrate {
        RunCalibrate(i);
      } else if stateS == Acquiring {
        RunAcquiring(i);
      } else {
        RunInFlight(i);
      }
    }

    /** `udb_heartbeat_40hz_callback`. */
    method Beat(i: Input)
      modifies this
      ensures View() == Heartbeat(build, if i.turnedOff then old(View()).(asap := true) else old(View()), i)
    {
      hide Handle, CheckSet;
      if i.turnedOff { RadioTurnedOff(); }
      CheckModeSwitch(i);
      if counter >= 20 {
        counter := 0;
        navCapable := i.gpsFresh;
        RunState(i);
      } else {
        counter := counter + 1;
        if asap { RunState(i); }
      }
      asap := false;
    }
  }
}
