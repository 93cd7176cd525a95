/**
 The interpreter as it is written: static variables, a fixed array of stack frames and
 loops over the instruction array, each method refining the machine functions.
 */
module LogoInterpreter {
  import opened FixedWidth
  import opened LogoMachine
  import opened LogoCycle

  const INJECT_READY := 255

  class Interpreter {
    const instructions: seq<Instr>
    const rtlInstructions: seq<Instr>
    const sense: nat -> int            // the sensor readings to come
    var current: seq<Instr>            // currentInstructionSet
    var instructionIndex: int
    const logoStack: array<Frame>
    var logoStackIndex: int
    var interruptIndex: int
    var interruptStackBase: int
    var instructionsProcessed: int
    var penState: int
    var cameraActive: bool             // currentTurtle == CAMERA
    var log: seq<Effect>
    var readings: nat
    var waypointIndex: int
    var injectInstr: Instr
    var injectPos: nat

    ghost predicate Valid()
      reads this, logoStack
    {
      && logoStack.Length == STACK_DEPTH
      && 0 <= logoStackIndex < STACK_DEPTH
      && 0 <= interruptStackBase
    }

    ghost function World(): LogoMachine.World
      reads this
    {
      LogoMachine.World(log, penState, cameraActive, interruptIndex, readings)
    }

    ghost function Frames(): seq<Frame>
      requires Valid()
      reads this, logoStack
    {
      logoStack[..logoStackIndex + 1]
    }

    ghost function Machine(): LogoMachine.Machine
      requires Valid()
      reads this, logoStack
    {
      LogoMachine.Machine(instructionIndex, Frames(), interruptStackBase, World())
    }

    ghost predicate Ready()
      reads this, logoStack
    {
      Valid() && Safe(current, Machine())
    }

    constructor (instructions: seq<Instr>, rtlInstructions: seq<Instr>, sense: nat -> int)
      ensures Valid() && fresh(logoStack) && current == instructions && injectPos == 0
      ensures this.instructions == instructions && this.rtlInstructions == rtlInstructions && this.sense == sense
    {
      this.instructions, this.rtlInstructions, this.sense := instructions, rtlInstructions, sense;
      current, instructionIndex := instructions, 0;
      logoStack, logoStackIndex := new Frame[STACK_DEPTH](_ => IfFrame), 0;
      interruptIndex, interruptStackBase, instructionsProcessed := 0, 0, 0;
      penState, cameraActive, log, readings, waypointIndex := 0, false, [], 0, 0;
      injectInstr, injectPos := Instr(0, false, false, 0, 0), 0;
    }

    // -------------------------------------------------------------- scans

    method FindStartOfSubroutine(subcmd: nat) returns (r: int)
      ensures r == FindStart(current, subcmd)
    {
      if subcmd == 0 { return -1; }
      var i := 0;
      while i < |current|
        invariant 0 <= i <= |current|
        invariant FindFrom(current, 0, subcmd) == FindFrom(current, i, subcmd)
      {
        if current[i].cmd == 1 && current[i].subcmd == 2 && current[i].arg == subcmd {
          return i;
        }
        i := i + 1;
      }
      return -1;
    }

    method FindEndOfCurrentIfBlock() returns (r: nat)
      requires 0 <= instructionIndex < |current|
      ensures r == ScanEnd(current, instructionIndex + 1, 0)
    {
      var nestedDepth, i := 0, instructionIndex + 1;
      while i < |current|
        invariant instructionIndex + 1 <= i <= |current| && 0 <= nestedDepth
        invariant ScanEnd(current, instructionIndex + 1, 0) == ScanEnd(current, i, nestedDepth)
      {
        if current[i].cmd == 1 && current[i].subcmd == 0 {
          nestedDepth := nestedDepth + 1;
        } else if 14 <= current[i].cmd <= 19 {
          nestedDepth := nestedDepth + 1;
        } else if nestedDepth > 0 && current[i].cmd == 1 && current[i].subcmd == 1 {
          nestedDepth := nestedDepth - 1;
        } else if nestedDepth == 0 && current[i].cmd == 1 && (current[i].subcmd == 1 || current[i].subcmd == 3) {
          return i;
        }
        i := i + 1;
      }
      return 0;
    }

    method CurrentParameterFrame() returns (r: nat)
      requires Valid() && IsStack(Frames())
      ensures r == ParamFrame(Frames()) && r <= logoStackIndex
    {
      var i := logoStackIndex;
      ghost var frames := Frames();
      assert frames[ParamFrame(frames)].SubFrame?;
      while i >= 0
        invariant -1 <= i <= logoStackIndex
        invariant forall j :: 0 < j && i < j <= logoStackIndex ==> !frames[j].SubFrame?
      {
        if logoStack[i].SubFrame? {
          assert frames[i].SubFrame?;
          return i;
        }
        i := i - 1;
      }
      return 0;
    }

    // -------------------------------------------------------------- the stack

    method PushFrame(f: Frame)
      requires Valid()
      modifies this`logoStackIndex, logoStack
      ensures Valid() && Frames() == Push(old(Frames()), f)
    {
      if logoStackIndex < STACK_DEPTH - 1 {
        logoStackIndex := logoStackIndex + 1;
        logoStack[logoStackIndex] := f;
      }
    }

    method SetFrameArg(k: nat, v: int)
      requires Valid() && k <= logoStackIndex && !logoStack[k].IfFrame?
      modifies logoStack
      ensures Valid()
      ensures Frames() == old(Frames())[k := if old(logoStack[k]).SubFrame? then SubFrame(old(logoStack[k]).ret, v) else RepeatFrame(old(logoStack[k]).ret, v)]
    {
      if logoStack[k].SubFrame? {
        logoStack[k] := SubFrame(logoStack[k].ret, v);
      } else {
        logoStack[k] := RepeatFrame(logoStack[k].ret, v);
      }
    }

    // -------------------------------------------------------------- instructions

    method RestartProgram()
      requires Valid() && IsStack(Frames())
      modifies this`instructionIndex, this`logoStackIndex, this`interruptStackBase
      ensures Valid() && Machine() == Restart(old(Machine()))
    {
      instructionIndex := logoStack[0].ret;
      logoStackIndex := 0;
      interruptStackBase := 0;
      assert old(Frames())[..1] == Frames();
    }

    method ExecuteEnd()
      requires Valid() && IsStack(Frames())
      modifies this`instructionIndex, this`logoStackIndex, this`interruptStackBase, this`instructionsProcessed, logoStack
      ensures Valid() && Machine() == End(old(Machine()))
      ensures instructionsProcessed ==
        if EndsInterrupt(old(Machine()), Instr(1, false, false, 1, 0)) then MAX_PER_CYCLE else old(instructionsProcessed)
    {
      ghost var m := Machine();
      if logoStackIndex > 0 {
        var top := logoStack[logoStackIndex];
        assert m.frames[|m.frames| - 1] == top;
        if top.RepeatFrame? {
          if top.arg > 1 || top.arg == -1 {
            if top.arg != -1 {
              SetFrameArg(logoStackIndex, top.arg - 1);
            }
            instructionIndex := logoStack[logoStackIndex].ret;
            assert Frames() == Pop(m.frames) + [logoStack[logoStackIndex]];
          } else {
            logoStackIndex := logoStackIndex - 1;
            assert Frames() == Pop(m.frames);
          }
        } else if top.SubFrame? {
          instructionIndex := top.ret;
          logoStackIndex := logoStackIndex - 1;
          assert Frames() == Pop(m.frames);
          if logoStackIndex < interruptStackBase {
            interruptStackBase := 0;
            instructionsProcessed := MAX_PER_CYCLE;
          }
        } else {
          logoStackIndex := logoStackIndex - 1;
          assert Frames() == Pop(m.frames);
        }
      } else {
        RestartProgram();
      }
    }

    method ExecuteBlockCommand(i: Instr)
      requires Ready() && i.cmd == 1
      modifies this`instructionIndex, this`logoStackIndex, this`interruptStackBase, this`instructionsProcessed, logoStack
      ensures Valid() && Machine() == Perform(current, sense, old(Machine()), i)
      ensures instructionsProcessed ==
        if EndsInterrupt(old(Machine()), i) then MAX_PER_CYCLE else old(instructionsProcessed)
    {
      match i.subcmd
      case 0 => PushFrame(RepeatFrame(S14(instructionIndex), i.arg));
      case 1 => ExecuteEnd();
      case 2 => RestartProgram();
      case 3 =>
        ghost var m := Machine();
        assert m.frames[|m.frames| - 1] == logoStack[logoStackIndex];
        if logoStack[logoStackIndex].IfFrame? {
          instructionIndex := FindEndOfCurrentIfBlock();
          logoStackIndex := logoStackIndex - 1;
          assert Frames() == Pop(m.frames);
        }
      case _ =>
    }

    method ExecuteExec(i: Instr)
      requires Ready() && IsExec(i)
      modifies this`instructionIndex, this`logoStackIndex, this`interruptStackBase, logoStack
      ensures Valid() && Machine() == Perform(current, sense, old(Machine()), i)
    {
      instructionIndex := FindStartOfSubroutine(i.subcmd);
      logoStack[0] := SubFrame(S14(instructionIndex), logoStack[0].arg);
      logoStackIndex := 0;
      interruptStackBase := 0;
      assert Frames() == [logoStack[0]];
    }

    method ExecuteDo(i: Instr)
      requires Ready() && IsDo(i)
      modifies this`instructionIndex, this`logoStackIndex, logoStack
      ensures Valid() && Machine() == Perform(current, sense, old(Machine()), i)
    {
      PushFrame(SubFrame(S14(instructionIndex), i.arg));
      instructionIndex := FindStartOfSubroutine(i.subcmd);
    }

    method ValueFor(ident: nat) returns (v: int)
      requires Valid() && IsStack(Frames())
      modifies this`readings
      ensures v == Value(sense, old(World()), ident, Param(Frames()))
      ensures World() == AfterRead(old(World()), ident)
    {
      if 0 < ident <= NUM_INPUTS || DIST_TO_HOME <= ident <= WIND_FROM_ANGLE {
        v := S16(sense(readings));
        readings := readings + 1;
      } else if ident == PARAM {
        var k := CurrentParameterFrame();
        v := logoStack[k].arg;
      } else {
        v := 0;
      }
    }

    method ExecuteIf(i: Instr)
      requires Ready() && IsIf(i)
      modifies this`instructionIndex, this`logoStackIndex, this`readings, logoStack
      ensures Valid() && Machine() == Perform(current, sense, old(Machine()), i)
    {
      hide Cond, ScanEnd;
      var condTrue := Test(i);
      if condTrue {
        PushFrame(IfFrame);
      } else {
        instructionIndex := FindEndOfCurrentIfBlock();
        if current[instructionIndex].subcmd == 3 {
          PushFrame(IfFrame);
        }
      }
    }

    /** The value looked up and compared. */
    method Test(i: Instr) returns (condTrue: bool)
      requires Valid() && IsStack(Frames()) && IsIf(i)
      modifies this`readings
      ensures condTrue == Cond(sense, old(World()), Param(Frames()), i)
      ensures World() == AfterRead(old(World()), i.subcmd)
    {
      hide Value;
      var val := ValueFor(i.subcmd);
      condTrue :=
        if i.cmd == 14 then val == i.arg
        else if i.cmd == 15 then val != i.arg
        else if i.cmd == 16 then val > i.arg
        else if i.cmd == 17 then val < i.arg
        else if i.cmd == 18 then val >= i.arg
        else val <= i.arg;
    }

    method ExecuteParam(i: Instr)
      requires Valid() && IsStack(Frames()) && i.cmd == 9
      modifies logoStack
      ensures Valid() && Frames() == SetParam(old(Frames()), ActParam(sense, World(), Param(old(Frames())), i))
    {
      ghost var frames := Frames();
      var k := CurrentParameterFrame();
      assert frames[k] == logoStack[k];
      var v := logoStack[k].arg;
      match i.subcmd {
        case 0 => v := i.arg;
        case 1 => v := S16(v + i.arg);
        case 2 => v := S16(v * i.arg);
        case 3 => if i.arg != 0 { v := S16(TruncDiv(v, i.arg)); }
        case _ =>
      }
      SetFrameArg(k, v);
    }

    method ExecuteLoad(i: Instr)
      requires Valid() && IsStack(Frames()) && i.cmd == 13
      modifies this`readings, logoStack
      ensures Valid() && Frames() == SetParam(old(Frames()), ActParam(sense, old(World()), Param(old(Frames())), i))
      ensures World() == ActWorld(current, old(World()), i)
    {
      var k := CurrentParameterFrame();
      var v := ValueFor(i.subcmd);
      SetFrameArg(k, v);
    }

    /** Turtle, flag, speed, pen, active turtle and interrupt commands. */
    method ExecuteEffect(i: Instr) returns (fly: bool)
      requires i.cmd != 13
      modifies this`log, this`penState, this`cameraActive, this`interruptIndex
      ensures World() == ActWorld(current, old(World()), i)
      ensures fly == Flies(old(World()), i)
    {
      fly := i.doFly;
      if i.cmd == 7 {
        if i.subcmd == 0 {
          penState := S16(penState + 1);
        } else if i.subcmd == 1 {
          if penState > 0 { penState := penState - 1; }
        } else if i.subcmd == 2 {
          penState := if penState == 0 then 1 else 0;
          if penState == 0 { fly := true; }
        }
      } else if i.cmd == 8 {
        cameraActive := i.arg == CAMERA;
      } else if i.cmd == 12 {
        if i.subcmd == 1 {
          interruptIndex := FindStartOfSubroutine(U8(i.arg));
        } else if i.subcmd == 0 {
          interruptIndex := 0;
        }
      } else if HasEffect(i) {
        log := log + [Effect(cameraActive, i.cmd, i.subcmd, i.arg)];
      }
    }

    method ExecuteAction(i: Instr) returns (fly: bool)
      requires Ready() && IsAction(i)
      modifies this`log, this`penState, this`cameraActive, this`interruptIndex, this`readings, logoStack
      ensures Valid() && Machine() == Perform(current, sense, old(Machine()), i)
      ensures fly == Flies(old(World()), i)
    {
      hide ActParam;
      hide FindStart;
      ghost var m := Machine();
      if i.cmd == 13 {
        ExecuteLoad(i);
        fly := i.doFly;
      } else if i.cmd == 9 {
        ExecuteParam(i);
        fly := i.doFly;
        ActKeepsWorld(current, sense, m, i);
      } else {
        fly := ExecuteEffect(i);
        ActKeepsParam(current, sense, m, i);
      }
    }

    /** `process_one_instruction`: the parameter is resolved first, then one case per command. */
    method ProcessOneInstruction(raw: Instr) returns (fly: bool)
      requires Ready()
      modifies this`instructionIndex, this`logoStackIndex, this`interruptStackBase, this`instructionsProcessed,
               this`log, this`penState, this`cameraActive, this`interruptIndex, this`readings, logoStack
      ensures Valid() && Machine() == Execute(current, sense, old(Machine()), raw)
      ensures fly == StepFlies(old(Machine()), raw)
      ensures instructionsProcessed ==
        if EndsInterrupt(old(Machine()), raw) then MAX_PER_CYCLE else old(instructionsProcessed)
    {
      hide Perform;
      ghost var m := Machine();
      var i := raw;
      if i.useParam {
        var k := CurrentParameterFrame();
        i := i.(arg := logoStack[k].arg);
      }
      assert i == Resolve(m.frames, raw);
      ResolvedFlies(m, raw);
      fly := i.doFly;
      if i.cmd == 1 {
        ExecuteBlockCommand(i);
      } else if IsExec(i) {
        ExecuteExec(i);
      } else if IsDo(i) {
        ExecuteDo(i);
      } else if IsIf(i) {
        ExecuteIf(i);
      } else {
        fly := ExecuteAction(i);
      }
    }

    /** One turn of the processing loop. */
    method FetchAndExecute() returns (doFly: bool)
      requires Ready() && 0 <= instructionsProcessed < MAX_PER_CYCLE
      modifies this`instructionIndex, this`logoStackIndex, this`interruptStackBase, this`instructionsProcessed,
               this`log, this`penState, this`cameraActive, this`interruptIndex, this`readings, logoStack
      ensures Ready() && Machine() == Step(current, sense, old(Machine()))
      ensures doFly == StepFlies(old(Machine()), current[old(instructionIndex)])
      ensures instructionsProcessed ==
        (if EndsInterrupt(old(Machine()), current[old(instructionIndex)]) then MAX_PER_CYCLE else old(instructionsProcessed)) + 1
    {
      hide Execute;
      hide EndsInterrupt;
      hide StepFlies;
      ghost var m := Machine();
      doFly := ProcessOneInstruction(current[instructionIndex]);
      instructionsProcessed := instructionsProcessed + 1;
      instructionIndex := instructionIndex + 1;
      if instructionIndex >= |current| { instructionIndex := 0; }
      assert Machine() == Step(current, sense, m);
    }

    /** `process_instructions`: until a FLY, the end of an interrupt handler, or 32 instructions. */
    method ProcessInstructions()
      requires Ready()
      modifies this`instructionIndex, this`logoStackIndex, this`interruptStackBase, this`instructionsProcessed,
               this`log, this`penState, this`cameraActive, this`interruptIndex, this`readings, this`waypointIndex, logoStack
      ensures Ready() && Machine() == Cycle(current, sense, old(Machine()))
      ensures waypointIndex ==
        if RunCycle(current, sense, old(Machine()), 0).1 then instructionIndex - 1 else old(waypointIndex)
    {
      hide Step;
      hide EndsInterrupt;
      hide StepFlies;
      hide RunCycle;
      hide Safe;
      instructionsProcessed := 0;
      ghost var start := RunCycle(current, sense, Machine(), 0);
      while true
        invariant Ready() && 0 <= instructionsProcessed < MAX_PER_CYCLE
        invariant start == RunCycle(current, sense, Machine(), instructionsProcessed)
        invariant waypointIndex == old(waypointIndex)
        decreases MAX_PER_CYCLE - instructionsProcessed
      {
        CycleTurn(current, sense, Machine(), instructionsProcessed);
        var doFly := FetchAndExecute();
        if doFly && penState == 0 && !cameraActive { break; }
        if instructionsProcessed >= MAX_PER_CYCLE { return; }
      }
      waypointIndex := instructionIndex - 1;
    }
  
    /** `flightplan_logo_begin`: plan 1 is RTL, plan 0 the main plan, any other number keeps the current one. */
    method Begin(plan: int)
      requires Valid() && Flyable(instructions) && Flyable(rtlInstructions) && Flyable(current)
      modifies this, logoStack
      ensures current == (if plan == 1 then rtlInstructions else if plan == 0 then instructions else old(current))
      ensures injectPos == old(injectPos) && injectInstr == old(injectInstr)
      ensures Ready() && Machine() == LogoCycle.Begin(current, sense, old(readings)) && Inv(current, Machine())
    {
      hide Cycle;
      hide RunCycle;
      hide Safe;
      if plan == 1 {
        current := rtlInstructions;
      } else if plan == 0 {
        current := instructions;
      }
      ResetMachine();
      CycleKeepsInv(current, sense, Reset(readings));
      ProcessInstructions();
    }

    method ResetMachine()
      requires Valid() && Flyable(current)
      modifies this`instructionIndex, this`logoStackIndex, this`interruptStackBase, this`log, this`penState,
               this`cameraActive, this`interruptIndex, logoStack
      ensures Ready() && Machine() == Reset(readings) && Inv(current, Machine())
    {
      instructionIndex, logoStackIndex := 0, 0;
      logoStack[0] := SubFrame(-1, 0);
      cameraActive, penState, log := false, 0, [];
      interruptIndex, interruptStackBase := 0, 0;
      assert Frames() == [SubFrame(-1, 0)];
    }

    /** Nothing but a committed instruction other than REPEAT, END, ELSE and TO is ever pending. */
    ghost predicate PendingOk()
      reads this
    {
      injectInstr.subcmd < 0x100 && (injectPos == INJECT_READY ==> injectInstr.cmd != 1)
    }

    /** `flightplan_logo_update`, called at 40 Hz. */
    method Update(input: Input)
      requires Ready() && Inv(current, Machine()) && PendingOk()
      modifies this, logoStack
      ensures current == old(current)
      ensures Ready() && PendingOk() && Inv(current, Machine())
      ensures Machine() == LogoCycle.Update(current, sense, old(Machine()),
        if old(injectPos) == INJECT_READY then Injected(old(injectInstr)) else Tick(input))
      ensures old(injectPos) == INJECT_READY ==> injectPos == 0
    {
      UpdateKeepsInv(current, sense, Machine(), if injectPos == INJECT_READY then Injected(injectInstr) else Tick(input));
      if injectPos == INJECT_READY {
        RunInjected();
        injectPos := 0;
        return;
      }
      ServeHandler(input.crossed);
      if input.arrived {
        ProcessInstructions();
      }
    }

    method RunInjected()
      requires Ready() && LaunchesInside(current, sense, Machine(), injectInstr) && injectInstr.cmd != 1
      modifies this`instructionIndex, this`logoStackIndex, this`interruptStackBase, this`instructionsProcessed,
               this`log, this`penState, this`cameraActive, this`interruptIndex, this`readings, this`waypointIndex, logoStack
      ensures Ready() && Machine() == Inject(current, sense, old(Machine()), injectInstr)
    {
      hide Execute;
      hide Cycle;
      hide StepFlies;
      hide EndsInterrupt;
      hide HandlerOk;
      ghost var m := Machine();
      var fly := ProcessOneInstruction(injectInstr);
      ExecuteControl(current, sense, m, injectInstr);
      if injectInstr.cmd == 2 || injectInstr.cmd == 10 {
        InjectedLaunchOk(current, sense, m, injectInstr);
        instructionIndex := instructionIndex + 1;
        ProcessInstructions();
      }
    }

    method ServeHandler(crossed: bool)
      requires Ready() && (crossed || EntersInside(current, Machine()))
      modifies this`instructionIndex, this`logoStackIndex, this`interruptStackBase, this`instructionsProcessed,
               this`log, this`penState, this`cameraActive, this`interruptIndex, this`readings, this`waypointIndex, logoStack
      ensures Ready() && Machine() == ServeInterrupt(current, sense, old(Machine()), crossed)
    {
      hide Cycle, EnterInterrupt, Abandon, Safe;
      if interruptIndex != 0 {
        if !crossed {
          EnterOk(current, Machine());
          EnterHandler();
          ProcessInstructions();
        } else {
          AbandonOk(current, Machine());
          AbandonHandler();
        }
      }
    }

    method EnterHandler()
      requires Ready()
      modifies this`instructionIndex, this`logoStackIndex, this`interruptStackBase, logoStack
      ensures Valid() && Machine() == EnterInterrupt(old(Machine()))
    {
      hide Safe;
      if interruptStackBase == 0 {
        if logoStackIndex < STACK_DEPTH - 1 {
          PushFrame(SubFrame(S14(instructionIndex - 1), 0));
          instructionIndex := interruptIndex + 1;
          interruptStackBase := logoStackIndex;
        }
      }
    }

    method AbandonHandler()
      requires Ready()
      modifies this`instructionIndex, this`logoStackIndex, this`interruptStackBase
      ensures Valid() && Machine() == Abandon(old(Machine()))
    {
      ghost var m := Machine();
      if interruptStackBase != 0 {
        instructionIndex := logoStack[interruptStackBase].ret + 1;
        logoStackIndex := interruptStackBase - 1;
        interruptStackBase := 0;
        assert Frames() == m.frames[..m.base];
      }
    }

    // -------------------------------------------------------------- injection over the serial link

    method LiveBegin()
      requires PendingOk()
      modifies this`injectPos
      ensures PendingOk()
      ensures injectPos == if old(injectPos) == INJECT_READY then INJECT_READY else 0
    {
      if injectPos == INJECT_READY { return; }
      injectPos := 0;
    }

    method LiveReceivedByte(b: nat)
      requires b < 0x100 && PendingOk()
      modifies this`injectPos, this`injectInstr
      ensures PendingOk()
      ensures (injectInstr, injectPos) == Receive(old(injectInstr), old(injectPos), b)
    {
      if injectPos == INJECT_READY { return; }
      match injectPos {
        case 0 => injectInstr := injectInstr.(cmd := b % 64);                       // 6-bit field
        case 1 => injectInstr := injectInstr.(subcmd := b);
        case 2 => injectInstr := injectInstr.(doFly := false, useParam := b % 2 == 1);  // 1-bit fields
        case 3 => injectInstr := injectInstr.(arg := S16(b * 256));
        case 4 => injectInstr := injectInstr.(arg := S16(U16(injectInstr.arg) / 256 * 256 + b));
        case 5 =>
        case _ => return;
      }
      injectPos := injectPos + 1;
    }

    method LiveCommit()
      requires PendingOk()
      modifies this`injectPos
      ensures injectPos == if old(injectPos) == 5 && injectInstr.cmd != 1 then INJECT_READY else 0
      ensures PendingOk()
    {
      if injectPos == 5 && injectInstr.cmd != 1 {
        injectPos := INJECT_READY;
      } else {
        injectPos := 0;
      }
    }
  }

  predicate Flyable(code: seq<Instr>) {
    1 <= |code| <= MAX_PROGRAM && NoLastFunction(code)
  }

  /** The instruction being received and its byte count after byte `b`. */
  function Receive(i: Instr, pos: nat, b: nat): (Instr, nat) {
    match pos
    case 0 => (i.(cmd := b % 64), 1)
    case 1 => (i.(subcmd := b), 2)
    case 2 => (i.(doFly := false, useParam := b % 2 == 1), 3)
    case 3 => (i.(arg := S16(b * 256)), 4)
    case 4 => (i.(arg := S16(U16(i.arg) / 256 * 256 + b)), 5)
    case 5 => (i, 6)
    case _ => (i, pos)
  }

  function ReceiveAll(i: Instr, pos: nat, bytes: seq<nat>): (Instr, nat)
    decreases |bytes|
  {
    if bytes == [] then (i, pos)
    else var (i1, pos1) := Receive(i, pos, bytes[0]); ReceiveAll(i1, pos1, bytes[1..])
  }

  /** While an instruction is pending, or after too many bytes, further bytes change nothing. */
  lemma {:induction false} PendingStays(i: Instr, pos: nat, bytes: seq<nat>)
    requires pos > 5
    ensures ReceiveAll(i, pos, bytes) == (i, pos)
    decreases |bytes|
  {
    if bytes != [] { PendingStays(i, pos, bytes[1..]); }
  }

  /**
   Five bytes, high byte first, define the whole injected instruction, whatever was there
   before; any other number of bytes leaves a position that does not commit.
   */
  lemma FiveBytesMakeAnInstruction(i: Instr, bytes: seq<nat>)
    requires forall k :: 0 <= k < |bytes| ==> bytes[k] < 0x100
    ensures ReceiveAll(i, 0, bytes).1 == 5 <==> |bytes| == 5
    ensures |bytes| == 5 ==>
      ReceiveAll(i, 0, bytes).0
      == Instr(bytes[0] % 64, false, bytes[2] % 2 == 1, bytes[1], S16(bytes[3] * 256 + bytes[4]))
  {
    CountBytes(i, 0, bytes);
    if |bytes| == 5 {
      hide S16;
      hide U16;
      var i1 := Receive(i, 0, bytes[0]).0;
      var i2 := Receive(i1, 1, bytes[1]).0;
      var i3 := Receive(i2, 2, bytes[2]).0;
      var i4 := Receive(i3, 3, bytes[3]).0;
      var i5 := Receive(i4, 4, bytes[4]).0;
      HighByteKept(bytes[3]);
      assert ReceiveAll(i, 0, bytes) == ReceiveAll(i1, 1, bytes[1..]);
      assert bytes[1..][1..] == bytes[2..] && bytes[2..][1..] == bytes[3..] && bytes[3..][1..] == bytes[4..];
      assert ReceiveAll(i1, 1, bytes[1..]) == ReceiveAll(i2, 2, bytes[2..]);
      assert ReceiveAll(i2, 2, bytes[2..]) == ReceiveAll(i3, 3, bytes[3..]);
      assert ReceiveAll(i3, 3, bytes[3..]) == ReceiveAll(i4, 4, bytes[4..]);
      assert ReceiveAll(i4, 4, bytes[4..]) == ReceiveAll(i5, 5, bytes[4..][1..]);
      assert bytes[4..][1..] == [];
    }
  }

  lemma HighByteKept(b: nat)
    requires b < 0x100
    ensures U16(S16(b * 256)) / 256 * 256 == b * 256
  {
  }

  lemma {:induction false} CountBytes(i: Instr, pos: nat, bytes: seq<nat>)
    requires pos <= 6
    ensures ReceiveAll(i, pos, bytes).1 == Min(6, pos + |bytes|)
    decreases |bytes|
  {
    hide S16;
    hide U16;
    if bytes != [] {
      CountBytes(Receive(i, pos, bytes[0]).0, Receive(i, pos, bytes[0]).1, bytes[1..]);
    }
  }

  lemma ActKeepsWorld(code: seq<Instr>, sense: nat -> int, m: LogoMachine.Machine, i: Instr)
    requires i.cmd == 9
    ensures ActWorld(code, m.world, i) == m.world
  {
  }

  lemma ActKeepsParam(code: seq<Instr>, sense: nat -> int, m: LogoMachine.Machine, i: Instr)
    requires Safe(code, m) && i.cmd != 9 && i.cmd != 13
    ensures SetParam(m.frames, ActParam(sense, m.world, Param(m.frames), i)) == m.frames
  {
  }

  /** What an instruction does to the cycle only depends on its resolved form. */
  lemma ResolvedFlies(m: LogoMachine.Machine, raw: Instr)
    requires IsStack(m.frames)
    ensures var i := Resolve(m.frames, raw);
      && EndsInterrupt(m, i) == EndsInterrupt(m, raw)
      && (!IsAction(i) ==> StepFlies(m, raw) == i.doFly)
  {
  }

  /** One turn of the cycle, for the loop. */
  lemma CycleTurn(code: seq<Instr>, sense: nat -> int, m: LogoMachine.Machine, count: nat)
    requires Safe(code, m) && count < MAX_PER_CYCLE
    ensures var x, raw := Step(code, sense, m), code[m.index];
      var fly := StepFlies(m, raw) && x.world.pen == 0 && !x.world.camera;
      var count1 := (if EndsInterrupt(m, raw) then MAX_PER_CYCLE else count) + 1;
      RunCycle(code, sense, m, count) ==
        if fly then (x, true) else if count1 >= MAX_PER_CYCLE then (x, false) else RunCycle(code, sense, x, count1)
  {
    hide Step;
    hide StepFlies;
  }
}
