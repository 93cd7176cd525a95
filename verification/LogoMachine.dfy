/**
 The UDB Logo virtual machine as a function on values: an instruction index, a
 stack of IF / REPEAT / SUBROUTINE frames and the interrupt base, moved by one
 instruction at a time.  `LogoInterpreter` refines these functions step by step.
 */
module LogoMachine {
  import opened FixedWidth

  // ---------------------------------------------------------------- instructions

  /** One element of an instruction array: the packed C record, field by field. */
  datatype Instr = Instr(cmd: nat, doFly: bool, useParam: bool, subcmd: nat, arg: int)

  predicate IsRepeat(i: Instr) { i.cmd == 1 && i.subcmd == 0 }
  predicate IsEnd(i: Instr) { i.cmd == 1 && i.subcmd == 1 }
  predicate IsTo(i: Instr) { i.cmd == 1 && i.subcmd == 2 }
  predicate IsElse(i: Instr) { i.cmd == 1 && i.subcmd == 3 }
  predicate IsIf(i: Instr) { 14 <= i.cmd <= 19 }
  predicate IsDo(i: Instr) { i.cmd == 2 }
  predicate IsExec(i: Instr) { i.cmd == 10 }

  /** Instructions that neither move the instruction index nor touch the stack shape. */
  predicate IsAction(i: Instr) { i.cmd != 1 && !IsDo(i) && !IsExec(i) && !IsIf(i) }

  const STACK_DEPTH := 12
  const MAX_PROGRAM := 0x2000
  const MAX_PER_CYCLE := 32
  const NUM_INPUTS := 8
  const CAMERA := 1
  const DIST_TO_HOME := 16
  const WIND_FROM_ANGLE := 31
  const PARAM := 32

  // ---------------------------------------------------------------- the flown world

  /** A turtle, flag or speed command with its argument resolved, and the turtle active then. */
  datatype Effect = Effect(camera: bool, cmd: nat, subcmd: nat, arg: int)

  /**
   What instructions act on besides index and stack: the effects so far, the pen,
   the active turtle, the configured interrupt handler, and how many sensor values
   have been read (reading number k yields `sense(k)`).
   */
  datatype World = World(log: seq<Effect>, pen: int, camera: bool, interrupt: int, readings: nat)

  predicate HasEffect(i: Instr) {
    || (i.cmd == 3 && i.subcmd == 0)
    || (i.cmd == 4 && i.subcmd <= 3)
    || (i.cmd == 5 && i.subcmd <= 10)
    || (i.cmd == 6 && i.subcmd <= 2)
    || (i.cmd == 11 && i.subcmd <= 1)
  }

  predicate IsSensor(ident: nat) {
    0 < ident <= NUM_INPUTS || DIST_TO_HOME <= ident <= WIND_FROM_ANGLE
  }

  function Value(sense: nat -> int, w: World, ident: nat, param: int): int {
    if IsSensor(ident) then S16(sense(w.readings)) else if ident == PARAM then param else 0
  }

  function AfterRead(w: World, ident: nat): World {
    if IsSensor(ident) then w.(readings := w.readings + 1) else w
  }

  function Pen(pen: int, subcmd: nat): int {
    match subcmd
    case 0 => S16(pen + 1)
    case 1 => if pen > 0 then pen - 1 else pen
    case 2 => if pen == 0 then 1 else 0
    case _ => pen
  }

  /** The world after an action instruction whose argument is resolved. */
  function ActWorld(code: seq<Instr>, w: World, i: Instr): World {
    if HasEffect(i) then w.(log := w.log + [Effect(w.camera, i.cmd, i.subcmd, i.arg)])
    else match i.cmd
      case 7 => w.(pen := Pen(w.pen, i.subcmd))
      case 8 => w.(camera := i.arg == CAMERA)
      case 12 =>
        if i.subcmd == 1 then w.(interrupt := FindStart(code, U8(i.arg)))
        else if i.subcmd == 0 then w.(interrupt := 0)
        else w
      case 13 => AfterRead(w, i.subcmd)
      case _ => w
  }

  /** PARAM of the running subroutine after an action instruction. */
  function ActParam(sense: nat -> int, w: World, param: int, i: Instr): int {
    match i.cmd
    case 9 =>
      (match i.subcmd
       case 0 => i.arg
       case 1 => S16(param + i.arg)
       case 2 => S16(param * i.arg)
       case 3 => if i.arg != 0 then S16(TruncDiv(param, i.arg)) else param
       case _ => param)
    case 13 => Value(sense, w, i.subcmd, param)
    case _ => param
  }

  /** Does the (resolved) instruction ask the plane to fly there before continuing? */
  predicate Flies(w: World, i: Instr) {
    i.doFly || (i.cmd == 7 && i.subcmd == 2 && Pen(w.pen, 2) == 0)
  }

  predicate Cond(sense: nat -> int, w: World, param: int, i: Instr) {
    var v := Value(sense, w, i.subcmd, param);
    match i.cmd
    case 14 => v == i.arg
    case 15 => v != i.arg
    case 16 => v > i.arg
    case 17 => v < i.arg
    case 18 => v >= i.arg
    case 19 => v <= i.arg
    case _ => false
  }

  // ---------------------------------------------------------------- scans

  /** The first TO of function `fn` at or after `k`, or -1. */
  function FindFrom(code: seq<Instr>, k: nat, fn: nat): (r: int)
    ensures r == -1 || (k <= r < |code| && IsTo(code[r]) && code[r].arg == fn)
    decreases |code| - k
  {
    if k >= |code| then -1
    else if IsTo(code[k]) && code[k].arg == fn then k
    else FindFrom(code, k + 1, fn)
  }

  function FindStart(code: seq<Instr>, fn: nat): (r: int)
    ensures r == -1 || (0 <= r < |code| && IsTo(code[r]) && code[r].arg == fn)
  {
    if fn == 0 then -1 else FindFrom(code, 0, fn)
  }

  /** From `k`, with `depth` blocks open, the index of the ELSE or END closing the current one; 0 if none. */
  function ScanEnd(code: seq<Instr>, k: nat, depth: nat): (r: nat)
    ensures r == 0 || (k <= r < |code| && (IsEnd(code[r]) || IsElse(code[r])))
    decreases |code| - k
  {
    if k >= |code| then 0
    else if IsRepeat(code[k]) || IsIf(code[k]) then ScanEnd(code, k + 1, depth + 1)
    else if depth > 0 && IsEnd(code[k]) then ScanEnd(code, k + 1, depth - 1)
    else if depth == 0 && (IsEnd(code[k]) || IsElse(code[k])) then k
    else ScanEnd(code, k + 1, depth)
  }

  // ---------------------------------------------------------------- the stack

  /**
   A live stack frame.  The fields of an IF frame other than its type are left
   over from earlier use of the slot and are never read, so they are not modelled.
   */
  datatype Frame = IfFrame | RepeatFrame(ret: int, arg: int) | SubFrame(ret: int, arg: int)

  predicate IsStack(frames: seq<Frame>) {
    1 <= |frames| <= STACK_DEPTH && frames[0].SubFrame?
  }

  /** Index of the frame PARAM refers to: the topmost SUBROUTINE frame. */
  function ParamFrame(frames: seq<Frame>): (k: nat)
    requires |frames| > 0 && frames[0].SubFrame?
    ensures k < |frames| && frames[k].SubFrame?
    ensures forall j :: k < j < |frames| ==> !frames[j].SubFrame?
  {
    if frames[|frames| - 1].SubFrame? then |frames| - 1 else ParamFrame(frames[..|frames| - 1])
  }

  function Param(frames: seq<Frame>): int
    requires |frames| > 0 && frames[0].SubFrame?
  {
    frames[ParamFrame(frames)].arg
  }

  function SetParam(frames: seq<Frame>, v: int): (r: seq<Frame>)
    requires |frames| > 0 && frames[0].SubFrame?
    ensures |r| == |frames| && r[0].SubFrame?
  {
    frames[ParamFrame(frames) := SubFrame(frames[ParamFrame(frames)].ret, v)]
  }

  function Push(frames: seq<Frame>, f: Frame): seq<Frame> {
    if |frames| < STACK_DEPTH then frames + [f] else frames
  }

  function Pop(frames: seq<Frame>): seq<Frame>
    requires |frames| > 0
  {
    frames[..|frames| - 1]
  }

  // ---------------------------------------------------------------- machine states

  /** `base` is 0, or the stack index of the running interrupt handler's frame. */
  datatype Machine = Machine(index: int, frames: seq<Frame>, base: nat, world: World)

  predicate ReturnsOk(n: int, frames: seq<Frame>) {
    forall k :: 0 <= k < |frames| && !frames[k].IfFrame? ==> -1 <= frames[k].ret < n
  }

  /**
   The control part of the safety invariant, with the index at least `lo`: slot 0 is a
   SUBROUTINE frame, the stack fits, return indices are in range, and a running
   interrupt handler has a live SUBROUTINE frame that returns to an instruction.
   */
  predicate Control(code: seq<Instr>, m: Machine, lo: int) {
    && 1 <= |code| <= MAX_PROGRAM
    && lo <= m.index < |code|
    && IsStack(m.frames)
    && ReturnsOk(|code|, m.frames)
    && m.base < |m.frames|
    && (m.base > 0 ==> m.frames[m.base].SubFrame? && m.frames[m.base].ret + 1 < |code|)
  }

  /** Ready to fetch. */
  predicate Safe(code: seq<Instr>, m: Machine) {
    Control(code, m, 0)
  }

  function Resolve(frames: seq<Frame>, i: Instr): Instr
    requires |frames| > 0 && frames[0].SubFrame?
  {
    if i.useParam then i.(arg := Param(frames)) else i
  }

  /** Back to the start of the running program: MAIN, or the function last EXECed. */
  function Restart(m: Machine): Machine
    requires |m.frames| > 0 && m.frames[0].SubFrame?
  {
    Machine(m.frames[0].ret, m.frames[..1], 0, m.world)
  }

  function EndRepeat(m: Machine): Machine
    requires |m.frames| > 1 && m.frames[|m.frames| - 1].RepeatFrame?
  {
    var top := m.frames[|m.frames| - 1];
    if top.arg > 1 || top.arg == -1 then
      m.(index := top.ret,
         frames := Pop(m.frames) + [RepeatFrame(top.ret, if top.arg == -1 then -1 else top.arg - 1)])
    else m.(frames := Pop(m.frames))
  }

  function EndSub(m: Machine): Machine
    requires |m.frames| > 1 && m.frames[|m.frames| - 1].SubFrame?
  {
    var top := m.frames[|m.frames| - 1];
    m.(index := top.ret, frames := Pop(m.frames), base := if |m.frames| - 2 < m.base then 0 else m.base)
  }

  function End(m: Machine): Machine
    requires |m.frames| > 0 && m.frames[0].SubFrame?
  {
    if |m.frames| == 1 then Restart(m)
    else match m.frames[|m.frames| - 1]
      case RepeatFrame(_, _) => EndRepeat(m)
      case SubFrame(_, _) => EndSub(m)
      case IfFrame => m.(frames := Pop(m.frames))
  }

  /** Does this END finish the interrupt handler (and so the processing cycle)? */
  predicate EndsInterrupt(m: Machine, i: Instr)
    requires |m.frames| > 0
  {
    IsEnd(i) && |m.frames| > 1 && m.frames[|m.frames| - 1].SubFrame? && |m.frames| - 2 < m.base
  }

  function If(code: seq<Instr>, sense: nat -> int, m: Machine, i: Instr): Machine
    requires |code| > 0 && m.index >= 0 && |m.frames| > 0 && m.frames[0].SubFrame?
  {
    var m1 := m.(world := AfterRead(m.world, i.subcmd));
    if Cond(sense, m.world, Param(m.frames), i) then m1.(frames := Push(m.frames, IfFrame))
    else
      var e := ScanEnd(code, m.index + 1, 0);
      m1.(index := e, frames := if code[e].subcmd == 3 then Push(m.frames, IfFrame) else m.frames)
  }

  /** Executes one instruction; the caller advances the index. */
  function Execute(code: seq<Instr>, sense: nat -> int, m: Machine, raw: Instr): Machine
    requires Safe(code, m)
  {
    Perform(code, sense, m, Resolve(m.frames, raw))
  }

  /** Executes an instruction whose argument is resolved. */
  function Perform(code: seq<Instr>, sense: nat -> int, m: Machine, i: Instr): Machine
    requires Safe(code, m)
  {
    if i.cmd == 1 then
      match i.subcmd
      case 0 => m.(frames := Push(m.frames, RepeatFrame(S14(m.index), i.arg)))
      case 1 => End(m)
      case 2 => Restart(m)
      case 3 =>
        if m.frames[|m.frames| - 1].IfFrame?
        then m.(index := ScanEnd(code, m.index + 1, 0), frames := Pop(m.frames))
        else m
      case _ => m
    else if IsDo(i) then
      m.(index := FindStart(code, i.subcmd), frames := Push(m.frames, SubFrame(S14(m.index), i.arg)))
    else if IsExec(i) then
      var s := FindStart(code, i.subcmd);
      Machine(s, [SubFrame(S14(s), m.frames[0].arg)], 0, m.world)
    else if IsIf(i) then If(code, sense, m, i)
    else
      m.(frames := SetParam(m.frames, ActParam(sense, m.world, Param(m.frames), i)),
         world := ActWorld(code, m.world, i))
  }

  /** The index after `k`, wrapping from the end of the program to its start. */
  function Norm(code: seq<Instr>, k: int): int {
    if k >= |code| then 0 else k
  }

  /** One turn of the processing loop: fetch, execute, advance. */
  function Step(code: seq<Instr>, sense: nat -> int, m: Machine): (m': Machine)
    requires Safe(code, m)
    ensures Safe(code, m')
  {
    ExecuteControl(code, sense, m, code[m.index]);
    var x := Execute(code, sense, m, code[m.index]);
    x.(index := Norm(code, x.index + 1))
  }

  /** Does executing this instruction return the source's `do_fly`? */
  predicate StepFlies(m: Machine, raw: Instr)
    requires |m.frames| > 0 && m.frames[0].SubFrame?
  {
    Flies(m.world, Resolve(m.frames, raw))
  }

  function Steps(code: seq<Instr>, sense: nat -> int, m: Machine, n: nat): (m': Machine)
    requires Safe(code, m)
    ensures Safe(code, m')
    decreases n
  {
    if n == 0 then m else Steps(code, sense, Step(code, sense, m), n - 1)
  }

  /** Any single instruction, fetched or injected, keeps the control invariant. */
  lemma ExecuteControl(code: seq<Instr>, sense: nat -> int, m: Machine, raw: Instr)
    requires Safe(code, m)
    ensures Control(code, Execute(code, sense, m, raw), -1)
    ensures !IsEnd(raw) && !IsTo(raw) && !IsDo(raw) && !IsExec(raw) ==> Safe(code, Execute(code, sense, m, raw))
  {
    hide ActParam, ActWorld, Cond;
  }

  lemma {:induction false} StepsAdd(code: seq<Instr>, sense: nat -> int, m: Machine, a: nat, b: nat)
    requires Safe(code, m)
    ensures Steps(code, sense, m, a + b) == Steps(code, sense, Steps(code, sense, m, a), b)
    decreases a
  {
    hide Step;
    if a > 0 {
      StepsAdd(code, sense, Step(code, sense, m), a - 1, b);
    }
  }
}
