/**
 Processing cycles, 40 Hz updates with interrupts and injected instructions, and
 the invariant every run of them keeps.
 */
module LogoCycle {
  import opened FixedWidth
  import opened LogoMachine

  /** One call of the processing loop, `count` instructions into its budget; also tells if it stopped on a FLY. */
  function RunCycle(code: seq<Instr>, sense: nat -> int, m: Machine, count: nat): (r: (Machine, bool))
    requires Safe(code, m) && count < MAX_PER_CYCLE
    ensures Safe(code, r.0)
    decreases MAX_PER_CYCLE - count
  {
    var raw, x := code[m.index], Step(code, sense, m);
    var count1 := if EndsInterrupt(m, raw) then MAX_PER_CYCLE + 1 else count + 1;
    if StepFlies(m, raw) && x.world.pen == 0 && !x.world.camera then (x, true)
    else if count1 >= MAX_PER_CYCLE then (x, false)
    else RunCycle(code, sense, x, count1)
  }

  function Cycle(code: seq<Instr>, sense: nat -> int, m: Machine): (r: Machine)
    requires Safe(code, m)
    ensures Safe(code, r)
  {
    RunCycle(code, sense, m, 0).0
  }

  /** A cycle executes between 1 and 32 instructions, all of them fetched from inside the program. */
  lemma {:induction false} CycleIsSteps(code: seq<Instr>, sense: nat -> int, m: Machine, count: nat) returns (k: nat)
    requires Safe(code, m) && count < MAX_PER_CYCLE
    ensures 1 <= k <= MAX_PER_CYCLE - count
    ensures RunCycle(code, sense, m, count).0 == Steps(code, sense, m, k)
    decreases MAX_PER_CYCLE - count
  {
    hide Step;
    hide StepFlies;
    hide EndsInterrupt;
    var raw, x := code[m.index], Step(code, sense, m);
    assert Steps(code, sense, m, 1) == Steps(code, sense, x, 0);
    k := 1;
    if !(StepFlies(m, raw) && x.world.pen == 0 && !x.world.camera) && !EndsInterrupt(m, raw) && count + 1 < MAX_PER_CYCLE {
      k := CycleIsSteps(code, sense, x, count + 1);
      k := k + 1;
    }
  }

  // ---------------------------------------------------------------- updates

  /** What one 40 Hz update sees: the finish line crossed, and the goal (line or height) reached. */
  datatype Input = Input(crossed: bool, arrived: bool)

  datatype Event = Injected(i: Instr) | Tick(input: Input)

  /** No function number finds the last instruction, which has none behind it to start at. */
  predicate NoLastFunction(code: seq<Instr>) {
    forall fn: nat :: 0 < fn < 0x100 ==> FindStart(code, fn) != |code| - 1
  }

  /** What can be injected: an instruction with an 8-bit function number that is no block instruction. */
  predicate Allowed(e: Event) {
    e.Injected? ==> e.i.cmd != 1 && e.i.subcmd < 0x100
  }

  /** No handler, or one with an instruction behind its TO. */
  predicate HandlerOk(code: seq<Instr>, interrupt: int) {
    interrupt == 0 || -1 <= interrupt < |code| - 1
  }

  /** The invariant of all runs: ready to fetch, and a configured handler has an instruction to start at. */
  predicate Inv(code: seq<Instr>, m: Machine) {
    Safe(code, m) && NoLastFunction(code) && HandlerOk(code, m.world.interrupt)
  }

  /** Suspends the program and enters the configured handler, if the stack has room. */
  function EnterInterrupt(m: Machine): Machine {
    if m.base == 0 && |m.frames| < STACK_DEPTH then
      Machine(m.world.interrupt + 1, m.frames + [SubFrame(S14(m.index - 1), 0)], |m.frames|, m.world)
    else m
  }

  /** Drops an unfinished handler. */
  function Abandon(m: Machine): Machine
    requires m.base > 0 ==> m.base < |m.frames| && m.frames[m.base].SubFrame?
  {
    if m.base > 0 then Machine(m.frames[m.base].ret + 1, m.frames[..m.base], 0, m.world) else m
  }

  /** A handler about to be entered has an instruction to start at. */
  predicate EntersInside(code: seq<Instr>, m: Machine) {
    m.world.interrupt != 0 && m.base == 0 && |m.frames| < STACK_DEPTH ==> -1 <= m.world.interrupt < |code| - 1
  }

  /** So has a function about to be launched by an injected DO or EXEC. */
  predicate LaunchesInside(code: seq<Instr>, sense: nat -> int, m: Machine, i: Instr)
    requires Safe(code, m)
  {
    IsDo(i) || IsExec(i) ==> Execute(code, sense, m, i).index + 1 < |code|
  }

  /** The two places where the source fetches without having wrapped the index around. */
  predicate InBounds(code: seq<Instr>, sense: nat -> int, m: Machine, e: Event)
    requires Safe(code, m)
  {
    match e
    case Injected(i) => LaunchesInside(code, sense, m, i)
    case Tick(input) => input.crossed || EntersInside(code, m)
  }

  function ServeInterrupt(code: seq<Instr>, sense: nat -> int, m: Machine, crossed: bool): (r: Machine)
    requires Safe(code, m) && (crossed || EntersInside(code, m))
    ensures Safe(code, r)
  {
    if m.world.interrupt == 0 then m
    else if crossed then AbandonOk(code, m); Abandon(m)
    else EnterOk(code, m); Cycle(code, sense, EnterInterrupt(m))
  }

  function Inject(code: seq<Instr>, sense: nat -> int, m: Machine, i: Instr): (r: Machine)
    requires Safe(code, m) && LaunchesInside(code, sense, m, i) && i.cmd != 1
    ensures Safe(code, r)
  {
    ExecuteControl(code, sense, m, i);
    var x := Execute(code, sense, m, i);
    if IsDo(i) || IsExec(i) then Cycle(code, sense, x.(index := x.index + 1)) else x
  }

  function Update(code: seq<Instr>, sense: nat -> int, m: Machine, e: Event): (r: Machine)
    requires Safe(code, m) && Allowed(e) && InBounds(code, sense, m, e)
    ensures Safe(code, r)
  {
    match e
    case Injected(i) => Inject(code, sense, m, i)
    case Tick(input) =>
      var x := ServeInterrupt(code, sense, m, input.crossed);
      if input.arrived then Cycle(code, sense, x) else x
  }

  lemma AbandonOk(code: seq<Instr>, m: Machine)
    requires Safe(code, m)
    ensures Safe(code, Abandon(m))
  {
  }

  lemma EnterOk(code: seq<Instr>, m: Machine)
    requires Safe(code, m) && m.world.interrupt != 0 && EntersInside(code, m)
    ensures Safe(code, EnterInterrupt(m))
  {
  }

  /** With the invariant every update stays inside the program. */
  lemma InvInBounds(code: seq<Instr>, sense: nat -> int, m: Machine, e: Event)
    requires Inv(code, m) && Allowed(e)
    ensures InBounds(code, sense, m, e)
  {
    hide FindStart;
    if e.Injected? && (IsDo(e.i) || IsExec(e.i)) {
      NotLast(code, e.i.subcmd);
    }
  }

  lemma NotLast(code: seq<Instr>, fn: nat)
    requires NoLastFunction(code) && |code| > 0 && fn < 0x100
    ensures -1 <= FindStart(code, fn) < |code| - 1
  {
  }

  // ---------------------------------------------------------------- all runs

  lemma StepKeepsInv(code: seq<Instr>, sense: nat -> int, m: Machine)
    requires Inv(code, m)
    ensures Inv(code, Step(code, sense, m))
  {
    ExecuteKeepsHandler(code, sense, m, code[m.index]);
  }

  lemma ExecuteKeepsHandler(code: seq<Instr>, sense: nat -> int, m: Machine, i: Instr)
    requires Inv(code, m)
    ensures HandlerOk(code, Execute(code, sense, m, i).world.interrupt)
  {
    hide ActParam;
    hide ScanEnd;
    hide FindStart;
    hide NoLastFunction;
    NotLast(code, U8(Resolve(m.frames, i).arg));
  }

  lemma {:induction false} StepsKeepInv(code: seq<Instr>, sense: nat -> int, m: Machine, n: nat)
    requires Inv(code, m)
    ensures Inv(code, Steps(code, sense, m, n))
    decreases n
  {
    hide Step;
    hide Safe;
    if n > 0 {
      StepKeepsInv(code, sense, m);
      StepsKeepInv(code, sense, Step(code, sense, m), n - 1);
    }
  }

  lemma CycleKeepsInv(code: seq<Instr>, sense: nat -> int, m: Machine)
    requires Inv(code, m)
    ensures Inv(code, Cycle(code, sense, m))
  {
    hide RunCycle;
    hide Steps;
    hide Safe;
    var k := CycleIsSteps(code, sense, m, 0);
    StepsKeepInv(code, sense, m, k);
  }

  lemma UpdateKeepsInv(code: seq<Instr>, sense: nat -> int, m: Machine, e: Event)
    requires Inv(code, m) && Allowed(e)
    ensures InBounds(code, sense, m, e) && Inv(code, Update(code, sense, m, e))
  {
    InvInBounds(code, sense, m, e);
    hide Cycle;
    hide Execute;
    hide Safe;
    match e
    case Injected(i) =>
      ExecuteKeepsHandler(code, sense, m, i);
      if IsDo(i) || IsExec(i) {
        var x := Execute(code, sense, m, i);
        InjectedLaunchOk(code, sense, m, i);
        CycleKeepsInv(code, sense, x.(index := x.index + 1));
      }
    case Tick(input) =>
      ServeKeepsInv(code, sense, m, input.crossed);
      if input.arrived { CycleKeepsInv(code, sense, ServeInterrupt(code, sense, m, input.crossed)); }
  }

  lemma InjectedLaunchOk(code: seq<Instr>, sense: nat -> int, m: Machine, i: Instr)
    requires Safe(code, m) && LaunchesInside(code, sense, m, i) && (IsDo(i) || IsExec(i))
    ensures var x := Execute(code, sense, m, i); Safe(code, x.(index := x.index + 1))
  {
    hide Execute;
    ExecuteControl(code, sense, m, i);
  }

  lemma ServeKeepsInv(code: seq<Instr>, sense: nat -> int, m: Machine, crossed: bool)
    requires Inv(code, m)
    ensures EntersInside(code, m) && Inv(code, ServeInterrupt(code, sense, m, crossed))
  {
    hide Cycle;
    hide Safe;
    if m.world.interrupt != 0 && !crossed {
      EnterOk(code, m);
      CycleKeepsInv(code, sense, EnterInterrupt(m));
    }
  }

  predicate AllAllowed(events: seq<Event>) {
    forall k :: 0 <= k < |events| ==> Allowed(events[k])
  }

  function Run(code: seq<Instr>, sense: nat -> int, m: Machine, events: seq<Event>): (r: Machine)
    requires Inv(code, m) && AllAllowed(events)
    ensures Inv(code, r)
    decreases |events|
  {
    if events == [] then m
    else
      UpdateKeepsInv(code, sense, m, events[0]);
      Run(code, sense, Update(code, sense, m, events[0]), events[1..])
  }

  /** The state in which a flight plan starts over, before its first cycle. */
  function Reset(readings: nat): Machine {
    Machine(0, [SubFrame(-1, 0)], 0, World([], 0, false, 0, readings))
  }

  function Begin(code: seq<Instr>, sense: nat -> int, readings: nat): (r: Machine)
    requires 1 <= |code| <= MAX_PROGRAM
    ensures Safe(code, r)
  {
    Cycle(code, sense, Reset(readings))
  }

  lemma BeginsWithInv(code: seq<Instr>, sense: nat -> int, readings: nat)
    requires 1 <= |code| <= MAX_PROGRAM && NoLastFunction(code)
    ensures Inv(code, Begin(code, sense, readings))
  {
    CycleKeepsInv(code, sense, Reset(readings));
  }

  /**
   From the start of any flight plan without a function at its very end, under any mix of updates,
   interrupts and injected instructions: fetches stay inside the program, the stack stays
   within its 12 slots with MAIN's SUBROUTINE frame at the bottom, and a running interrupt
   handler always has its own SUBROUTINE frame to return through.
   */
  lemma AllRunsSafe(code: seq<Instr>, sense: nat -> int, readings: nat, events: seq<Event>)
    requires 1 <= |code| <= MAX_PROGRAM && NoLastFunction(code)
    requires AllAllowed(events)
    ensures (BeginsWithInv(code, sense, readings);
      var m := Run(code, sense, Begin(code, sense, readings), events);
      && 0 <= m.index < |code|
      && 1 <= |m.frames| <= STACK_DEPTH && m.frames[0].SubFrame?
      && (forall k :: 0 <= k < |m.frames| && !m.frames[k].IfFrame? ==> -1 <= m.frames[k].ret < |code|)
      && (m.base == 0 || (m.base < |m.frames| && m.frames[m.base].SubFrame?)))
  {
    hide Update;
    hide NoLastFunction;
    BeginsWithInv(code, sense, readings);
  }

  /** No update of the run fetches outside the program. */
  predicate StaysInside(code: seq<Instr>, sense: nat -> int, m: Machine, events: seq<Event>)
    requires Safe(code, m) && AllAllowed(events)
    decreases |events|
  {
    events == []
    || (InBounds(code, sense, m, events[0]) && StaysInside(code, sense, Update(code, sense, m, events[0]), events[1..]))
  }

  lemma {:induction false} InvStaysInside(code: seq<Instr>, sense: nat -> int, m: Machine, events: seq<Event>)
    requires Inv(code, m) && AllAllowed(events)
    ensures StaysInside(code, sense, m, events)
    decreases |events|
  {
    hide Update, InBounds, Safe, NoLastFunction;
    if events != [] {
      UpdateKeepsInv(code, sense, m, events[0]);
      InvStaysInside(code, sense, Update(code, sense, m, events[0]), events[1..]);
    }
  }

  ghost predicate AllStayInside(code: seq<Instr>)
    requires 1 <= |code| <= MAX_PROGRAM
  {
    forall sense: nat -> int, readings: nat, events: seq<Event> ::
      AllAllowed(events) ==> StaysInside(code, sense, Begin(code, sense, readings), events)
  }

  /** The condition is exact: a function at the very end is run out of the program by an injected DO. */
  lemma AllInsideIff(code: seq<Instr>)
    requires 1 <= |code| <= MAX_PROGRAM
    ensures AllStayInside(code) <==> NoLastFunction(code)
  {
    hide StaysInside, FindStart, Begin;
    if NoLastFunction(code) {
      forall sense: nat -> int, readings: nat, events: seq<Event> | AllAllowed(events)
        ensures StaysInside(code, sense, Begin(code, sense, readings), events)
      {
        BeginsWithInv(code, sense, readings);
        InvStaysInside(code, sense, Begin(code, sense, readings), events);
      }
    } else {
      var fn: nat :| 0 < fn < 0x100 && FindStart(code, fn) == |code| - 1;
      var sense: nat -> int := _ => 0;
      var events := [Injected(Instr(2, false, false, fn, 0))];
      assert AllAllowed(events);
      LastIsLaunched(code, sense, Begin(code, sense, 0), fn);
      assert !StaysInside(code, sense, Begin(code, sense, 0), events);
    }
  }

  lemma LastIsLaunched(code: seq<Instr>, sense: nat -> int, m: Machine, fn: nat)
    requires Safe(code, m) && fn < 0x100 && FindStart(code, fn) == |code| - 1
    ensures var events := [Injected(Instr(2, false, false, fn, 0))];
      AllAllowed(events) && !StaysInside(code, sense, m, events)
  {
    hide FindStart;
    LaunchedIndex(code, sense, m, Instr(2, false, false, fn, 0));
  }

  lemma LaunchedIndex(code: seq<Instr>, sense: nat -> int, m: Machine, i: Instr)
    requires Safe(code, m) && IsDo(i)
    ensures Execute(code, sense, m, i).index == FindStart(code, i.subcmd)
  {
  }

  /** Entering a handler is safe exactly when it is not taken or an instruction follows the handler's TO. */
  lemma EnterSafeIff(code: seq<Instr>, m: Machine)
    requires Safe(code, m) && -1 <= m.world.interrupt < |code|
    ensures Safe(code, EnterInterrupt(m)) <==>
      (m.base > 0 || |m.frames| == STACK_DEPTH || m.world.interrupt + 1 < |code|)
  {
    var e := EnterInterrupt(m);
    if m.base == 0 && |m.frames| < STACK_DEPTH && m.world.interrupt + 1 < |code| {
      assert e.frames[e.base] == SubFrame(m.index - 1, 0);
    }
  }

  /** A program ending in TO can be flown out of its array: the handler starts behind the last instruction. */
  lemma TrailingToRunsOut(sense: nat -> int)
    ensures var code := [Instr(12, false, false, 1, 1), Instr(1, false, false, 2, 1)];
      var m := Steps(code, sense, Reset(0), 1);
      EnterInterrupt(m).index == |code|
  {
    var code := [Instr(12, false, false, 1, 1), Instr(1, false, false, 2, 1)];
    var m := Step(code, sense, Reset(0));
    assert FindFrom(code, 0, 1) == FindFrom(code, 1, 1) == 1;
    assert m.world.interrupt == 1;
    assert Steps(code, sense, Reset(0), 1) == Steps(code, sense, m, 0);
  }
}
