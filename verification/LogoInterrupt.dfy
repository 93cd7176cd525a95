/**
 The interrupt handler borrows the flight plan's own stack and index.  Whether it ends at its
 END or is dropped when the finish line is crossed, however many updates later, the program
 underneath moves by its own processing cycles only -- and, on a full stack, by one too many.
 */
module LogoInterrupt {
  import opened LogoMachine
  import opened LogoSimulation
  import opened LogoCycle

  /** Same point of the same program: everything but the flown world is as in `m0`. */
  predicate Resting(m0: Machine, m: Machine) {
    m == m0.(world := m.world)
  }

  /** A handler runs on top of `m0`. */
  predicate Suspended(m0: Machine, m: Machine) {
    && |m0.frames| == m.base < |m.frames| && m.frames[..m.base] == m0.frames
    && m.frames[m.base].SubFrame? && m.frames[m.base].ret == m0.index - 1
  }

  /** The next `k` instructions fetched while a handler runs are neither EXEC nor TO. */
  predicate Meek(code: seq<Instr>, sense: nat -> int, m: Machine, k: nat)
    requires Safe(code, m)
    decreases k
  {
    k == 0 || m.base == 0
    || (!IsExec(code[m.index]) && !IsTo(code[m.index]) && Meek(code, sense, Step(code, sense, m), k - 1))
  }

  lemma EnterSuspends(code: seq<Instr>, m0: Machine)
    requires Safe(code, m0) && m0.base == 0 && |m0.frames| < STACK_DEPTH
    ensures Suspended(m0, EnterInterrupt(m0))
  {
    var x := EnterInterrupt(m0);
    assert x.frames[..x.base] == m0.frames;
  }

  /** Dropping the handler brings back the interrupted program. */
  lemma AbandonRestores(code: seq<Instr>, m0: Machine, m: Machine)
    requires Safe(code, m0) && m0.base == 0 && Suspended(m0, m)
    ensures Resting(m0, Abandon(m)) && Abandon(m).world == m.world
  {
  }

  /** One handler instruction: the handler goes on, or it just finished and the program is back. */
  lemma HandlerStep(code: seq<Instr>, sense: nat -> int, m0: Machine, m: Machine)
    requires Safe(code, m0) && m0.base == 0 && Safe(code, m) && Suspended(m0, m)
    requires !IsExec(code[m.index]) && !IsTo(code[m.index])
    ensures var x := Step(code, sense, m);
      if EndsInterrupt(m, code[m.index]) then Resting(m0, x) else Suspended(m0, x)
  {
    hide ActParam;
    hide ActWorld;
    hide Cond;
    hide ScanEnd;
    hide FindStart;
    var x, raw := Step(code, sense, m), code[m.index];
    if IsEnd(raw) {
      HandlerEnd(code, sense, m0, m);
    } else if IsAction(raw) {
      StepAction(code, sense, m);
      assert x.frames[..m.base] == m0.frames;
    } else {
      assert x.frames[..m.base] == m.frames[..m.base];
    }
  }

  lemma HandlerEnd(code: seq<Instr>, sense: nat -> int, m0: Machine, m: Machine)
    requires Safe(code, m0) && m0.base == 0 && Safe(code, m) && Suspended(m0, m) && IsEnd(code[m.index])
    ensures var x := Step(code, sense, m);
      if EndsInterrupt(m, code[m.index]) then Resting(m0, x) else Suspended(m0, x)
  {
    hide Step;
    StepEnd(code, sense, m);
    var top := m.frames[|m.frames| - 1];
    if |m.frames| - 1 == m.base {
      assert Pop(m.frames) == m0.frames;
    } else {
      assert End(m).frames[..m.base] == m0.frames;
    }
  }

  /** A cycle started in a handler leaves the handler running or the program back where it was. */
  lemma {:induction false} HandlerCycle(code: seq<Instr>, sense: nat -> int, m0: Machine, m: Machine, count: nat)
    requires Safe(code, m0) && m0.base == 0 && Safe(code, m) && Suspended(m0, m)
    requires count < MAX_PER_CYCLE && Meek(code, sense, m, MAX_PER_CYCLE - count)
    ensures var x := RunCycle(code, sense, m, count).0; Resting(m0, x) || Suspended(m0, x)
    decreases MAX_PER_CYCLE - count
  {
    hide Step;
    hide StepFlies;
    hide EndsInterrupt;
    hide Suspended;
    hide Resting;
    assert m.base > 0 by { HandlerRuns(m0, m); }
    HandlerStep(code, sense, m0, m);
    var raw, x := code[m.index], Step(code, sense, m);
    if !EndsInterrupt(m, raw) && count + 1 < MAX_PER_CYCLE {
      HandlerCycle(code, sense, m0, x, count + 1);
    }
  }

  lemma HandlerRuns(m0: Machine, m: Machine)
    requires |m0.frames| > 0 && Suspended(m0, m)
    ensures m.base > 0
  {
  }

  // ---------------------------------------------------------------- one update

  /** The program `q` rests, or a handler runs on top of it; the flown world apart. */
  predicate Covers(q: Machine, m: Machine) {
    q.base == 0 && |q.frames| > 0 && (Resting(q, m) || Suspended(q, m))
  }

  /** What the interrupt part of an update makes ready: the handler entered, going on, or dropped. */
  function Served(code: seq<Instr>, m: Machine, crossed: bool): (h: Machine)
    requires Inv(code, m)
    ensures Safe(code, h)
  {
    if m.world.interrupt == 0 then m
    else if crossed then AbandonOk(code, m); Abandon(m)
    else EnterOk(code, m); EnterInterrupt(m)
  }

  /** Crossing the finish line lets the program go on: no handler runs, or the one that does is dropped. */
  predicate Uncovers(m: Machine) {
    m.base == 0 || m.world.interrupt != 0
  }

  /** Does the interrupt part of the update run a processing cycle? */
  predicate Interrupting(m: Machine, crossed: bool) {
    m.world.interrupt != 0 && !crossed
  }

  /** In this update a handler, if one runs, fetches neither EXEC nor TO. */
  predicate Quiet(code: seq<Instr>, sense: nat -> int, m: Machine, input: Input)
    requires Inv(code, m)
  {
    Meek(code, sense, Served(code, m, input.crossed), 2 * MAX_PER_CYCLE)
  }

  /** No slot is left to enter the handler with. */
  predicate NoRoom(m: Machine) {
    m.base == 0 && |m.frames| == STACK_DEPTH
  }

  function Flown(code: seq<Instr>, sense: nat -> int, q: Machine, w: World): Machine
    requires Safe(code, q)
  {
    Cycle(code, sense, q.(world := w))
  }

  /**
   What the update does to the program underneath: a cycle when the goal is reached with no
   handler running, and another, unasked for, when the handler could not be entered.
   */
  function Underneath(code: seq<Instr>, sense: nat -> int, q: Machine, m: Machine, input: Input): (r: Machine)
    requires Safe(code, q) && Inv(code, m)
    ensures Safe(code, r)
  {
    InvInBounds(code, sense, m, Tick(input));
    var y := ServeInterrupt(code, sense, m, input.crossed);
    var q1 := if Interrupting(m, input.crossed) && NoRoom(m) then Flown(code, sense, q, m.world) else q;
    if input.arrived && y.base == 0 then Flown(code, sense, q1, y.world) else q1
  }

  lemma {:induction false} BaseStaysZero(code: seq<Instr>, sense: nat -> int, m: Machine, count: nat)
    requires Safe(code, m) && m.base == 0 && count < MAX_PER_CYCLE
    ensures RunCycle(code, sense, m, count).0.base == 0
    decreases MAX_PER_CYCLE - count
  {
    hide Step, StepFlies, EndsInterrupt;
    StepBaseZero(code, sense, m);
    var raw, x := code[m.index], Step(code, sense, m);
    if !EndsInterrupt(m, raw) && count + 1 < MAX_PER_CYCLE {
      BaseStaysZero(code, sense, x, count + 1);
    }
  }

  lemma StepBaseZero(code: seq<Instr>, sense: nat -> int, m: Machine)
    requires Safe(code, m) && m.base == 0
    ensures Step(code, sense, m).base == 0
  {
    hide ActParam, ActWorld, Cond, ScanEnd, FindStart;
  }

  /** A handler meek for longer than a cycle is meek after it. */
  lemma {:induction false} MeekAfterCycle(code: seq<Instr>, sense: nat -> int, m: Machine, count: nat, k: nat)
    requires Safe(code, m) && count < MAX_PER_CYCLE && Meek(code, sense, m, MAX_PER_CYCLE - count + k)
    ensures Meek(code, sense, RunCycle(code, sense, m, count).0, k)
    decreases MAX_PER_CYCLE - count
  {
    hide Step, StepFlies, EndsInterrupt;
    if m.base == 0 {
      BaseStaysZero(code, sense, m, count);
    } else {
      var raw, x := code[m.index], Step(code, sense, m);
      if !(StepFlies(m, raw) && x.world.pen == 0 && !x.world.camera) && !EndsInterrupt(m, raw) && count + 1 < MAX_PER_CYCLE {
        MeekAfterCycle(code, sense, x, count + 1, k);
      } else {
        LessMeek(code, sense, x, MAX_PER_CYCLE - count + k - 1, k);
      }
    }
  }

  lemma {:induction false} LessMeek(code: seq<Instr>, sense: nat -> int, m: Machine, k: nat, j: nat)
    requires Safe(code, m) && j <= k && Meek(code, sense, m, k)
    ensures Meek(code, sense, m, j)
    decreases k
  {
    hide Step;
    if j > 0 && m.base != 0 { LessMeek(code, sense, Step(code, sense, m), k - 1, j - 1); }
  }

  lemma RestsAs(q: Machine, m: Machine)
    requires Covers(q, m)
    ensures if m.base == 0 then m == q.(world := m.world) else Suspended(q, m)
    ensures forall w: World :: Resting(q, q.(world := w))
  {
  }

  lemma FlownCovers(code: seq<Instr>, sense: nat -> int, q: Machine, w: World)
    requires Safe(code, q) && q.base == 0
    ensures Covers(Flown(code, sense, q, w), Flown(code, sense, q, w))
  {
    hide RunCycle;
    BaseStaysZero(code, sense, q.(world := w), 0);
  }

  lemma RoomLeft(code: seq<Instr>, m: Machine)
    requires Safe(code, m) && m.base == 0 && !NoRoom(m)
    ensures |m.frames| < STACK_DEPTH
  {
  }

  /** The interrupt part of an update. */
  lemma ServeCovers(code: seq<Instr>, sense: nat -> int, q: Machine, m: Machine, crossed: bool)
    requires Safe(code, q) && Inv(code, m) && Covers(q, m) && Meek(code, sense, Served(code, m, crossed), 2 * MAX_PER_CYCLE)
    ensures crossed || EntersInside(code, m)
    ensures var y := ServeInterrupt(code, sense, m, crossed);
      && Meek(code, sense, y, MAX_PER_CYCLE)
      && Covers(if Interrupting(m, crossed) && NoRoom(m) then Flown(code, sense, q, m.world) else q, y)
      && (crossed ==> y == if Uncovers(m) then q.(world := m.world) else m)
  {
    hide RunCycle, Meek, Safe, Suspended;
    InvInBounds(code, sense, m, Tick(Input(crossed, false)));
    RestsAs(q, m);
    var h := Served(code, m, crossed);
    if m.world.interrupt == 0 {
      LessMeek(code, sense, h, 2 * MAX_PER_CYCLE, MAX_PER_CYCLE);
    } else if crossed {
      if m.base != 0 { AbandonRestores(code, q, m); }
      LessMeek(code, sense, h, 2 * MAX_PER_CYCLE, MAX_PER_CYCLE);
    } else {
      MeekAfterCycle(code, sense, h, 0, MAX_PER_CYCLE);
      if NoRoom(m) {
        FlownCovers(code, sense, q, m.world);
      } else {
        if m.base == 0 { RoomLeft(code, m); EnterSuspends(code, m); SuspendedBelow(q, m, h); }
        LessMeek(code, sense, h, 2 * MAX_PER_CYCLE, MAX_PER_CYCLE);
        HandlerCycle(code, sense, q, h, 0);
      }
    }
  }

  lemma SuspendedBelow(q: Machine, m: Machine, h: Machine)
    requires Resting(q, m) && Suspended(m, h)
    ensures Suspended(q, h)
  {
  }

  /**
   The program underneath after an update is covered again.  Crossing the line uncovers it, unless
   the handler that runs has cleared itself: then that goes on, if the goal counts as reached.
   */
  lemma UpdateCovers(code: seq<Instr>, sense: nat -> int, q: Machine, m: Machine, input: Input)
    requires Safe(code, q) && Inv(code, m) && Covers(q, m) && Quiet(code, sense, m, input)
    ensures InBounds(code, sense, m, Tick(input))
    ensures Covers(Underneath(code, sense, q, m, input), Update(code, sense, m, Tick(input)))
    ensures input.crossed ==> Update(code, sense, m, Tick(input)) == Crossed(code, sense, q, m, input.arrived)
  {
    hide RunCycle, Meek, Safe, Suspended, Covers;
    InvInBounds(code, sense, m, Tick(input));
    ServeCovers(code, sense, q, m, input.crossed);
    var y := ServeInterrupt(code, sense, m, input.crossed);
    var q1 := if Interrupting(m, input.crossed) && NoRoom(m) then Flown(code, sense, q, m.world) else q;
    if input.arrived { CycleCovers(code, sense, q1, y); }
  }

  /** What an update that crosses the finish line goes on with, `q` being underneath. */
  function Crossed(code: seq<Instr>, sense: nat -> int, q: Machine, m: Machine, arrived: bool): Machine
    requires Safe(code, q) && Safe(code, m)
  {
    if Uncovers(m) then (if arrived then Flown(code, sense, q, m.world) else q.(world := m.world))
    else if arrived then Cycle(code, sense, m) else m
  }

  lemma CycleCovers(code: seq<Instr>, sense: nat -> int, q: Machine, y: Machine)
    requires Safe(code, q) && Safe(code, y) && Covers(q, y) && Meek(code, sense, y, MAX_PER_CYCLE)
    ensures Covers(if y.base == 0 then Flown(code, sense, q, y.world) else q, Cycle(code, sense, y))
  {
    hide RunCycle, Meek, Safe, Suspended;
    RestsAs(q, y);
    if y.base == 0 {
      FlownCovers(code, sense, q, y.world);
    } else {
      HandlerCycle(code, sense, q, y, 0);
    }
  }

  // ---------------------------------------------------------------- any number of updates

  function After(code: seq<Instr>, sense: nat -> int, m: Machine, inputs: seq<Input>): (r: Machine)
    requires Inv(code, m)
    ensures Inv(code, r)
    decreases |inputs|
  {
    if inputs == [] then m
    else
      UpdateKeepsInv(code, sense, m, Tick(inputs[0]));
      After(code, sense, Update(code, sense, m, Tick(inputs[0])), inputs[1..])
  }

  predicate AllQuiet(code: seq<Instr>, sense: nat -> int, m: Machine, inputs: seq<Input>)
    requires Inv(code, m)
    decreases |inputs|
  {
    inputs == []
    || (UpdateKeepsInv(code, sense, m, Tick(inputs[0]));
        Quiet(code, sense, m, inputs[0]) && AllQuiet(code, sense, Update(code, sense, m, Tick(inputs[0])), inputs[1..]))
  }

  /** The program `q` underneath after the updates. */
  function Below(code: seq<Instr>, sense: nat -> int, q: Machine, m: Machine, inputs: seq<Input>): (r: Machine)
    requires Safe(code, q) && Inv(code, m)
    ensures Safe(code, r)
    decreases |inputs|
  {
    if inputs == [] then q
    else
      UpdateKeepsInv(code, sense, m, Tick(inputs[0]));
      Below(code, sense, Underneath(code, sense, q, m, inputs[0]), Update(code, sense, m, Tick(inputs[0])), inputs[1..])
  }

  lemma {:induction false} UpdatesCover(code: seq<Instr>, sense: nat -> int, q: Machine, m: Machine, inputs: seq<Input>)
    requires Safe(code, q) && Inv(code, m) && Covers(q, m) && AllQuiet(code, sense, m, inputs)
    ensures Covers(Below(code, sense, q, m, inputs), After(code, sense, m, inputs))
    decreases |inputs|
  {
    hide Update, Quiet, Underneath, Safe, Covers, NoLastFunction;
    if inputs != [] {
      UpdateKeepsInv(code, sense, m, Tick(inputs[0]));
      UpdateCovers(code, sense, q, m, inputs[0]);
      UpdatesCover(code, sense, Underneath(code, sense, q, m, inputs[0]), Update(code, sense, m, Tick(inputs[0])), inputs[1..]);
    }
  }

  /** Crossing the line without a cycle brings back the program exactly if no handler runs that has cleared itself. */
  lemma CrossingIff(code: seq<Instr>, sense: nat -> int, q: Machine, m: Machine)
    requires Safe(code, q) && Inv(code, m) && Covers(q, m)
    ensures InBounds(code, sense, m, Tick(Input(true, false)))
    ensures Update(code, sense, m, Tick(Input(true, false))) == q.(world := m.world) <==> Uncovers(m)
  {
    hide RunCycle, Safe;
    RestsAs(q, m);
    if m.base != 0 { AbandonRestores(code, q, m); }
  }

  /**
   Transparency, over all inputs: whatever handlers were entered, ended, dropped and entered again
   over any updates, goals reached and lines crossed on the way, the update that crosses the
   finish line goes on with the program underneath, which has run only its own cycles -- unless a
   handler runs that has cleared itself; that is not dropped, and a goal reached gives the cycle to it.
   */
  lemma InterruptTransparent(code: seq<Instr>, sense: nat -> int, m0: Machine, inputs: seq<Input>, arrived: bool)
    requires Inv(code, m0) && m0.base == 0 && AllQuiet(code, sense, m0, inputs)
    ensures var x, q := After(code, sense, m0, inputs), Below(code, sense, m0, m0, inputs);
      && Covers(q, x) && InBounds(code, sense, x, Tick(Input(true, arrived)))
      && var z := Update(code, sense, x, Tick(Input(true, arrived)));
      && z == Crossed(code, sense, q, x, arrived)
      && (!arrived ==> (z == q.(world := x.world) <==> Uncovers(x)))
  {
    hide After, Below, AllQuiet, Update, NoLastFunction, Safe, Flown, Suspended;
    assert Covers(m0, m0) by { CoversItself(code, m0); }
    UpdatesCover(code, sense, m0, m0, inputs);
    var x, q := After(code, sense, m0, inputs), Below(code, sense, m0, m0, inputs);
    CrossingGoesOn(code, sense, q, x, arrived);
    CrossingIff(code, sense, q, x);
  }

  lemma CrossingGoesOn(code: seq<Instr>, sense: nat -> int, q: Machine, m: Machine, arrived: bool)
    requires Safe(code, q) && Inv(code, m) && Covers(q, m)
    ensures InBounds(code, sense, m, Tick(Input(true, arrived)))
    ensures Update(code, sense, m, Tick(Input(true, arrived))) == Crossed(code, sense, q, m, arrived)
  {
    hide RunCycle, Safe;
    RestsAs(q, m);
    if m.base != 0 { AbandonRestores(code, q, m); }
  }

  lemma CoversItself(code: seq<Instr>, m: Machine)
    requires Safe(code, m) && m.base == 0
    ensures Covers(m, m)
  {
  }

  /** With room for the handler and no goal reached on the way the program underneath stays as it was. */
  lemma {:induction false} ProgramWaits(code: seq<Instr>, sense: nat -> int, q: Machine, m: Machine, inputs: seq<Input>)
    requires Safe(code, q) && Inv(code, m) && Covers(q, m) && AllQuiet(code, sense, m, inputs)
    requires |q.frames| < STACK_DEPTH && forall k :: 0 <= k < |inputs| ==> !inputs[k].arrived
    ensures Below(code, sense, q, m, inputs) == q
    decreases |inputs|
  {
    hide Update, Quiet, Safe, NoLastFunction, Suspended, Resting;
    if inputs != [] {
      UpdateKeepsInv(code, sense, m, Tick(inputs[0]));
      UpdateCovers(code, sense, q, m, inputs[0]);
      HasRoom(q, m);
      assert Underneath(code, sense, q, m, inputs[0]) == q;
      ProgramWaits(code, sense, q, Update(code, sense, m, Tick(inputs[0])), inputs[1..]);
    }
  }

  lemma HasRoom(q: Machine, m: Machine)
    requires Covers(q, m) && |q.frames| < STACK_DEPTH
    ensures !NoRoom(m)
  {
  }

  // ---------------------------------------------------------------- a full stack

  const EN_ROUTE := Tick(Input(false, false))

  /** The handler is entered exactly if a slot is left. */
  lemma EnteredIff(code: seq<Instr>, m: Machine)
    requires Safe(code, m) && m.base == 0
    ensures Suspended(m, EnterInterrupt(m)) <==> |m.frames| < STACK_DEPTH
  {
    if |m.frames| < STACK_DEPTH { EnterSuspends(code, m); }
  }

  /**
   If it is not, the update processes the interrupted program itself, on the way to its goal.
   So that program waits exactly if there is room, or it runs in a circle to where it was.
   */
  lemma FullStackRunsProgram(code: seq<Instr>, sense: nat -> int, m: Machine)
    requires Inv(code, m) && m.base == 0 && m.world.interrupt != 0 && Quiet(code, sense, m, EN_ROUTE.input)
    ensures InBounds(code, sense, m, EN_ROUTE)
    ensures |m.frames| == STACK_DEPTH ==> Update(code, sense, m, EN_ROUTE) == Cycle(code, sense, m)
    ensures Covers(m, Update(code, sense, m, EN_ROUTE)) <==> |m.frames| < STACK_DEPTH || Resting(m, Cycle(code, sense, m))
  {
    hide RunCycle, Quiet;
    InvInBounds(code, sense, m, EN_ROUTE);
    if |m.frames| < STACK_DEPTH {
      UpdateCovers(code, sense, m, m, EN_ROUTE.input);
    } else {
      BaseStaysZero(code, sense, m, 0);
    }
  }

  // ---------------------------------------------------------------- a handler that clears itself

  /** SET_INTERRUPT(1), EAST(1), END; TO(1), CLEAR_INTERRUPT, EAST(1), NORTH(1), END. */
  const CLEARING: seq<Instr> :=
    [Instr(12, false, false, 1, 1), Instr(5, true, false, 0, 1), Instr(1, false, false, 1, 0),
     Instr(1, false, false, 2, 1), Instr(12, false, false, 0, 0), Instr(5, true, false, 0, 1), Instr(5, true, false, 2, 1),
     Instr(1, false, false, 1, 0)]

  lemma ClearingHandler()
    ensures FindStart(CLEARING, 1) == 3 && NoLastFunction(CLEARING)
  {
    hide FindFrom;
    FirstTo(CLEARING, 3, 1);
  }

  lemma FirstTo(code: seq<Instr>, k: nat, fn: nat)
    requires k < |code| && IsTo(code[k]) && code[k].arg == fn && forall j :: 0 <= j < k ==> !IsTo(code[j])
    ensures FindFrom(code, 0, fn) == k
  {
    FirstToFrom(code, 0, k, fn);
  }

  lemma {:induction false} FirstToFrom(code: seq<Instr>, i: nat, k: nat, fn: nat)
    requires i <= k < |code| && IsTo(code[k]) && code[k].arg == fn && forall j :: 0 <= j < k ==> !IsTo(code[j])
    ensures FindFrom(code, i, fn) == k
    decreases k - i
  {
    if i < k { FirstToFrom(code, i + 1, k, fn); }
  }

  /** The program has set the handler and flies to the east of where it was. */
  function Interrupted(readings: nat): Machine {
    Machine(2, [SubFrame(-1, 0)], 0, World([Effect(false, 5, 0, 1)], 0, false, 3, readings))
  }

  /** The handler has cleared itself and flies on; its next instruction is the NORTH. */
  function Clearing(readings: nat): Machine {
    Machine(6, [SubFrame(-1, 0), SubFrame(1, 0)], 1, World([Effect(false, 5, 0, 1), Effect(false, 5, 0, 1)], 0, false, 0, readings))
  }

  /** The handler after the crossing that counted as reaching the goal: it has flown north, the program still waits. */
  function StillClearing(readings: nat): Machine {
    Machine(7, [SubFrame(-1, 0), SubFrame(1, 0)], 1,
            World([Effect(false, 5, 0, 1), Effect(false, 5, 0, 1), Effect(false, 5, 2, 1)], 0, false, 0, readings))
  }

  /** A move flown, or a handler set or cleared, on the way through a cycle. */
  lemma ActionGoesOn(code: seq<Instr>, sense: nat -> int, m: Machine, count: nat)
    requires Safe(code, m) && m.index + 1 < |code| && code[m.index].cmd in [5, 12] && !code[m.index].useParam
    requires count + 1 < MAX_PER_CYCLE && m.world.pen == 0 && !m.world.camera
    ensures var x := m.(index := m.index + 1, world := ActWorld(code, m.world, code[m.index]));
      && Safe(code, x) && Step(code, sense, m) == x
      && RunCycle(code, sense, m, count).0 == if code[m.index].doFly then x else RunCycle(code, sense, x, count + 1).0
  {
    hide FindStart, Step;
    StepAction(code, sense, m);
    ParamFacts(m.frames, 0, 0);
  }

  lemma ClearingBegins(sense: nat -> int, readings: nat)
    ensures Begin(CLEARING, sense, readings) == Interrupted(readings)
  {
    hide RunCycle, FindStart;
    ClearingHandler();
    var m := Reset(readings);
    ActionGoesOn(CLEARING, sense, m, 0);
    var x := m.(index := 1, world := m.world.(interrupt := 3));
    ActionGoesOn(CLEARING, sense, x, 1);
  }

  lemma ClearingFlies(sense: nat -> int, readings: nat)
    ensures Safe(CLEARING, EnterInterrupt(Interrupted(readings)))
    ensures Cycle(CLEARING, sense, EnterInterrupt(Interrupted(readings))) == Clearing(readings)
    ensures Safe(CLEARING, Clearing(readings)) && Cycle(CLEARING, sense, Clearing(readings)) == StillClearing(readings)
  {
    hide RunCycle, FindStart;
    var h := EnterInterrupt(Interrupted(readings));
    ActionGoesOn(CLEARING, sense, h, 0);
    ActionGoesOn(CLEARING, sense, h.(index := 5, world := h.world.(interrupt := 0)), 1);
    ActionGoesOn(CLEARING, sense, Clearing(readings), 0);
  }

  /**
   Begun, interrupted once on the way and then across the finish line: the handler has cleared itself and
   is still there, and where reaching the goal should go on with the END of the program, it flies north.
   */
  lemma ClearedHandlerStays(sense: nat -> int, readings: nat)
    ensures (ClearingHandler(); BeginsWithInv(CLEARING, sense, readings);
      var m := After(CLEARING, sense, Begin(CLEARING, sense, readings), [Input(false, false)]);
      && m == Clearing(readings) && !Uncovers(m)
      && After(CLEARING, sense, m, [Input(true, false)]) == m
      && After(CLEARING, sense, m, [Input(true, true)]) == StillClearing(readings))
  {
    hide RunCycle, FindStart, NoLastFunction;
    ClearingHandler();
    BeginsWithInv(CLEARING, sense, readings);
    ClearingBegins(sense, readings);
    ClearingFlies(sense, readings);
    var m0, m := Begin(CLEARING, sense, readings), Clearing(readings);
    UpdateKeepsInv(CLEARING, sense, m0, Tick(Input(false, false)));
    assert Update(CLEARING, sense, m0, Tick(Input(false, false))) == m;
    AfterOne(CLEARING, sense, m0, Input(false, false));
    AfterOne(CLEARING, sense, m, Input(true, false));
    AfterOne(CLEARING, sense, m, Input(true, true));
  }

  lemma AfterOne(code: seq<Instr>, sense: nat -> int, m: Machine, input: Input)
    requires Inv(code, m)
    ensures InBounds(code, sense, m, Tick(input)) && After(code, sense, m, [input]) == Update(code, sense, m, Tick(input))
  {
    hide Update, NoLastFunction, Safe;
    UpdateKeepsInv(code, sense, m, Tick(input));
    assert [input][1..] == [];
  }
}
