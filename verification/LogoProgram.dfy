/** Whole programs: the machine and the recursive evaluation agree after any number of instructions. */
module LogoProgram {
  import opened LogoMachine
  import opened LogoBlocks
  import opened LogoLayout
  import opened LogoSimulation
  import opened LogoCycle

  /** About to run function `fn` as the program, from its first instruction. */
  predicate Starts(p: Program, fn: nat, m: Machine) {
    && IsProgram(p) && Safe(Code(p), m)
    && |m.frames| == 1 && m.frames[0].ret == FindStart(Code(p), fn)
    && m.index == Norm(Code(p), FindStart(Code(p), fn) + 1) && m.base == 0
  }

  /**
   For every program of well-nested blocks, every stream of sensor readings and every
   number `n`: after `n` instructions the machine has produced exactly the effects, and
   PARAM has exactly the value, that recursive evaluation of the blocks has after `n`
   instructions -- unless that evaluation escapes the block discipline before.
   */
  lemma {:induction false} ProgramSimulated(p: Program, sense: nat -> int, fn: nat, m: Machine, n: nat)
    requires Starts(p, fn, m)
    ensures var r := EvalProgram(p, sense, fn, ContextOf(m), n);
      r.Escape? || r == Cut(ContextOf(Steps(Code(p), sense, m, n)))
    decreases n
  {
    hide Code;
    hide Step;
    hide Steps;
    hide At;
    hide Flatten;
    hide EvalBlock;
    hide IsBlock;
    hide IsProgram;
    var code, b, s := Code(p), Body(p, fn), FindStart(Code(p), fn);
    FindStartLands(p, fn);
    SimBlock(p, sense, m, n, s + 1, b);
    match EvalBlock(p, sense, b, 1, ContextOf(m), n)
    case Done(c, left) =>
      ParamFacts(m.frames, c.param, c.param);
      if !IsClosed(p, fn) && p.subs == [] {
        MainWraps(p, sense, fn, m, n, c, left);
      } else if left > 0 {
        ProgramRestarts(p, sense, fn, m, n, c, left);
      }
    case Leave(fn1, c, left) =>
      ProgramLeaves(p, sense, m, n, fn1, c, left);
    case Cut(c) =>
    case Escape =>
  }

  lemma {:induction false} ProgramRestarts(p: Program, sense: nat -> int, fn: nat, m: Machine, n: nat, c: Context, left: nat)
    requires Starts(p, fn, m) && 0 < left <= n
    requires var x := Steps(Code(p), sense, m, n - left);
      x.frames == SetParam(m.frames, c.param) && x.world == c.world && (IsEnd(Code(p)[x.index]) || IsTo(Code(p)[x.index]))
    ensures var r := EvalProgram(p, sense, fn, c, left - 1);
      r.Escape? || r == Cut(ContextOf(Steps(Code(p), sense, m, n)))
    decreases n, 0
  {
    hide Code;
    hide Step;
    hide EvalProgram;
    hide IsProgram;
    var code := Code(p);
    var x := Steps(code, sense, m, n - left);
    ParamFacts(m.frames, c.param, c.param);
    Restarts(code, sense, x);
    StepsAdd(code, sense, m, n - left, left);
    ProgramSimulated(p, sense, fn, Step(code, sense, x), left - 1);
  }

  /** END or TO outside all blocks starts the running program over. */
  lemma Restarts(code: seq<Instr>, sense: nat -> int, m: Machine)
    requires Safe(code, m) && |m.frames| == 1 && (IsEnd(code[m.index]) || IsTo(code[m.index]))
    ensures Step(code, sense, m) == Machine(Norm(code, m.frames[0].ret + 1), m.frames, 0, m.world)
  {
    assert m.frames[..1] == m.frames;
  }

  lemma OnlyMain(p: Program, fn: nat)
    requires IsProgram(p) && !p.closed && p.subs == []
    ensures Body(p, fn).Cons? && FindStart(Code(p), fn) == -1
  {
    FindStartLands(p, fn);
    FoundAfterMain(p, fn);
  }

  lemma {:induction false} MainWraps(p: Program, sense: nat -> int, fn: nat, m: Machine, n: nat, c: Context, left: nat)
    requires Starts(p, fn, m) && !p.closed && p.subs == [] && left <= n
    requires EvalBlock(p, sense, Body(p, fn), 1, ContextOf(m), n) == Done(c, left)
    requires Steps(Code(p), sense, m, n - left) == Machine(0, SetParam(m.frames, c.param), 0, c.world)
    ensures var r := EvalProgram(p, sense, fn, ContextOf(m), n);
      r.Escape? || r == Cut(ContextOf(Steps(Code(p), sense, m, n)))
    decreases n, 0
  {
    hide Code;
    hide Step;
    hide EvalBlock;
    hide IsProgram;
    var code := Code(p);
    var x := Steps(code, sense, m, n - left);
    ParamFacts(m.frames, c.param, c.param);
    assert ContextOf(x) == c;
    OnlyMain(p, fn);
    if left < n {
      StepsAdd(code, sense, m, n - left, left);
      ProgramSimulated(p, sense, fn, x, left);
    }
  }

  lemma {:induction false} ProgramLeaves(p: Program, sense: nat -> int, m: Machine, n: nat, fn1: nat, c: Context, left: nat)
    requires IsProgram(p) && Safe(Code(p), m) && |m.frames| == 1 && left < n
    requires Steps(Code(p), sense, m, n - left) == Launched(Code(p), m.frames, fn1, c)
    ensures var r := EvalProgram(p, sense, fn1, c, left);
      r.Escape? || r == Cut(ContextOf(Steps(Code(p), sense, m, n)))
    decreases n, 0
  {
    hide Code;
    hide Step;
    hide EvalProgram;
    hide IsProgram;
    var code := Code(p);
    var x := Steps(code, sense, m, n - left);
    ParamFacts(m.frames, c.param, c.param);
    StepsAdd(code, sense, m, n - left, left);
    ProgramSimulated(p, sense, fn1, x, left);
  }

  // ---------------------------------------------------------------- flights

  predicate ToFree(s: seq<Instr>) {
    forall k :: 0 <= k < |s| ==> !IsTo(s[k])
  }

  lemma {:induction false} NoToInside(b: Block)
    requires IsBlock(b)
    ensures ToFree(Flatten(b))
    decreases b, 0
  {
    hide FlattenStmt;
    if b.Cons? {
      NoToInsideStmt(b.head);
      NoToInside(b.tail);
    }
  }

  lemma {:induction false} NoToInsideStmt(s: Stmt)
    requires IsStmt(s)
    ensures ToFree(FlattenStmt(s))
    decreases s, 0
  {
    hide Flatten;
    match s
    case Plain(i) =>
    case Repeat(i, body) => NoToInside(body);
    case When(i, thn) => NoToInside(thn);
    case Choose(i, thn, els) =>
      NoToInside(thn);
      NoToInside(els);
      assert ToFree([ELSE] + Flatten(els));
      assert ToFree(Flatten(thn) + ([ELSE] + Flatten(els)));
  }

  lemma {:induction false} SubsEndInEnd(subs: seq<Sub>)
    requires subs != []
    ensures |SubsCode(subs)| > 0 && SubsCode(subs)[|SubsCode(subs)| - 1] == END
    decreases |subs|
  {
    hide Flatten;
    if |subs| > 1 {
      SubsEndInEnd(subs[1..]);
    }
  }

  /** Programs of well-nested blocks are safe to fly: they never end in a TO. */
  lemma BlocksNoTrailingTo(p: Program)
    requires IsProgram(p)
    ensures !IsTo(Code(p)[|Code(p)| - 1]) && NoLastFunction(Code(p))
  {
    hide Flatten, FindFrom;
    if p.subs != [] {
      SubsEndInEnd(p.subs);
    } else {
      NoToInside(p.main);
    }
  }

  /** Updates only, none of them finding an interrupt handler configured. */
  predicate Undisturbed(code: seq<Instr>, sense: nat -> int, m: Machine, events: seq<Event>)
    requires Inv(code, m)
    decreases |events|
  {
    events == []
    || (events[0].Tick? && m.world.interrupt == 0
        && (UpdateKeepsInv(code, sense, m, events[0]);
            Undisturbed(code, sense, Update(code, sense, m, events[0]), events[1..])))
  }

  lemma {:induction false} UndisturbedIsSteps(code: seq<Instr>, sense: nat -> int, m: Machine, events: seq<Event>) returns (n: nat)
    requires Inv(code, m) && Undisturbed(code, sense, m, events)
    requires AllAllowed(events)
    ensures Run(code, sense, m, events) == Steps(code, sense, m, n)
    decreases |events|
  {
    hide RunCycle;
    hide Steps;
    hide Safe;
    n := 0;
    if events == [] {
      ZeroSteps(code, sense, m);
    } else {
      UpdateKeepsInv(code, sense, m, events[0]);
      var x := Update(code, sense, m, events[0]);
      n := UndisturbedIsSteps(code, sense, x, events[1..]);
      if events[0].input.arrived {
        var k := CycleIsSteps(code, sense, m, 0);
        StepsAdd(code, sense, m, k, n);
        n := k + n;
      }
    }
  }

  lemma ZeroSteps(code: seq<Instr>, sense: nat -> int, m: Machine)
    requires Safe(code, m)
    ensures Steps(code, sense, m, 0) == m
  {
  }

  lemma FlightBegins(p: Program, sense: nat -> int, readings: nat)
    requires IsProgram(p)
    ensures Inv(Code(p), Begin(Code(p), sense, readings))
  {
    hide Code, IsProgram, Begin;
    assert 1 <= |Code(p)| <= MAX_PROGRAM by { SizeOf(p); }
    BlocksNoTrailingTo(p);
    BeginsWithInv(Code(p), sense, readings);
  }

  lemma SizeOf(p: Program)
    requires IsProgram(p)
    ensures 1 <= |Code(p)| <= MAX_PROGRAM
  {
  }

  lemma FlightIsSteps(code: seq<Instr>, sense: nat -> int, readings: nat, events: seq<Event>) returns (n: nat)
    requires 1 <= |code| <= MAX_PROGRAM && Inv(code, Begin(code, sense, readings)) && AllAllowed(events)
    requires Undisturbed(code, sense, Begin(code, sense, readings), events)
    ensures Run(code, sense, Begin(code, sense, readings), events) == Steps(code, sense, Reset(readings), n)
  {
    hide Run, RunCycle, Steps, NoLastFunction, Undisturbed;
    var k := CycleIsSteps(code, sense, Reset(readings), 0);
    var l := UndisturbedIsSteps(code, sense, Begin(code, sense, readings), events);
    StepsAdd(code, sense, Reset(readings), k, l);
    n := k + l;
  }

  /**
   A whole flight, cycle limits and FLY pauses included: after any number of updates
   without interrupt handler, effects and PARAM are those of the recursive evaluation
   of MAIN cut off after the number `n` of instructions executed.
   */
  lemma FlightFollowsBlocks(p: Program, sense: nat -> int, readings: nat, events: seq<Event>) returns (n: nat)
    requires IsProgram(p) && AllAllowed(events)
    requires (FlightBegins(p, sense, readings); Undisturbed(Code(p), sense, Begin(Code(p), sense, readings), events))
    ensures (FlightBegins(p, sense, readings);
      var m := Run(Code(p), sense, Begin(Code(p), sense, readings), events);
      var r := EvalProgram(p, sense, 0, Context(Reset(readings).world, 0), n);
      m == Steps(Code(p), sense, Reset(readings), n) && (r.Escape? || r == Cut(ContextOf(m))))
  {
    FlightBegins(p, sense, readings);
    hide Run, Steps, EvalProgram, Inv, Undisturbed, Begin, Code, AllAllowed;
    SizeOf(p);
    StartsAtReset(p, readings);
    n := FlightIsSteps(Code(p), sense, readings, events);
    ProgramSimulated(p, sense, 0, Reset(readings), n);
  }

  lemma StartsAtReset(p: Program, readings: nat)
    requires IsProgram(p)
    ensures Starts(p, 0, Reset(readings)) && ContextOf(Reset(readings)) == Context(Reset(readings).world, 0)
  {
  }

  // ---------------------------------------------------------------- EXEC

  /** None of the next `n` instructions is an EXEC. */
  predicate NoExec(code: seq<Instr>, sense: nat -> int, m: Machine, n: nat)
    requires Safe(code, m)
    decreases n
  {
    n == 0 || (!IsExec(code[m.index]) && NoExec(code, sense, Step(code, sense, m), n - 1))
  }

  lemma KeepsStart(code: seq<Instr>, sense: nat -> int, m: Machine)
    requires Safe(code, m) && !IsExec(code[m.index])
    ensures Step(code, sense, m).frames[0].ret == m.frames[0].ret
  {
    hide ActParam, ActWorld, Cond, ScanEnd, FindStart;
  }

  lemma {:induction false} KeepsStartFor(code: seq<Instr>, sense: nat -> int, m: Machine, n: nat)
    requires Safe(code, m) && NoExec(code, sense, m, n)
    ensures Steps(code, sense, m, n).frames[0].ret == m.frames[0].ret
    decreases n
  {
    hide Step;
    if n > 0 {
      KeepsStart(code, sense, m);
      KeepsStartFor(code, sense, Step(code, sense, m), n - 1);
    }
  }

  lemma ExecLaunches(code: seq<Instr>, sense: nat -> int, m: Machine)
    requires Safe(code, m) && IsExec(code[m.index])
    ensures var x, s := Step(code, sense, m), FindStart(code, code[m.index].subcmd);
      x.index == Norm(code, s + 1) && x.base == 0 && x.frames == [SubFrame(s, m.frames[0].arg)]
  {
    hide FindStart;
  }

  /**
   What starts over after EXEC is the function last EXECed, until the next EXEC: an END or TO
   outside all blocks goes on behind its TO.  That is the top of the program exactly if the function
   is MAIN or not defined, or its TO is the very last instruction.
   */
  lemma ExecStartsOver(code: seq<Instr>, sense: nat -> int, m: Machine, n: nat)
    requires Safe(code, m) && IsExec(code[m.index]) && NoExec(code, sense, Step(code, sense, m), n)
    ensures var y, s := Steps(code, sense, Step(code, sense, m), n), FindStart(code, code[m.index].subcmd);
      |y.frames| == 1 && (IsEnd(code[y.index]) || IsTo(code[y.index])) ==>
        Step(code, sense, y).index == Norm(code, s + 1) && (Step(code, sense, y).index == 0 <==> s == -1 || s == |code| - 1)
  {
    hide Step, Steps, FindStart;
    ExecLaunches(code, sense, m);
    KeepsStartFor(code, sense, Step(code, sense, m), n);
    var y := Steps(code, sense, Step(code, sense, m), n);
    if |y.frames| == 1 && (IsEnd(code[y.index]) || IsTo(code[y.index])) {
      Restarts(code, sense, y);
    }
  }

  /** EXEC_ARG leaves PARAM at the value it had outside all calls, which is its argument exactly if it was before. */
  lemma ExecIgnoresArgument(code: seq<Instr>, sense: nat -> int, m: Machine)
    requires Safe(code, m) && IsExec(code[m.index])
    ensures Param(Step(code, sense, m).frames) == m.frames[0].arg
    ensures Param(Step(code, sense, m).frames) == Resolve(m.frames, code[m.index]).arg <==>
      m.frames[0].arg == Resolve(m.frames, code[m.index]).arg
  {
    hide Step;
    ExecLaunches(code, sense, m);
  }

  /** EXEC_ARG(1, 5), TO(1), FD(10), END: the forward goes on for ever, with PARAM 0, and the top is not seen again. */
  const EXEC_ONE: seq<Instr> :=
    [Instr(10, false, false, 1, 5), Instr(1, false, false, 2, 1), Instr(3, true, false, 0, 10), END]

  lemma {:induction false} ExecutedForEver(sense: nat -> int, n: nat)
    requires n > 0
    ensures var m := Steps(EXEC_ONE, sense, Reset(0), n);
      m.index == (if n % 2 == 1 then 2 else 3) && m.frames == [SubFrame(1, 0)] && m.base == 0
    decreases n
  {
    if n == 1 {
      FirstFound();
      assert Steps(EXEC_ONE, sense, Reset(0), 1) == Steps(EXEC_ONE, sense, Step(EXEC_ONE, sense, Reset(0)), 0);
    } else {
      ExecutedForEver(sense, n - 1);
      var x := Steps(EXEC_ONE, sense, Reset(0), n - 1);
      StepsAdd(EXEC_ONE, sense, Reset(0), n - 1, 1);
      assert Steps(EXEC_ONE, sense, x, 1) == Steps(EXEC_ONE, sense, Step(EXEC_ONE, sense, x), 0);
      if n % 2 == 1 {
        Restarts(EXEC_ONE, sense, x);
      } else {
        StepAction(EXEC_ONE, sense, x);
      }
    }
  }

  lemma FirstFound()
    ensures FindStart(EXEC_ONE, 1) == 1
  {
    assert FindFrom(EXEC_ONE, 0, 1) == FindFrom(EXEC_ONE, 1, 1) == 1;
  }
}
