/**
 The stack has 12 slots and the running program occupies one, so blocks nest 11 deep.  On a
 full stack a block or call is entered without a frame, and what closes it acts on the caller's.
 */
module LogoStackLimit {
  import opened LogoMachine
  import opened LogoBlocks
  import opened LogoLayout
  import opened LogoSimulation
  import opened LogoCycle

  // ---------------------------------------------------------------- REPEAT frames

  /** A REPEAT frame returns to a REPEAT. */
  predicate RepeatsPoint(code: seq<Instr>, frames: seq<Frame>) {
    forall k :: 0 <= k < |frames| && frames[k].RepeatFrame? ==> 0 <= frames[k].ret < |code| && IsRepeat(code[frames[k].ret])
  }

  lemma ExecuteKeepsRepeats(code: seq<Instr>, sense: nat -> int, m: Machine, i: Instr)
    requires Safe(code, m) && RepeatsPoint(code, m.frames) && (IsRepeat(i) ==> IsRepeat(code[m.index]))
    ensures RepeatsPoint(code, Execute(code, sense, m, i).frames)
  {
    hide ActParam, ActWorld, Cond, ScanEnd, FindStart;
  }

  lemma StepKeepsRepeats(code: seq<Instr>, sense: nat -> int, m: Machine)
    requires Safe(code, m) && RepeatsPoint(code, m.frames)
    ensures RepeatsPoint(code, Step(code, sense, m).frames)
  {
    hide Execute, RepeatsPoint;
    ExecuteKeepsRepeats(code, sense, m, code[m.index]);
  }

  lemma {:induction false} StepsKeepRepeats(code: seq<Instr>, sense: nat -> int, m: Machine, n: nat)
    requires Safe(code, m) && RepeatsPoint(code, m.frames)
    ensures RepeatsPoint(code, Steps(code, sense, m, n).frames)
    decreases n
  {
    hide Step, RepeatsPoint;
    if n > 0 {
      StepKeepsRepeats(code, sense, m);
      StepsKeepRepeats(code, sense, Step(code, sense, m), n - 1);
    }
  }

  lemma CycleKeepsRepeats(code: seq<Instr>, sense: nat -> int, m: Machine)
    requires Safe(code, m) && RepeatsPoint(code, m.frames)
    ensures RepeatsPoint(code, Cycle(code, sense, m).frames)
  {
    hide RunCycle, Steps, RepeatsPoint;
    var k := CycleIsSteps(code, sense, m, 0);
    StepsKeepRepeats(code, sense, m, k);
  }

  lemma EnterKeepsRepeats(code: seq<Instr>, m: Machine)
    requires RepeatsPoint(code, m.frames)
    ensures RepeatsPoint(code, EnterInterrupt(m).frames)
    ensures (m.base > 0 ==> m.base < |m.frames| && m.frames[m.base].SubFrame?) ==> RepeatsPoint(code, Abandon(m).frames)
  {
  }

  lemma UpdateKeepsRepeats(code: seq<Instr>, sense: nat -> int, m: Machine, e: Event)
    requires Inv(code, m) && RepeatsPoint(code, m.frames) && Allowed(e)
    ensures InBounds(code, sense, m, e) && RepeatsPoint(code, Update(code, sense, m, e).frames)
  {
    hide Cycle, Execute, EnterInterrupt, Abandon, RepeatsPoint, NoLastFunction;
    InvInBounds(code, sense, m, e);
    match e
    case Injected(i) =>
      ExecuteKeepsRepeats(code, sense, m, i);
      var x := Execute(code, sense, m, i);
      if IsDo(i) || IsExec(i) {
        InjectedLaunchOk(code, sense, m, i);
        CycleKeepsRepeats(code, sense, x.(index := x.index + 1));
      }
    case Tick(input) =>
      ServeKeepsRepeats(code, sense, m, input.crossed);
      if input.arrived { CycleKeepsRepeats(code, sense, ServeInterrupt(code, sense, m, input.crossed)); }
  }

  lemma ServeKeepsRepeats(code: seq<Instr>, sense: nat -> int, m: Machine, crossed: bool)
    requires Safe(code, m) && RepeatsPoint(code, m.frames) && (crossed || EntersInside(code, m))
    ensures RepeatsPoint(code, ServeInterrupt(code, sense, m, crossed).frames)
  {
    hide Cycle, EnterInterrupt, Abandon, RepeatsPoint;
    EnterKeepsRepeats(code, m);
    if m.world.interrupt != 0 && !crossed {
      EnterOk(code, m);
      CycleKeepsRepeats(code, sense, EnterInterrupt(m));
    }
  }

  lemma {:induction false} EventsKeepRepeats(code: seq<Instr>, sense: nat -> int, m: Machine, events: seq<Event>)
    requires Inv(code, m) && RepeatsPoint(code, m.frames) && AllAllowed(events)
    ensures RepeatsPoint(code, Run(code, sense, m, events).frames)
    decreases |events|
  {
    hide Update, RepeatsPoint, NoLastFunction, Safe, InBounds;
    if events != [] {
      UpdateKeepsInv(code, sense, m, events[0]);
      UpdateKeepsRepeats(code, sense, m, events[0]);
      EventsKeepRepeats(code, sense, Update(code, sense, m, events[0]), events[1..]);
    }
  }

  lemma BeginsWithRepeats(code: seq<Instr>, sense: nat -> int, readings: nat)
    requires 1 <= |code| <= MAX_PROGRAM
    ensures RepeatsPoint(code, Begin(code, sense, readings).frames)
  {
    CycleKeepsRepeats(code, sense, Reset(readings));
  }

  /** So it is in every run from the start of a flight plan. */
  lemma RunKeepsRepeats(code: seq<Instr>, sense: nat -> int, readings: nat, events: seq<Event>)
    requires 1 <= |code| <= MAX_PROGRAM && NoLastFunction(code) && AllAllowed(events)
    ensures (BeginsWithInv(code, sense, readings);
      RepeatsPoint(code, Run(code, sense, Begin(code, sense, readings), events).frames))
  {
    hide Run, Begin, RepeatsPoint;
    BeginsWithInv(code, sense, readings);
    BeginsWithRepeats(code, sense, readings);
    EventsKeepRepeats(code, sense, Begin(code, sense, readings), events);
  }

  // ---------------------------------------------------------------- entering on a full stack

  /** Is the block entered: a loop, an IF whose condition holds, or either branch of an IF with ELSE? */
  predicate Enters(sense: nat -> int, m: Machine, s: Stmt)
    requires |m.frames| > 0 && m.frames[0].SubFrame?
  {
    s.Repeat? || s.Choose? || (s.When? && Cond(sense, m.world, Param(m.frames), Resolve(m.frames, s.i)))
  }

  /** The arm that runs. */
  function Arm(sense: nat -> int, m: Machine, s: Stmt): Block
    requires |m.frames| > 0 && m.frames[0].SubFrame? && !s.Plain?
  {
    match s
    case Repeat(_, body) => body
    case When(_, thn) => thn
    case Choose(i, thn, els) => if Cond(sense, m.world, Param(m.frames), Resolve(m.frames, i)) then thn else els
  }

  /** The place of the arm's first instruction. */
  function ArmStart(sense: nat -> int, m: Machine, s: Stmt): int
    requires |m.frames| > 0 && m.frames[0].SubFrame? && !s.Plain?
  {
    if s.Choose? && !Cond(sense, m.world, Param(m.frames), Resolve(m.frames, s.i)) then m.index + 2 + |Flatten(s.thn)| else m.index + 1
  }

  /** The place of the END or ELSE that closes it. */
  function ArmEnd(sense: nat -> int, m: Machine, s: Stmt): int
    requires |m.frames| > 0 && m.frames[0].SubFrame? && !s.Plain?
  {
    ArmStart(sense, m, s) + |Flatten(Arm(sense, m, s))|
  }

  /** What the arm finds: the condition, if any, has been read. */
  function Entered(m: Machine, s: Stmt): World {
    if s.Repeat? then m.world else AfterRead(m.world, s.i.subcmd)
  }

  lemma RepeatFull(code: seq<Instr>, sense: nat -> int, m: Machine)
    requires Safe(code, m) && IsRepeat(code[m.index]) && |m.frames| == STACK_DEPTH
    ensures Step(code, sense, m) == m.(index := Norm(code, m.index + 1))
  {
  }

  lemma IfTrueFull(code: seq<Instr>, sense: nat -> int, m: Machine)
    requires Safe(code, m) && IsIf(code[m.index]) && |m.frames| == STACK_DEPTH
    requires Cond(sense, m.world, Param(m.frames), Resolve(m.frames, code[m.index]))
    ensures Step(code, sense, m) == m.(index := Norm(code, m.index + 1), world := AfterRead(m.world, code[m.index].subcmd))
  {
    hide Cond, AfterRead;
  }

  lemma IfFalseFull(code: seq<Instr>, sense: nat -> int, m: Machine)
    requires Safe(code, m) && IsIf(code[m.index]) && |m.frames| == STACK_DEPTH
    requires !Cond(sense, m.world, Param(m.frames), Resolve(m.frames, code[m.index]))
    ensures Step(code, sense, m) ==
      m.(index := Norm(code, ScanEnd(code, m.index + 1, 0) + 1), world := AfterRead(m.world, code[m.index].subcmd))
  {
    hide Cond, AfterRead, ScanEnd;
  }

  /** With all slots taken a block is entered with the caller's frames. */
  lemma EnterFull(code: seq<Instr>, sense: nat -> int, m: Machine, s: Stmt)
    requires Safe(code, m) && IsStmt(s) && !s.Plain? && At(code, m.index, FlattenStmt(s)) && Enters(sense, m, s)
    requires |m.frames| == STACK_DEPTH
    ensures Step(code, sense, m) == m.(index := ArmStart(sense, m, s), world := Entered(m, s))
    ensures IsBlock(Arm(sense, m, s)) && At(code, ArmStart(sense, m, s), Flatten(Arm(sense, m, s)))
    ensures var e, end := ArmEnd(sense, m, s), m.index + |FlattenStmt(s)|;
      && m.index < ArmStart(sense, m, s) <= e < end <= |code|
      && ((IsEnd(code[e]) && end == e + 1) || (IsElse(code[e]) && e + 1 < end))
  {
    hide At, Flatten, Cond, AfterRead, ScanEnd, Step;
    AtStmt(code, m.index, s);
    match s
    case Repeat(i, body) => RepeatFull(code, sense, m);
    case When(i, thn) => IfTrueFull(code, sense, m);
    case Choose(i, thn, els) =>
      if Cond(sense, m.world, Param(m.frames), Resolve(m.frames, i)) {
        IfTrueFull(code, sense, m);
      } else {
        SkipLands(code, thn, m.index + 1);
        IfFalseFull(code, sense, m);
      }
  }

  /** The outcome of an entered block: of all its rounds, or on a full stack of its arm and closing instruction. */
  function BlockResult(p: Program, sense: nat -> int, m: Machine, n: nat, s: Stmt): Outcome
    requires |m.frames| > 0 && m.frames[0].SubFrame? && !s.Plain? && n > 0
  {
    if |m.frames| < STACK_DEPTH then EvalStmt(p, sense, s, |m.frames|, ContextOf(m), n)
    else Close(EvalBlock(p, sense, Arm(sense, m, s), STACK_DEPTH, Context(Entered(m, s), Param(m.frames)), n - 1))
  }

  /** On a full stack what closes the block is executed on the caller's own top frame. */
  lemma FullStackCloses(p: Program, sense: nat -> int, m: Machine, n: nat, s: Stmt)
    requires PlacedStmt(p, m, s) && !s.Plain? && Enters(sense, m, s) && n > 0 && |m.frames| == STACK_DEPTH
    requires BlockResult(p, sense, m, n, s).Done?
    ensures var r := BlockResult(p, sense, m, n, s);
      var x := Machine(ArmEnd(sense, m, s), SetParam(m.frames, r.c.param), m.base, r.c.world);
      && r.left <= n && Safe(Code(p), x) && Steps(Code(p), sense, m, n - r.left) == Step(Code(p), sense, x)
  {
    hide Code, At, Step, EvalBlock, Flatten, Cond, IsProgram, FlattenStmt;
    var code := Code(p);
    EnterFull(code, sense, m, s);
    var arm, pos, e := Arm(sense, m, s), ArmStart(sense, m, s), ArmEnd(sense, m, s);
    var next := Step(code, sense, m);
    SimBlock(p, sense, next, n - 1, pos, arm);
    var r := EvalBlock(p, sense, arm, STACK_DEPTH, ContextOf(next), n - 1);
    var x := Steps(code, sense, next, n - 1 - r.left);
    assert x == Machine(e, SetParam(m.frames, r.c.param), m.base, r.c.world);
    StepsAdd(code, sense, next, n - 1 - r.left, 1);
    assert Steps(code, sense, x, 1) == Steps(code, sense, Step(code, sense, x), 0);
  }

  lemma NormApart(code: seq<Instr>, a: int, b: int)
    requires 0 <= a < |code| && 0 <= b < |code| && a != b
    ensures Norm(code, a + 1) != Norm(code, b + 1)
  {
  }

  /** An END on a full stack never leaves the caller's frames in place and goes on behind `t`. */
  lemma EndIsFelt(code: seq<Instr>, sense: nat -> int, x: Machine, t: int)
    requires Safe(code, x) && RepeatsPoint(code, x.frames) && |x.frames| == STACK_DEPTH && IsEnd(code[x.index])
    requires 0 <= t < |code| && !IsRepeat(code[t])
    ensures Step(code, sense, x) != x.(index := Norm(code, t + 1))
  {
    StepEnd(code, sense, x);
    var top := x.frames[STACK_DEPTH - 1];
    if top.RepeatFrame? && (top.arg > 1 || top.arg == -1) {
      NormApart(code, top.ret, t);
      assert End(x).frames[STACK_DEPTH - 1] == RepeatFrame(top.ret, if top.arg == -1 then -1 else top.arg - 1);
    }
  }

  /** Nor does the ELSE behind a taken branch. */
  lemma ElseIsFelt(code: seq<Instr>, sense: nat -> int, x: Machine, end: int)
    requires Safe(code, x) && |x.frames| == STACK_DEPTH && IsElse(code[x.index]) && x.index + 1 < end <= |code|
    ensures Step(code, sense, x) != x.(index := Norm(code, end))
  {
    hide ScanEnd;
  }

  lemma SetParamKeepsRepeats(code: seq<Instr>, frames: seq<Frame>, v: int)
    requires |frames| > 0 && frames[0].SubFrame? && RepeatsPoint(code, frames)
    ensures RepeatsPoint(code, SetParam(frames, v))
  {
  }

  /**
   A block that is entered and whose arm finishes within the budget comes back behind its END,
   with the caller's frames and PARAM as the arm left it, exactly if a slot was free.
   */
  lemma BlockComesBackIff(p: Program, sense: nat -> int, m: Machine, n: nat, s: Stmt)
    requires PlacedStmt(p, m, s) && !s.Plain? && Enters(sense, m, s) && n > 0 && RepeatsPoint(Code(p), m.frames)
    requires BlockResult(p, sense, m, n, s).Done?
    ensures var r := BlockResult(p, sense, m, n, s);
      && r.left <= n
      && (Steps(Code(p), sense, m, n - r.left)
            == Machine(Norm(Code(p), m.index + |FlattenStmt(s)|), SetParam(m.frames, r.c.param), m.base, r.c.world)
          <==> |m.frames| < STACK_DEPTH)
  {
    hide Code, At, Step, Steps, EvalBlock, EvalStmt, Flatten, FlattenStmt, Cond, IsProgram, RepeatsPoint, ScanEnd;
    var r := BlockResult(p, sense, m, n, s);
    if |m.frames| < STACK_DEPTH {
      SimStmt(p, sense, m, n, s);
    } else {
      var x := Machine(ArmEnd(sense, m, s), SetParam(m.frames, r.c.param), m.base, r.c.world);
      FullStackCloses(p, sense, m, n, s);
      EnterFull(Code(p), sense, m, s);
      SetParamKeepsRepeats(Code(p), m.frames, r.c.param);
      if IsEnd(Code(p)[x.index]) {
        EndIsFelt(Code(p), sense, x, x.index);
      } else {
        ElseIsFelt(Code(p), sense, x, m.index + |FlattenStmt(s)|);
      }
    }
  }

  /** For one, an empty loop directly inside a subroutine, on a full stack, returns from the subroutine. */
  lemma FullStackRepeat(code: seq<Instr>, sense: nat -> int, m: Machine)
    requires Safe(code, m) && |m.frames| == STACK_DEPTH && m.index + 2 < |code|
    requires IsRepeat(code[m.index]) && IsEnd(code[m.index + 1])
    requires m.frames[STACK_DEPTH - 1].SubFrame? && m.base < STACK_DEPTH - 1
    ensures Steps(code, sense, m, 2) ==
      Machine(Norm(code, m.frames[STACK_DEPTH - 1].ret + 1), m.frames[..STACK_DEPTH - 1], m.base, m.world)
  {
    hide Steps;
    var x := Step(code, sense, m);
    assert x == m.(index := m.index + 1);
    StepEnd(code, sense, x);
    TwoSteps(code, sense, m);
  }

  lemma TwoSteps(code: seq<Instr>, sense: nat -> int, m: Machine)
    requires Safe(code, m)
    ensures Steps(code, sense, m, 2) == Step(code, sense, Step(code, sense, m))
  {
    hide Step;
    var x := Step(code, sense, m);
    assert Steps(code, sense, m, 2) == Steps(code, sense, x, 1) == Steps(code, sense, Step(code, sense, x), 0);
  }

  // ---------------------------------------------------------------- calls

  /** The outcome of a call, or on a full stack of the function run in the caller's own frame, and its END. */
  function CallResult(p: Program, sense: nat -> int, m: Machine, n: nat, s: Stmt): Outcome
    requires |m.frames| > 0 && m.frames[0].SubFrame? && s.Plain? && n > 0
  {
    if |m.frames| < STACK_DEPTH then EvalStmt(p, sense, s, |m.frames|, ContextOf(m), n)
    else Close(EvalBlock(p, sense, Body(p, s.i.subcmd), STACK_DEPTH, ContextOf(m), n - 1))
  }

  lemma CallFull(code: seq<Instr>, sense: nat -> int, m: Machine)
    requires Safe(code, m) && IsDo(code[m.index]) && |m.frames| == STACK_DEPTH
    ensures Step(code, sense, m) == m.(index := Norm(code, FindStart(code, code[m.index].subcmd) + 1))
  {
    hide FindStart;
  }

  lemma FullStackReturns(p: Program, sense: nat -> int, m: Machine, n: nat, s: Stmt) returns (e: int)
    requires PlacedStmt(p, m, s) && s.Plain? && IsDo(s.i) && IsClosed(p, s.i.subcmd) && n > 0 && |m.frames| == STACK_DEPTH
    requires CallResult(p, sense, m, n, s).Done?
    ensures var r := CallResult(p, sense, m, n, s);
      var x := Machine(e, SetParam(m.frames, r.c.param), m.base, r.c.world);
      && r.left <= n && Safe(Code(p), x) && IsEnd(Code(p)[e]) && Steps(Code(p), sense, m, n - r.left) == Step(Code(p), sense, x)
  {
    hide Code, At, Step, EvalBlock, Flatten, IsProgram, FlattenStmt, Body, IsClosed, FindStart;
    var code, b := Code(p), Body(p, s.i.subcmd);
    AtStmt(code, m.index, s);
    CallFull(code, sense, m);
    FindStartLands(p, s.i.subcmd);
    var pos := FindStart(code, s.i.subcmd) + 1;
    e := pos + |Flatten(b)|;
    var next := Step(code, sense, m);
    SimBlock(p, sense, next, n - 1, pos, b);
    var r := EvalBlock(p, sense, b, STACK_DEPTH, ContextOf(next), n - 1);
    var x := Steps(code, sense, next, n - 1 - r.left);
    assert x == Machine(e, SetParam(m.frames, r.c.param), m.base, r.c.world);
    StepsAdd(code, sense, next, n - 1 - r.left, 1);
    assert Steps(code, sense, x, 1) == Steps(code, sense, Step(code, sense, x), 0);
  }

  /** A call of a closed function that finishes comes back behind the DO exactly if a slot was free. */
  lemma CallComesBackIff(p: Program, sense: nat -> int, m: Machine, n: nat, s: Stmt)
    requires PlacedStmt(p, m, s) && s.Plain? && IsDo(s.i) && IsClosed(p, s.i.subcmd) && n > 0 && RepeatsPoint(Code(p), m.frames)
    requires CallResult(p, sense, m, n, s).Done?
    ensures var r := CallResult(p, sense, m, n, s);
      && r.left <= n
      && (Steps(Code(p), sense, m, n - r.left)
            == Machine(Norm(Code(p), m.index + 1), SetParam(m.frames, r.c.param), m.base, r.c.world)
          <==> |m.frames| < STACK_DEPTH)
  {
    hide Code, At, Step, Steps, EvalBlock, EvalStmt, Flatten, IsProgram, RepeatsPoint, FlattenStmt;
    AtStmt(Code(p), m.index, s);
    var r := CallResult(p, sense, m, n, s);
    if |m.frames| < STACK_DEPTH {
      SimStmt(p, sense, m, n, s);
    } else {
      var e := FullStackReturns(p, sense, m, n, s);
      var x := Machine(e, SetParam(m.frames, r.c.param), m.base, r.c.world);
      SetParamKeepsRepeats(Code(p), m.frames, r.c.param);
      EndIsFelt(Code(p), sense, x, m.index);
    }
  }

  // ---------------------------------------------------------------- a program

  const ONCE := Instr(1, false, false, 0, 1)
  const FORWARD := Instr(3, true, false, 0, 10)

  /** REPEAT(1), `k` of them inside one another, and a FD behind their ENDs. */
  function Nest(k: nat): seq<Instr> {
    seq(k, _ => ONCE) + seq(k, _ => END) + [FORWARD]
  }

  function Loops(j: nat): seq<Frame> {
    [SubFrame(-1, 0)] + seq(j, i => RepeatFrame(i, 1))
  }

  /** The slots taken before instruction `r`. */
  function Taken(k: nat, r: nat): int {
    var top := if k < STACK_DEPTH then k else STACK_DEPTH - 1;
    if r <= top then r else if r <= k then top else top - (r - k)
  }

  predicate InNest(k: nat, r: nat) {
    0 < k && 2 * k + 1 <= MAX_PROGRAM && r <= k + (if k < STACK_DEPTH then k else STACK_DEPTH - 1)
  }

  function NestState(k: nat, r: nat): (m: Machine)
    requires InNest(k, r)
    ensures Safe(Nest(k), m)
  {
    Machine(r, Loops(Taken(k, r)), 0, Reset(0).world)
  }

  lemma LoopsEnds(j: nat)
    ensures Loops(j) + [RepeatFrame(j, 1)] == Loops(j + 1) && Loops(j + 1)[..j + 1] == Loops(j)
  {
  }

  /** One instruction of the nest: a slot more, none left to take, or a slot less. */
  lemma NestStep(k: nat, r: nat, sense: nat -> int)
    requires InNest(k, r) && InNest(k, r + 1)
    ensures Step(Nest(k), sense, NestState(k, r)) == NestState(k, r + 1)
  {
    hide Step;
    var code, m, j := Nest(k), NestState(k, r), Taken(k, r);
    LoopsEnds(j);
    if r < k {
      assert code[r] == ONCE;
      if j < STACK_DEPTH - 1 { StepRepeat(code, sense, m); } else { RepeatFull(code, sense, m); }
    } else {
      assert code[r] == END;
      LoopsEnds(j - 1);
      StepEndTop(code, sense, m, Loops(j - 1), RepeatFrame(j - 1, 1));
    }
  }

  /** With more than 11 loops the END behind the eleventh is reached with no loop left: the program starts over. */
  lemma NestStartsOver(k: nat, sense: nat -> int)
    requires STACK_DEPTH <= k && 2 * k + 1 <= MAX_PROGRAM
    ensures Step(Nest(k), sense, NestState(k, k + STACK_DEPTH - 1)) == Reset(0) == NestState(k, 0)
  {
    hide Step;
    var code, m := Nest(k), NestState(k, k + STACK_DEPTH - 1);
    assert Loops(0) == [SubFrame(-1, 0)];
    assert code[m.index] == END;
    StepEnd(code, sense, m);
    assert m.frames[..1] == m.frames;
  }

  /** The instruction due after `n`: one after the other, or, with too many loops, round in a circle. */
  function Due(k: nat, n: nat): nat {
    if n == 0 || (k >= STACK_DEPTH && Due(k, n - 1) == k + STACK_DEPTH - 1) then 0 else Due(k, n - 1) + 1
  }

  lemma {:induction false} DueIsInNest(k: nat, n: nat)
    requires 0 < k && 2 * k + 1 <= MAX_PROGRAM && (k < STACK_DEPTH ==> n <= 2 * k)
    ensures InNest(k, Due(k, n)) && (k < STACK_DEPTH ==> Due(k, n) == n)
  {
    if n > 0 { DueIsInNest(k, n - 1); }
  }

  lemma {:induction false} NestRuns(k: nat, sense: nat -> int, n: nat)
    requires 0 < k && 2 * k + 1 <= MAX_PROGRAM && (k < STACK_DEPTH ==> n <= 2 * k)
    ensures Safe(Nest(k), Reset(0)) && InNest(k, Due(k, n))
    ensures Steps(Nest(k), sense, Reset(0), n) == NestState(k, Due(k, n))
    decreases n
  {
    hide Step, Nest, NestState;
    DueIsInNest(k, n);
    NestBegins(k, sense);
    if n > 0 {
      DueIsInNest(k, n - 1);
      NestRuns(k, sense, n - 1);
      NestGoesOn(k, sense, Due(k, n - 1));
      StepsAdd(Nest(k), sense, Reset(0), n - 1, 1);
      var x := NestState(k, Due(k, n - 1));
      assert Steps(Nest(k), sense, x, 1) == Steps(Nest(k), sense, Step(Nest(k), sense, x), 0);
    }
  }

  lemma NestBegins(k: nat, sense: nat -> int)
    requires InNest(k, 0)
    ensures Safe(Nest(k), Reset(0)) && NestState(k, 0) == Reset(0) == Steps(Nest(k), sense, Reset(0), 0)
  {
    assert Loops(0) == [SubFrame(-1, 0)];
  }

  lemma NestGoesOn(k: nat, sense: nat -> int, r: nat)
    requires InNest(k, r)
    ensures if k >= STACK_DEPTH && r == k + STACK_DEPTH - 1 then Step(Nest(k), sense, NestState(k, r)) == NestState(k, 0)
            else InNest(k, r + 1) ==> Step(Nest(k), sense, NestState(k, r)) == NestState(k, r + 1)
  {
    hide Step, Nest, NestState;
    if k >= STACK_DEPTH && r == k + STACK_DEPTH - 1 {
      NestStartsOver(k, sense);
    } else if InNest(k, r + 1) {
      NestStep(k, r, sense);
    }
  }

  /** The FD is ever reached exactly if there are at most 11 loops, not 12 as documented. */
  lemma NestedElevenDeep(k: nat, sense: nat -> int)
    requires 0 < k && 2 * k + 1 <= MAX_PROGRAM
    ensures Safe(Nest(k), Reset(0))
    ensures (exists n: nat :: Steps(Nest(k), sense, Reset(0), n).index == 2 * k) <==> k <= 11
    ensures k > 11 ==> forall n: nat :: Steps(Nest(k), sense, Reset(0), n).world.log == []
  {
    hide Steps, Nest;
    NestRuns(k, sense, 0);
    if k <= 11 {
      DueIsInNest(k, 2 * k);
      NestRuns(k, sense, 2 * k);
    } else {
      forall n: nat
        ensures Steps(Nest(k), sense, Reset(0), n).index != 2 * k && Steps(Nest(k), sense, Reset(0), n).world.log == []
      {
        NestRuns(k, sense, n);
      }
    }
  }
}
