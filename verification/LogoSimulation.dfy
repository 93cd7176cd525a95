/**
 The index-and-stack machine running flattened code does what recursive evaluation
 of the blocks does, instruction budget by instruction budget.
 */
module LogoSimulation {
  import opened LogoMachine
  import opened LogoBlocks
  import opened LogoLayout

  // ---------------------------------------------------------------- PARAM and frames

  lemma ParamFacts(frames: seq<Frame>, v: int, w: int)
    requires |frames| > 0 && frames[0].SubFrame?
    ensures Param(SetParam(frames, v)) == v
    ensures ParamFrame(SetParam(frames, v)) == ParamFrame(frames)
    ensures SetParam(SetParam(frames, v), w) == SetParam(frames, w)
    ensures SetParam(frames, Param(frames)) == frames
  {
    var k, g := ParamFrame(frames), SetParam(frames, v);
    assert g[k].SubFrame? && frames[ParamFrame(g)].SubFrame?;
  }

  lemma {:induction false} ParamUnder(frames: seq<Frame>, f: Frame, v: int)
    requires |frames| > 0 && frames[0].SubFrame? && !f.SubFrame?
    ensures ParamFrame(frames + [f]) == ParamFrame(frames)
    ensures Param(frames + [f]) == Param(frames)
    ensures SetParam(frames + [f], v) == SetParam(frames, v) + [f]
  {
    assert (frames + [f])[..|frames|] == frames;
  }

  /** `frames` grew out of `outer`: the frames of `outer` are untouched but for the value of PARAM. */
  predicate Above(outer: seq<Frame>, frames: seq<Frame>)
    requires |outer| > 0 && outer[0].SubFrame?
  {
    var k := ParamFrame(outer);
    && |outer| <= |frames|
    && frames[k].SubFrame? && frames[k].ret == outer[k].ret
    && forall j :: 0 <= j < |outer| && j != k ==> frames[j] == outer[j]
  }

  function ContextOf(m: Machine): Context
    requires |m.frames| > 0 && m.frames[0].SubFrame?
  {
    Context(m.world, Param(m.frames))
  }

  /** The machine just after EXEC of `fn` out of `outer`. */
  function Launched(code: seq<Instr>, outer: seq<Frame>, fn: nat, c: Context): Machine
    requires |outer| > 0 && outer[0].SubFrame?
  {
    var s := FindStart(code, fn);
    Machine(Norm(code, s + 1), [SubFrame(s, SetParam(outer, c.param)[0].arg)], 0, c.world)
  }

  /**
   Running `m` for `n` instructions is what the evaluation result `r` says, seen from
   the frames `outer`: finished in front of position `end` with the stack back to
   `outer`, or still inside, or thrown out by EXEC.
   */
  predicate Reaches(code: seq<Instr>, sense: nat -> int, m: Machine, n: nat,
                    outer: seq<Frame>, base: nat, end: int, r: Outcome)
    requires Safe(code, m) && IsStack(outer)
  {
    match r
    case Done(c, left) =>
      left <= n && Steps(code, sense, m, n - left) == Machine(Norm(code, end), SetParam(outer, c.param), base, c.world)
    case Cut(c) =>
      var x := Steps(code, sense, m, n);
      Above(outer, x.frames) && x.base == base && ContextOf(x) == c
    case Leave(fn, c, left) =>
      left <= n && Steps(code, sense, m, n - left) == Launched(code, outer, fn, c)
    case Escape => true
  }

  lemma ReachesHere(code: seq<Instr>, sense: nat -> int, m: Machine, n: nat, end: int)
    requires Safe(code, m) && m.index == Norm(code, end)
    ensures Reaches(code, sense, m, n, m.frames, m.base, end, Done(ContextOf(m), n))
    ensures Reaches(code, sense, m, 0, m.frames, m.base, end, Cut(ContextOf(m)))
  {
    ParamFacts(m.frames, 0, 0);
  }

  /** One instruction first. */
  lemma Prepend(code: seq<Instr>, sense: nat -> int, m: Machine, n: nat,
                outer: seq<Frame>, base: nat, end: int, r: Outcome)
    requires Safe(code, m) && IsStack(outer) && n > 0
    requires Reaches(code, sense, Step(code, sense, m), n - 1, outer, base, end, r)
    ensures Reaches(code, sense, m, n, outer, base, end, r)
  {
    hide Step;
  }

  /** One stretch after another. */
  lemma Append(code: seq<Instr>, sense: nat -> int, m: Machine, n: nat,
               outer: seq<Frame>, base: nat, mid: int, end: int, r: Outcome, next: Machine, r2: Outcome)
    requires Safe(code, m) && IsStack(outer) && r.Done?
    requires Reaches(code, sense, m, n, outer, base, mid, r)
    requires next == Machine(Norm(code, mid), SetParam(outer, r.c.param), base, r.c.world)
    requires Safe(code, next) && IsStack(next.frames)
    requires Reaches(code, sense, next, r.left, next.frames, base, end, r2)
    ensures Reaches(code, sense, m, n, outer, base, end, r2)
  {
    hide Step;
    hide Norm;
    var a := n - r.left;
    assert Steps(code, sense, m, a) == next;
    ParamFacts(outer, r.c.param, 0);
    if r2.Done? || r2.Leave? {
      StepsAdd(code, sense, m, a, r.left - r2.left);
      ParamFacts(outer, r.c.param, r2.c.param);
    } else {
      StepsAdd(code, sense, m, a, r.left);
    }
  }

  // ---------------------------------------------------------------- single instructions

  lemma StepAction(code: seq<Instr>, sense: nat -> int, m: Machine)
    requires Safe(code, m) && IsAction(code[m.index])
    ensures var i := Resolve(m.frames, code[m.index]);
      Step(code, sense, m) == Machine(Norm(code, m.index + 1),
        SetParam(m.frames, ActParam(sense, m.world, Param(m.frames), i)), m.base, ActWorld(code, m.world, i))
  {
    hide ActParam;
    hide ActWorld;
  }

  lemma StepExec(code: seq<Instr>, sense: nat -> int, m: Machine)
    requires Safe(code, m) && IsExec(code[m.index])
    ensures Step(code, sense, m) == Launched(code, m.frames, code[m.index].subcmd, ContextOf(m))
  {
    ParamFacts(m.frames, 0, 0);
  }

  lemma StepDo(code: seq<Instr>, sense: nat -> int, m: Machine)
    requires Safe(code, m) && IsDo(code[m.index]) && |m.frames| < STACK_DEPTH
    ensures var i := Resolve(m.frames, code[m.index]);
      Step(code, sense, m) == Machine(Norm(code, FindStart(code, i.subcmd) + 1),
        m.frames + [SubFrame(m.index, i.arg)], m.base, m.world)
  {
  }

  lemma StepRepeat(code: seq<Instr>, sense: nat -> int, m: Machine)
    requires Safe(code, m) && IsRepeat(code[m.index]) && |m.frames| < STACK_DEPTH
    ensures Step(code, sense, m) == m.(index := Norm(code, m.index + 1),
      frames := m.frames + [RepeatFrame(m.index, Resolve(m.frames, code[m.index]).arg)])
  {
  }

  lemma StepEnd(code: seq<Instr>, sense: nat -> int, m: Machine)
    requires Safe(code, m) && IsEnd(code[m.index])
    ensures Step(code, sense, m) == End(m).(index := Norm(code, End(m).index + 1))
  {
  }

  /** END of a REPEAT or IF block whose frame is on top of `outer`, or of a subroutine called from `outer`. */
  lemma StepEndTop(code: seq<Instr>, sense: nat -> int, m: Machine, outer: seq<Frame>, f: Frame)
    requires Safe(code, m) && IsEnd(code[m.index])
    requires |outer| > 0 && m.frames == outer + [f] && m.base < |outer|
    ensures f.IfFrame? ==> Step(code, sense, m) == m.(index := Norm(code, m.index + 1), frames := outer)
    ensures f.SubFrame? ==> Step(code, sense, m) == m.(index := Norm(code, f.ret + 1), frames := outer)
    ensures f.RepeatFrame? && Times(f.arg) == 1 ==>
      Step(code, sense, m) == m.(index := Norm(code, m.index + 1), frames := outer)
    ensures f.RepeatFrame? && Times(f.arg) != 1 ==>
      Step(code, sense, m) == m.(index := Norm(code, f.ret + 1),
        frames := outer + [RepeatFrame(f.ret, if f.arg == -1 then -1 else f.arg - 1)])
  {
    hide Step;
    StepEnd(code, sense, m);
    assert Pop(m.frames) == outer && m.frames[|m.frames| - 1] == f;
  }

  lemma StepElse(code: seq<Instr>, sense: nat -> int, m: Machine, outer: seq<Frame>)
    requires Safe(code, m) && IsElse(code[m.index])
    requires |outer| > 0 && m.frames == outer + [IfFrame]
    ensures Step(code, sense, m) == m.(index := Norm(code, ScanEnd(code, m.index + 1, 0) + 1), frames := outer)
  {
    assert Pop(m.frames) == outer;
  }

  lemma StepIfTrue(code: seq<Instr>, sense: nat -> int, m: Machine)
    requires Safe(code, m) && IsIf(code[m.index]) && |m.frames| < STACK_DEPTH
    requires Cond(sense, m.world, Param(m.frames), Resolve(m.frames, code[m.index]))
    ensures Step(code, sense, m) == Machine(Norm(code, m.index + 1), m.frames + [IfFrame], m.base,
      AfterRead(m.world, code[m.index].subcmd))
  {
    hide Cond;
    hide AfterRead;
  }

  lemma StepIfFalse(code: seq<Instr>, sense: nat -> int, m: Machine, e: int)
    requires Safe(code, m) && IsIf(code[m.index])
    requires !Cond(sense, m.world, Param(m.frames), Resolve(m.frames, code[m.index]))
    requires 0 <= e < |code| && e == ScanEnd(code, m.index + 1, 0) && (code[e] == END || code[e] == ELSE)
    requires code[e] == ELSE ==> |m.frames| < STACK_DEPTH
    ensures Step(code, sense, m) == Machine(Norm(code, e + 1),
      if code[e] == ELSE then m.frames + [IfFrame] else m.frames, m.base, AfterRead(m.world, code[m.index].subcmd))
  {
    hide Cond;
    hide AfterRead;
  }

  // ---------------------------------------------------------------- closing a block

  /** One closing instruction after a finished inner stretch. */
  lemma CloseStep(code: seq<Instr>, sense: nat -> int, m: Machine, n: nat, inner: seq<Frame>, base: nat, e: int,
                  c: Context, left: nat, next: Machine)
    requires Safe(code, m) && IsStack(inner) && 0 <= e < |code| && left > 0
    requires Reaches(code, sense, m, n, inner, base, e, Done(c, left))
    requires var x := Machine(e, SetParam(inner, c.param), base, c.world);
      Safe(code, x) ==> Step(code, sense, x) == next
    ensures Steps(code, sense, m, n - (left - 1)) == next
  {
    hide Step;
    var x := Machine(e, SetParam(inner, c.param), base, c.world);
    assert Steps(code, sense, m, n - left) == x;
    StepsAdd(code, sense, m, n - left, 1);
    assert Steps(code, sense, Step(code, sense, x), 0) == Step(code, sense, x);
  }

  /** The budget ends right before the closing instruction. */
  lemma CutBeforeClose(code: seq<Instr>, sense: nat -> int, m: Machine, n: nat, inner: seq<Frame>, base: nat, e: int, c: Context)
    requires Safe(code, m) && IsStack(inner)
    requires Reaches(code, sense, m, n, inner, base, e, Done(c, 0))
    ensures Reaches(code, sense, m, n, inner, base, e, Cut(c))
  {
    hide Step;
    ParamFacts(inner, c.param, 0);
  }

  /** Being inside or thrown out of a block is being inside or thrown out of what encloses it. */
  lemma Widen(code: seq<Instr>, sense: nat -> int, m: Machine, n: nat, outer: seq<Frame>, f: Frame, base: nat, e: int, end: int, r: Outcome)
    requires Safe(code, m) && IsStack(outer) && |outer| < STACK_DEPTH && !r.Done? && !f.SubFrame?
    requires Reaches(code, sense, m, n, outer + [f], base, e, r)
    ensures Reaches(code, sense, m, n, outer, base, end, r)
  {
    hide Step;
    hide Steps;
    if r.Leave? { ParamUnder(outer, f, r.c.param); } else { ParamUnder(outer, f, 0); }
  }

  lemma WidenCall(code: seq<Instr>, sense: nat -> int, m: Machine, n: nat, outer: seq<Frame>, f: Frame, base: nat, e: int, end: int, r: Outcome)
    requires Safe(code, m) && IsStack(outer) && |outer| < STACK_DEPTH && !r.Done? && f.SubFrame?
    requires Reaches(code, sense, m, n, outer + [f], base, e, r)
    ensures Reaches(code, sense, m, n, outer, base, end, Return(r, Param(outer)))
  {
    hide Step;
    hide Steps;
    ParamFacts(outer, 0, 0);
    if r.Leave? { assert SetParam(outer + [f], r.c.param)[0] == outer[0]; }
  }

  /** A finished IF arm followed by its END or ELSE brings the machine back to `outer`. */
  lemma {:induction false} CloseReaches(code: seq<Instr>, sense: nat -> int, m: Machine, n: nat,
                     outer: seq<Frame>, base: nat, e: int, end: int, r: Outcome)
    requires Safe(code, m) && IsStack(outer) && |outer| < STACK_DEPTH && base < |outer|
    requires Reaches(code, sense, m, n, outer + [IfFrame], base, e, r)
    requires 0 <= e < |code|
    requires (IsEnd(code[e]) && end == e + 1) || (IsElse(code[e]) && end == ScanEnd(code, e + 1, 0) + 1)
    ensures Reaches(code, sense, m, n, outer, base, end, Close(r))
  {
    if !r.Done? {
      Widen(code, sense, m, n, outer, IfFrame, base, e, end, r);
    } else if r.left == 0 {
      CutBeforeClose(code, sense, m, n, outer + [IfFrame], base, e, r.c);
      Widen(code, sense, m, n, outer, IfFrame, base, e, end, Cut(r.c));
    } else {
      ClosedArm(code, sense, outer, base, e, end, r.c);
      CloseStep(code, sense, m, n, outer + [IfFrame], base, e, r.c, r.left,
                Machine(Norm(code, end), SetParam(outer, r.c.param), base, r.c.world));
    }
  }

  lemma {:induction false} ClosedArm(code: seq<Instr>, sense: nat -> int, outer: seq<Frame>, base: nat, e: int, end: int, c: Context)
    requires IsStack(outer) && base < |outer| && 0 <= e < |code|
    requires (IsEnd(code[e]) && end == e + 1) || (IsElse(code[e]) && end == ScanEnd(code, e + 1, 0) + 1)
    ensures var x := Machine(e, SetParam(outer + [IfFrame], c.param), base, c.world);
      Safe(code, x) ==> Step(code, sense, x) == Machine(Norm(code, end), SetParam(outer, c.param), base, c.world)
  {
    var x := Machine(e, SetParam(outer + [IfFrame], c.param), base, c.world);
    ParamUnder(outer, IfFrame, c.param);
    if Safe(code, x) {
      if IsEnd(code[e]) {
        StepEndTop(code, sense, x, SetParam(outer, c.param), IfFrame);
      } else {
        StepElse(code, sense, x, SetParam(outer, c.param));
      }
    }
  }

  // ---------------------------------------------------------------- the simulation

  /** What a run of the block `b` placed at `pos` must do. */
  predicate Runs(p: Program, sense: nat -> int, m: Machine, n: nat, pos: int, b: Block)
    requires Safe(Code(p), m)
  {
    Reaches(Code(p), sense, m, n, m.frames, m.base, pos + |Flatten(b)|,
            EvalBlock(p, sense, b, |m.frames|, ContextOf(m), n))
  }

  predicate Placed(p: Program, m: Machine, pos: int, b: Block) {
    && IsProgram(p) && Safe(Code(p), m)
    && IsBlock(b) && At(Code(p), pos, Flatten(b)) && m.index == Norm(Code(p), pos)
  }

  predicate PlacedStmt(p: Program, m: Machine, s: Stmt) {
    && IsProgram(p) && Safe(Code(p), m)
    && IsStmt(s) && At(Code(p), m.index, FlattenStmt(s))
  }

  predicate RunsStmt(p: Program, sense: nat -> int, m: Machine, n: nat, s: Stmt)
    requires Safe(Code(p), m)
  {
    Reaches(Code(p), sense, m, n, m.frames, m.base, m.index + |FlattenStmt(s)|,
            EvalStmt(p, sense, s, |m.frames|, ContextOf(m), n))
  }

  /** Flattened code does what its block means, for every budget of instructions. */
  lemma {:induction false} SimBlock(p: Program, sense: nat -> int, m: Machine, n: nat, pos: int, b: Block)
    requires Placed(p, m, pos, b)
    ensures Runs(p, sense, m, n, pos, b)
    decreases n, b, 0
  {
    hide At;
    hide Code;
    hide Step;
    hide Steps;
    hide EvalStmt;
    hide FlattenStmt;
    var code := Code(p);
    match b
    case Nil => ReachesHere(code, sense, m, n, pos);
    case Cons(s, t) =>
      AtSplit(code, pos, FlattenStmt(s), Flatten(t));
      SimStmt(p, sense, m, n, s);
      var r := EvalStmt(p, sense, s, |m.frames|, ContextOf(m), n);
      if r.Done? {
        SimRest(p, sense, m, n, pos, s, t, r);
      } else {
        Retarget(code, sense, m, n, m.frames, m.base, pos + |FlattenStmt(s)|, pos + |Flatten(b)|, r);
      }
  }

  lemma Retarget(code: seq<Instr>, sense: nat -> int, m: Machine, n: nat, outer: seq<Frame>, base: nat, e: int, end: int, r: Outcome)
    requires Safe(code, m) && IsStack(outer) && !r.Done?
    requires Reaches(code, sense, m, n, outer, base, e, r)
    ensures Reaches(code, sense, m, n, outer, base, end, r)
  {
    hide Step;
    hide Steps;
  }

  lemma {:induction false} SimRest(p: Program, sense: nat -> int, m: Machine, n: nat, pos: int, s: Stmt, t: Block, r: Outcome)
    requires Placed(p, m, pos, Cons(s, t)) && m.index == pos
    requires r.Done? && r == EvalStmt(p, sense, s, |m.frames|, ContextOf(m), n)
    requires Reaches(Code(p), sense, m, n, m.frames, m.base, pos + |FlattenStmt(s)|, r)
    ensures Runs(p, sense, m, n, pos, Cons(s, t))
    decreases n, t, 1
  {
    hide Step;
    hide Steps;
    hide EvalStmt;
    hide FlattenStmt;
    hide At;
    var code, mid := Code(p), pos + |FlattenStmt(s)|;
    var next := Steps(code, sense, m, n - r.left);
    AtSplit(code, pos, FlattenStmt(s), Flatten(t));
    ParamFacts(m.frames, r.c.param, 0);
    assert ContextOf(next) == r.c;
    SimBlock(p, sense, next, r.left, mid, t);
    Append(code, sense, m, n, m.frames, m.base, mid, pos + |Flatten(Cons(s, t))|, r, next,
           EvalBlock(p, sense, t, |m.frames|, r.c, r.left));
  }

  lemma {:induction false} SimStmt(p: Program, sense: nat -> int, m: Machine, n: nat, s: Stmt)
    requires PlacedStmt(p, m, s)
    ensures RunsStmt(p, sense, m, n, s)
    decreases n, s, 2
  {
    AtStmt(Code(p), m.index, s);
    if n == 0 {
      ReachesHere(Code(p), sense, m, 0, m.index);
    } else {
      match s
      case Plain(i) => SimPlain(p, sense, m, n, s);
      case Repeat(i, body) => SimRepeat(p, sense, m, n, s);
      case When(i, thn) => SimWhen(p, sense, m, n, s);
      case Choose(i, thn, els) => SimChoose(p, sense, m, n, s);
    }
  }

  lemma {:induction false} SimPlain(p: Program, sense: nat -> int, m: Machine, n: nat, s: Stmt)
    requires PlacedStmt(p, m, s) && s.Plain? && n > 0
    ensures RunsStmt(p, sense, m, n, s)
    decreases n, s, 1
  {
    var code := Code(p);
    AtStmt(code, m.index, s);
    if IsDo(s.i) {
      SimCall(p, sense, m, n, s);
    } else if IsExec(s.i) {
      SimExec(p, sense, m, n, s);
    } else {
      SimAction(p, sense, m, n, s);
    }
  }

  lemma SimAction(p: Program, sense: nat -> int, m: Machine, n: nat, s: Stmt)
    requires PlacedStmt(p, m, s) && s.Plain? && IsAction(s.i) && n > 0
    ensures RunsStmt(p, sense, m, n, s)
  {
    hide Code;
    hide ActParam;
    hide ActWorld;
    hide Step;
    var code, i := Code(p), Resolve(m.frames, s.i);
    AtStmt(code, m.index, s);
    StepAction(code, sense, m);
    var v, w := ActParam(sense, m.world, Param(m.frames), i), ActWorld(code, m.world, i);
    ParamFacts(m.frames, v, v);
    assert Reaches(code, sense, m, n, m.frames, m.base, m.index + 1, Done(Context(w, v), n - 1)) by {
      assert Steps(code, sense, m, 1) == Steps(code, sense, Step(code, sense, m), 0);
    }
  }

  lemma SimExec(p: Program, sense: nat -> int, m: Machine, n: nat, s: Stmt)
    requires PlacedStmt(p, m, s) && s.Plain? && IsExec(s.i) && n > 0
    ensures RunsStmt(p, sense, m, n, s)
  {
    hide Code;
    hide Step;
    var code := Code(p);
    AtStmt(code, m.index, s);
    StepExec(code, sense, m);
    assert Steps(code, sense, m, 1) == Steps(code, sense, Step(code, sense, m), 0);
  }

  lemma {:induction false} SimCall(p: Program, sense: nat -> int, m: Machine, n: nat, s: Stmt)
    requires PlacedStmt(p, m, s) && s.Plain? && IsDo(s.i) && n > 0
    ensures RunsStmt(p, sense, m, n, s)
    decreases n, s, 0
  {
    hide Reaches;
    hide Code;
    hide At;
    hide Flatten;
    hide FlattenStmt;
    hide EvalBlock;
    hide Step;
    hide Steps;
    hide IsProgram;
    hide Body;
    hide IsClosed;
    hide FindStart;
    var code, i := Code(p), Resolve(m.frames, s.i);
    AtStmt(code, m.index, s);
    if |m.frames| >= STACK_DEPTH || !IsClosed(p, i.subcmd) {
      Escaped(code, sense, m, n, m.index + 1);
    } else {
      StepDo(code, sense, m);
      FindStartLands(p, i.subcmd);
      SimCalled(p, sense, m, n, Body(p, i.subcmd), FindStart(code, i.subcmd) + 1, i.arg);
    }
  }

  lemma {:induction false} SimCalled(p: Program, sense: nat -> int, m: Machine, n: nat, b: Block, pos: int, arg: int)
    requires IsProgram(p) && Safe(Code(p), m) && |m.frames| < STACK_DEPTH && n > 0
    requires Step(Code(p), sense, m) == Machine(Norm(Code(p), pos), m.frames + [SubFrame(m.index, arg)], m.base, m.world)
    requires IsBlock(b) && At(Code(p), pos, Flatten(b)) && pos + |Flatten(b)| < |Code(p)| && IsEnd(Code(p)[pos + |Flatten(b)|])
    ensures Reaches(Code(p), sense, m, n, m.frames, m.base, m.index + 1,
      Return(Close(EvalBlock(p, sense, b, |m.frames| + 1, Context(m.world, arg), n - 1)), Param(m.frames)))
    decreases n - 1
  {
    hide Step;
    hide Code;
    hide At;
    var code := Code(p);
    var next := Step(code, sense, m);
    var f := SubFrame(m.index, arg);
    assert ContextOf(next) == Context(m.world, arg);
    SimBlock(p, sense, next, n - 1, pos, b);
    var r := EvalBlock(p, sense, b, |m.frames| + 1, Context(m.world, arg), n - 1);
    CallReaches(code, sense, next, n - 1, m.frames, f, m.base, pos + |Flatten(b)|, r);
    Prepend(code, sense, m, n, m.frames, m.base, m.index + 1, Return(Close(r), Param(m.frames)));
  }

  /** A finished subroutine followed by its END returns behind the DO, PARAM being the caller's again. */
  lemma CallReaches(code: seq<Instr>, sense: nat -> int, m: Machine, n: nat,
                                       outer: seq<Frame>, f: Frame, base: nat, e: int, r: Outcome)
    requires Safe(code, m) && IsStack(outer) && |outer| < STACK_DEPTH && base < |outer| && f.SubFrame?
    requires 0 <= e < |code| && IsEnd(code[e])
    requires Reaches(code, sense, m, n, outer + [f], base, e, r)
    ensures Reaches(code, sense, m, n, outer, base, f.ret + 1, Return(Close(r), Param(outer)))
  {
    if !r.Done? {
      WidenCall(code, sense, m, n, outer, f, base, e, f.ret + 1, r);
    } else if r.left == 0 {
      CutBeforeClose(code, sense, m, n, outer + [f], base, e, r.c);
      WidenCall(code, sense, m, n, outer, f, base, e, f.ret + 1, Cut(r.c));
    } else {
      ClosedCall(code, sense, outer, f, base, e, r.c);
      ParamFacts(outer, 0, 0);
      CloseStep(code, sense, m, n, outer + [f], base, e, r.c, r.left,
                Machine(Norm(code, f.ret + 1), outer, base, r.c.world));
    }
  }

  lemma {:induction false} ClosedCall(code: seq<Instr>, sense: nat -> int, outer: seq<Frame>, f: Frame, base: nat, e: int, c: Context)
    requires IsStack(outer) && base < |outer| && f.SubFrame? && 0 <= e < |code| && IsEnd(code[e])
    ensures var x := Machine(e, SetParam(outer + [f], c.param), base, c.world);
      Safe(code, x) ==> Step(code, sense, x) == Machine(Norm(code, f.ret + 1), outer, base, c.world)
  {
    var x := Machine(e, SetParam(outer + [f], c.param), base, c.world);
    var f1 := SubFrame(f.ret, c.param);
    assert x.frames == outer + [f1];
    if Safe(code, x) {
      StepEndTop(code, sense, x, outer, f1);
    }
  }

  lemma {:induction false} SimWhen(p: Program, sense: nat -> int, m: Machine, n: nat, s: Stmt)
    requires PlacedStmt(p, m, s) && s.When? && n > 0
    ensures RunsStmt(p, sense, m, n, s)
    decreases n, s, 1
  {
    hide At;
    hide Code;
    hide Step;
    hide Steps;
    hide EvalBlock;
    hide Reaches;
    hide Flatten;
    hide Cond;
    hide AfterRead;
    var code, i, pos := Code(p), Resolve(m.frames, s.i), m.index;
    AtStmt(code, pos, s);
    var e := pos + 1 + |Flatten(s.thn)|;
    if !Cond(sense, m.world, Param(m.frames), i) {
      SkipLands(code, s.thn, pos + 1);
      StepIfFalse(code, sense, m, e);
      SkipTo(p, sense, m, n, s, e + 1);
    } else if |m.frames| >= STACK_DEPTH {
      Escaped(code, sense, m, n, e + 1);
    } else {
      StepIfTrue(code, sense, m);
      SimArm(p, sense, m, n, s.thn, pos + 1, e + 1, AfterRead(m.world, s.i.subcmd));
    }
  }

  /** An IF without effect on the stack: only the skip. */
  lemma SkipTo(p: Program, sense: nat -> int, m: Machine, n: nat, s: Stmt, end: int)
    requires IsProgram(p) && Safe(Code(p), m) && !s.Plain? && n > 0
    requires Step(Code(p), sense, m) == Machine(Norm(Code(p), end), m.frames, m.base, AfterRead(m.world, s.i.subcmd))
    ensures Reaches(Code(p), sense, m, n, m.frames, m.base, end,
                    Done(ContextOf(m).(world := AfterRead(m.world, s.i.subcmd)), n - 1))
  {
    hide Step;
    hide AfterRead;
    hide Code;
    var code := Code(p);
    var next := Step(code, sense, m);
    ReachesHere(code, sense, next, n - 1, end);
    Prepend(code, sense, m, n, m.frames, m.base, end, Done(ContextOf(next), n - 1));
  }

  /** Having just entered an IF arm placed at `pos`: run it and close it at its END or ELSE. */
  lemma {:induction false} SimArm(p: Program, sense: nat -> int, m: Machine, n: nat, arm: Block, pos: int, end: int, w: World)
    requires IsProgram(p) && Safe(Code(p), m) && |m.frames| < STACK_DEPTH && n > 0
    requires Step(Code(p), sense, m) == Machine(Norm(Code(p), pos), m.frames + [IfFrame], m.base, w)
    requires IsBlock(arm) && At(Code(p), pos, Flatten(arm))
    requires var e := pos + |Flatten(arm)|;
      e < |Code(p)| && ((IsEnd(Code(p)[e]) && end == e + 1) || (IsElse(Code(p)[e]) && end == ScanEnd(Code(p), e + 1, 0) + 1))
    ensures Reaches(Code(p), sense, m, n, m.frames, m.base, end,
      Close(EvalBlock(p, sense, arm, |m.frames| + 1, ContextOf(m).(world := w), n - 1)))
    decreases n, arm, 1
  {
    hide Step;
    hide Code;
    hide At;
    hide ScanEnd;
    var code := Code(p);
    var next := Step(code, sense, m);
    ParamUnder(m.frames, IfFrame, 0);
    SimBlock(p, sense, next, n - 1, pos, arm);
    var r := EvalBlock(p, sense, arm, |next.frames|, ContextOf(next), n - 1);
    CloseReaches(code, sense, next, n - 1, m.frames, m.base, pos + |Flatten(arm)|, end, r);
    Prepend(code, sense, m, n, m.frames, m.base, end, Close(r));
  }

  lemma EnterThen(code: seq<Instr>, sense: nat -> int, m: Machine, s: Stmt)
    requires Safe(code, m) && IsStmt(s) && s.Choose? && At(code, m.index, FlattenStmt(s)) && |m.frames| < STACK_DEPTH
    requires Cond(sense, m.world, Param(m.frames), Resolve(m.frames, s.i))
    ensures Step(code, sense, m) ==
      Machine(Norm(code, m.index + 1), m.frames + [IfFrame], m.base, AfterRead(m.world, s.i.subcmd))
    ensures ScanEnd(code, m.index + 2 + |Flatten(s.thn)|, 0) + 1 == m.index + |FlattenStmt(s)|
  {
    hide At;
    hide Flatten;
    AtStmt(code, m.index, s);
    StepIfTrue(code, sense, m);
    SkipLands(code, s.els, m.index + 2 + |Flatten(s.thn)|);
  }

  lemma {:induction false} EnterElse(code: seq<Instr>, sense: nat -> int, m: Machine, s: Stmt)
    requires Safe(code, m) && IsStmt(s) && s.Choose? && At(code, m.index, FlattenStmt(s)) && |m.frames| < STACK_DEPTH
    requires !Cond(sense, m.world, Param(m.frames), Resolve(m.frames, s.i))
    ensures Step(code, sense, m) ==
      Machine(Norm(code, m.index + 2 + |Flatten(s.thn)|), m.frames + [IfFrame], m.base, AfterRead(m.world, s.i.subcmd))
    ensures var e := m.index + 2 + |Flatten(s.thn)| + |Flatten(s.els)|;
      && At(code, m.index + 2 + |Flatten(s.thn)|, Flatten(s.els))
      && e < |code| && IsEnd(code[e]) && e + 1 == m.index + |FlattenStmt(s)|
  {
    hide At;
    hide Flatten;
    AtStmt(code, m.index, s);
    SkipLands(code, s.thn, m.index + 1);
    StepIfFalse(code, sense, m, m.index + 1 + |Flatten(s.thn)|);
  }

  lemma {:induction false} SimThen(p: Program, sense: nat -> int, m: Machine, n: nat, s: Stmt)
    requires PlacedStmt(p, m, s) && s.Choose? && n > 0 && |m.frames| < STACK_DEPTH
    requires Cond(sense, m.world, Param(m.frames), Resolve(m.frames, s.i))
    ensures RunsStmt(p, sense, m, n, s)
    decreases n, s, 0
  {
    hide Step;
    hide Code;
    hide At;
    hide AfterRead;
    hide FlattenStmt;
    hide EvalBlock;
    hide Reaches;
    hide ScanEnd;
    AtStmt(Code(p), m.index, s);
    EnterThen(Code(p), sense, m, s);
    SimArm(p, sense, m, n, s.thn, m.index + 1, m.index + |FlattenStmt(s)|, AfterRead(m.world, s.i.subcmd));
  }

  lemma {:induction false} SimElse(p: Program, sense: nat -> int, m: Machine, n: nat, s: Stmt)
    requires PlacedStmt(p, m, s) && s.Choose? && n > 0 && |m.frames| < STACK_DEPTH
    requires !Cond(sense, m.world, Param(m.frames), Resolve(m.frames, s.i))
    ensures RunsStmt(p, sense, m, n, s)
    decreases n, s, 0
  {
    hide Step;
    hide Code;
    hide At;
    hide AfterRead;
    hide FlattenStmt;
    hide EvalBlock;
    hide Reaches;
    hide ScanEnd;
    EnterElse(Code(p), sense, m, s);
    SimArm(p, sense, m, n, s.els, m.index + 2 + |Flatten(s.thn)|, m.index + |FlattenStmt(s)|, AfterRead(m.world, s.i.subcmd));
  }

  lemma {:induction false} SimChoose(p: Program, sense: nat -> int, m: Machine, n: nat, s: Stmt)
    requires PlacedStmt(p, m, s) && s.Choose? && n > 0
    ensures RunsStmt(p, sense, m, n, s)
    decreases n, s, 1
  {
    if |m.frames| >= STACK_DEPTH {
      assert EvalStmt(p, sense, s, |m.frames|, ContextOf(m), n) == Escape;
    } else {
      AtStmt(Code(p), m.index, s);
      hide *;
      if Cond(sense, m.world, Param(m.frames), Resolve(m.frames, s.i)) {
        SimThen(p, sense, m, n, s);
      } else {
        SimElse(p, sense, m, n, s);
      }
    }
  }

  lemma {:induction false} SimRepeat(p: Program, sense: nat -> int, m: Machine, n: nat, s: Stmt)
    requires PlacedStmt(p, m, s) && s.Repeat? && n > 0
    ensures RunsStmt(p, sense, m, n, s)
    decreases n, s, 1
  {
    hide At;
    hide Code;
    hide Step;
    hide Steps;
    hide EvalLoop;
    hide Reaches;
    hide Flatten;
    var code, i, pos := Code(p), Resolve(m.frames, s.i), m.index;
    if |m.frames| >= STACK_DEPTH {
      Escaped(code, sense, m, n, pos + |FlattenStmt(s)|);
    } else {
      AtStmt(code, pos, s);
      StepRepeat(code, sense, m);
      SimRepeated(p, sense, m, n, s.body, pos, i.arg);
    }
  }

  lemma Escaped(code: seq<Instr>, sense: nat -> int, m: Machine, n: nat, end: int)
    requires Safe(code, m)
    ensures Reaches(code, sense, m, n, m.frames, m.base, end, Escape)
  {
  }

  lemma {:induction false} SimRepeated(p: Program, sense: nat -> int, m: Machine, n: nat, body: Block, pos: int, arg: int)
    requires IsProgram(p) && Safe(Code(p), m) && |m.frames| < STACK_DEPTH && n > 0 && pos == m.index
    requires Step(Code(p), sense, m) == m.(index := Norm(Code(p), pos + 1), frames := m.frames + [RepeatFrame(pos, arg)])
    requires IsBlock(body) && At(Code(p), pos + 1, Flatten(body)) && pos + 1 + |Flatten(body)| < |Code(p)|
    requires IsEnd(Code(p)[pos + 1 + |Flatten(body)|])
    ensures Reaches(Code(p), sense, m, n, m.frames, m.base, pos + 2 + |Flatten(body)|,
                    EvalLoop(p, sense, body, |m.frames| + 1, Times(arg), ContextOf(m), n - 1))
    decreases n, body, 2
  {
    hide Step;
    hide Code;
    hide At;
    var code := Code(p);
    var next := Step(code, sense, m);
    ParamUnder(m.frames, RepeatFrame(pos, arg), 0);
    SimLoop(p, sense, next, n - 1, m.frames, pos, arg, body);
    var r := EvalLoop(p, sense, body, |m.frames| + 1, Times(arg), ContextOf(m), n - 1);
    Prepend(code, sense, m, n, m.frames, m.base, pos + 2 + |Flatten(body)|, r);
  }

  /** The rounds of a REPEAT at `pos`, the frame holding what is left of the count. */
  lemma {:induction false} SimLoop(p: Program, sense: nat -> int, m: Machine, n: nat,
                                   outer: seq<Frame>, pos: int, arg: int, body: Block)
    requires Placed(p, m, pos + 1, body) && 0 <= pos && pos + 1 + |Flatten(body)| < |Code(p)|
    requires IsEnd(Code(p)[pos + 1 + |Flatten(body)|])
    requires IsStack(outer) && m.frames == outer + [RepeatFrame(pos, arg)] && m.base < |outer|
    ensures Reaches(Code(p), sense, m, n, outer, m.base, pos + 2 + |Flatten(body)|,
      EvalLoop(p, sense, body, |m.frames|, Times(arg), Context(m.world, Param(outer)), n))
    decreases n, body, 1
  {
    hide Code;
    hide At;
    hide EvalBlock;
    hide IsBlock;
    hide Flatten;
    hide Steps;
    var code, e := Code(p), pos + 1 + |Flatten(body)|;
    var f := RepeatFrame(pos, arg);
    ParamUnder(outer, f, 0);
    SimBlock(p, sense, m, n, pos + 1, body);
    var r := EvalBlock(p, sense, body, |m.frames|, ContextOf(m), n);
    if !r.Done? {
      Widen(code, sense, m, n, outer, f, m.base, e, e + 1, r);
    } else if r.left == 0 {
      CutBeforeClose(code, sense, m, n, m.frames, m.base, e, r.c);
      Widen(code, sense, m, n, outer, f, m.base, e, e + 1, Cut(r.c));
    } else if Times(arg) == 1 {
      ClosedLoop(code, sense, outer, f, m.base, e, r.c);
      CloseStep(code, sense, m, n, m.frames, m.base, e, r.c, r.left,
                Machine(Norm(code, e + 1), SetParam(outer, r.c.param), m.base, r.c.world));
    } else {
      SimRound(p, sense, m, n, outer, pos, arg, body, r);
    }
  }

  /** One more round after a finished one: the END jumps back, with one less to go. */
  lemma {:induction false} SimRound(p: Program, sense: nat -> int, m: Machine, n: nat,
                                    outer: seq<Frame>, pos: int, arg: int, body: Block, r: Outcome)
    requires Placed(p, m, pos + 1, body) && 0 <= pos && pos + 1 + |Flatten(body)| < |Code(p)|
    requires IsEnd(Code(p)[pos + 1 + |Flatten(body)|])
    requires IsStack(outer) && m.frames == outer + [RepeatFrame(pos, arg)] && m.base < |outer|
    requires r.Done? && 0 < r.left <= n && Times(arg) != 1
    requires Reaches(Code(p), sense, m, n, m.frames, m.base, pos + 1 + |Flatten(body)|, r)
    ensures Reaches(Code(p), sense, m, n, outer, m.base, pos + 2 + |Flatten(body)|,
      EvalLoop(p, sense, body, |m.frames|, Times(if arg == -1 then -1 else arg - 1), r.c, r.left - 1))
    decreases n, body, 0
  {
    hide At;
    hide Code;
    hide IsBlock;
    hide Flatten;
    hide IsProgram;
    hide Step;
    hide Steps;
    hide Reaches;
    hide EvalLoop;
    hide EvalBlock;
    hide Norm;
    var code, e := Code(p), pos + 1 + |Flatten(body)|;
    var outer1, arg1 := SetParam(outer, r.c.param), if arg == -1 then -1 else arg - 1;
    var next := Machine(Norm(code, pos + 1), outer1 + [RepeatFrame(pos, arg1)], m.base, r.c.world);
    LoopBack(code, sense, m, n, outer, pos, arg, e, r);
    assert Param(outer1) == r.c.param by { ParamFacts(outer, r.c.param, 0); }
    SimLoop(p, sense, next, r.left - 1, outer1, pos, arg1, body);
    var rest := EvalLoop(p, sense, body, |m.frames|, Times(arg1), r.c, r.left - 1);
    Rejoin(code, sense, m, n, outer, r.c.param, m.base, e + 1, r.left - 1, next, rest);
  }

  lemma LoopBack(code: seq<Instr>, sense: nat -> int, m: Machine, n: nat,
                                    outer: seq<Frame>, pos: int, arg: int, e: int, r: Outcome)
    requires Safe(code, m) && 0 <= e < |code| && IsEnd(code[e])
    requires IsStack(outer) && m.frames == outer + [RepeatFrame(pos, arg)] && m.base < |outer|
    requires r.Done? && 0 < r.left <= n && Times(arg) != 1
    requires Reaches(code, sense, m, n, m.frames, m.base, e, r)
    ensures Steps(code, sense, m, n - (r.left - 1)) ==
      Machine(Norm(code, pos + 1), SetParam(outer, r.c.param) + [RepeatFrame(pos, if arg == -1 then -1 else arg - 1)],
              m.base, r.c.world)
  {
    hide Step;
    hide Steps;
    hide Reaches;
    hide Norm;
    ClosedLoop(code, sense, outer, RepeatFrame(pos, arg), m.base, e, r.c);
    CloseStep(code, sense, m, n, m.frames, m.base, e, r.c, r.left,
      Machine(Norm(code, pos + 1), SetParam(outer, r.c.param) + [RepeatFrame(pos, if arg == -1 then -1 else arg - 1)],
              m.base, r.c.world));
  }

  lemma {:induction false} ClosedLoop(code: seq<Instr>, sense: nat -> int, outer: seq<Frame>, f: Frame, base: nat, e: int, c: Context)
    requires IsStack(outer) && base < |outer| && f.RepeatFrame? && 0 <= e < |code| && IsEnd(code[e])
    ensures var x := Machine(e, SetParam(outer + [f], c.param), base, c.world);
      var exit := Machine(Norm(code, e + 1), SetParam(outer, c.param), base, c.world);
      var again := Machine(Norm(code, f.ret + 1),
        SetParam(outer, c.param) + [RepeatFrame(f.ret, if f.arg == -1 then -1 else f.arg - 1)], base, c.world);
      Safe(code, x) ==> Step(code, sense, x) == (if Times(f.arg) == 1 then exit else again)
  {
    var x := Machine(e, SetParam(outer + [f], c.param), base, c.world);
    ParamUnder(outer, f, c.param);
    if Safe(code, x) {
      StepEndTop(code, sense, x, SetParam(outer, c.param), f);
    }
  }

  /** A stretch that starts later, from `outer` with another PARAM, seen from the start and from `outer`. */
  lemma {:induction false} Rejoin(code: seq<Instr>, sense: nat -> int, m: Machine, n: nat, outer: seq<Frame>, v: int,
                                  base: nat, end: int, left: nat, next: Machine, r: Outcome)
    requires Safe(code, m) && IsStack(outer) && left <= n && Steps(code, sense, m, n - left) == next
    requires Safe(code, next) && IsStack(SetParam(outer, v))
    requires Reaches(code, sense, next, left, SetParam(outer, v), base, end, r)
    requires r.Done? || r.Leave? ==> r.left <= left
    ensures Reaches(code, sense, m, n, outer, base, end, r)
  {
    hide Step;
    hide Norm;
    ParamFacts(outer, v, 0);
    if r.Done? || r.Leave? {
      StepsAdd(code, sense, m, n - left, left - r.left);
      ParamFacts(outer, v, r.c.param);
    } else {
      StepsAdd(code, sense, m, n - left, left);
    }
  }
}
