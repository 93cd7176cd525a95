/**
 Handlers as the documentation means them: functions of the program made of blocks and closed
 by END.  Without EXEC and within the stack they are transparent; an injected DO is not.
 */
module LogoHandlers {
  import opened LogoMachine
  import opened LogoBlocks
  import opened LogoLayout
  import opened LogoSimulation
  import opened LogoCycle
  import opened LogoInterrupt

  // ---------------------------------------------------------------- well-nested handlers

  /** Entered from `m0`, the handler never executes EXEC and never outgrows the stack. */
  ghost predicate Nests(p: Program, sense: nat -> int, fn: nat, m0: Machine)
  {
    forall n: nat :: NestsFor(p, sense, fn, m0, n)
  }

  predicate NestsFor(p: Program, sense: nat -> int, fn: nat, m0: Machine, n: nat) {
    var r := EvalBlock(p, sense, Body(p, fn), |m0.frames| + 1, Context(m0.world, 0), n);
    r.Done? || r.Cut?
  }

  predicate Interrupts(p: Program, fn: nat, m0: Machine) {
    && IsProgram(p) && Inv(Code(p), m0) && m0.base == 0 && |m0.frames| < STACK_DEPTH
    && IsClosed(p, fn) && m0.world.interrupt == FindStart(Code(p), fn) != 0
  }

  /** A handler made of well-nested blocks closed by END is meek for ever. */
  lemma WellNestedIsMeek(p: Program, sense: nat -> int, fn: nat, m0: Machine, k: nat)
    requires Interrupts(p, fn, m0) && Nests(p, sense, fn, m0)
    ensures (InvInBounds(Code(p), sense, m0, EN_ROUTE); EnterOk(Code(p), m0); Meek(Code(p), sense, EnterInterrupt(m0), k))
  {
    EnterOk(Code(p), m0);
    EnterSuspends(Code(p), m0);
    MeekFrom(p, sense, fn, m0, 0, k);
  }

  lemma {:induction false} MeekFrom(p: Program, sense: nat -> int, fn: nat, m0: Machine, j: nat, k: nat)
    requires Interrupts(p, fn, m0) && Nests(p, sense, fn, m0) && Safe(Code(p), EnterInterrupt(m0))
    requires var h := EnterInterrupt(m0);
      && Suspended(m0, Steps(Code(p), sense, h, j))
      && forall i: nat :: i <= j ==> Steps(Code(p), sense, h, i).base > 0
    ensures Meek(Code(p), sense, Steps(Code(p), sense, EnterInterrupt(m0), j), k)
    decreases k
  {
    hide Step;
    hide EnterInterrupt;
    hide Code;
    hide Nests;
    hide Suspended;
    hide EndsInterrupt;
    var code, h := Code(p), EnterInterrupt(m0);
    var x := Steps(code, sense, h, j);
    if k > 0 {
      NeverLeaves(p, sense, fn, m0, j);
      HandlerStep(code, sense, m0, x);
      StepsAdd(code, sense, h, j, 1);
      assert Steps(code, sense, Step(code, sense, x), 0) == Step(code, sense, x);
      if EndsInterrupt(x, code[x.index]) {
        assert Step(code, sense, x).base == 0;
      } else {
        HandlerRuns(m0, Step(code, sense, x));
        MeekFrom(p, sense, fn, m0, j + 1, k - 1);
      }
    }
  }

  lemma NeverLeaves(p: Program, sense: nat -> int, fn: nat, m0: Machine, j: nat)
    requires Interrupts(p, fn, m0) && Nests(p, sense, fn, m0) && Safe(Code(p), EnterInterrupt(m0))
    requires forall i: nat :: i <= j ==> Steps(Code(p), sense, EnterInterrupt(m0), i).base > 0
    ensures var x := Steps(Code(p), sense, EnterInterrupt(m0), j);
      !IsExec(Code(p)[x.index]) && !IsTo(Code(p)[x.index])
  {
    hide Code;
    hide Step;
    hide EvalBlock;
    hide At;
    hide IsProgram;
    var code, h, b := Code(p), EnterInterrupt(m0), Body(p, fn);
    var x, pos := Steps(code, sense, h, j), m0.world.interrupt + 1;
    FindStartLands(p, fn);
    SimBlock(p, sense, h, j + 1, pos, b);
    assert NestsFor(p, sense, fn, m0, j + 1);
    var r := EvalBlock(p, sense, b, |h.frames|, ContextOf(h), j + 1);
    StepsAdd(code, sense, h, j, 1);
    assert Steps(code, sense, Step(code, sense, x), 0) == Step(code, sense, x);
    if IsExec(code[x.index]) || IsTo(code[x.index]) {
      LeavingEndsInterrupt(code, sense, x);
      assert r.Done? && r.left > 0;
      var i: nat := j + 1 - r.left;
      var y := Steps(code, sense, h, i);
      FinishedAtEnd(code, sense, h, y, pos + |Flatten(b)|, r.c);
      StepsAdd(code, sense, h, i, 1);
    }
  }

  lemma LeavingEndsInterrupt(code: seq<Instr>, sense: nat -> int, m: Machine)
    requires Safe(code, m) && (IsExec(code[m.index]) || IsTo(code[m.index]))
    ensures Step(code, sense, m).base == 0
  {
  }

  lemma FinishedAtEnd(code: seq<Instr>, sense: nat -> int, h: Machine, y: Machine, e: int, c: Context)
    requires IsStack(h.frames) && h.base == |h.frames| - 1 > 0 && h.frames[h.base].SubFrame?
    requires Safe(code, y) && y == Machine(Norm(code, e), SetParam(h.frames, c.param), h.base, c.world)
    requires e < |code| && code[e] == END
    ensures Step(code, sense, y).base == 0 && IsEnd(code[y.index])
  {
    StepEnd(code, sense, y);
  }

  // ---------------------------------------------------------------- transparency of block handlers

  /** Whatever has been flown by then, a handler entered from here stays within its blocks and the stack. */
  ghost predicate HandlersNest(p: Program, sense: nat -> int, m0: Machine, handlers: set<nat>) {
    forall fn: nat, e: Machine :: fn in handlers && Resting(m0, e) && Interrupts(p, fn, e) ==> Nests(p, sense, fn, e)
  }

  /** No handler is configured, or one of these functions, which end in END. */
  predicate Configured(p: Program, w: World, handlers: set<nat>) {
    w.interrupt != 0 ==> exists fn: nat :: fn in handlers && IsClosed(p, fn) && w.interrupt == FindStart(Code(p), fn)
  }

  /** `m` is the `j`-th machine of the handler entered from `e`, which has not ended since. */
  predicate Tracked(p: Program, sense: nat -> int, fn: nat, e: Machine, j: nat, m: Machine) {
    && Interrupts(p, fn, e) && Safe(Code(p), EnterInterrupt(e)) && Suspended(e, m)
    && m == Steps(Code(p), sense, EnterInterrupt(e), j)
    && forall i: nat :: i <= j ==> Steps(Code(p), sense, EnterInterrupt(e), i).base > 0
  }

  lemma TrackStarts(p: Program, sense: nat -> int, fn: nat, e: Machine)
    requires Interrupts(p, fn, e)
    ensures Tracked(p, sense, fn, e, 0, EnterInterrupt(e))
  {
    hide Code;
    EnterOk(Code(p), e);
    EnterSuspends(Code(p), e);
    HandlerRuns(e, EnterInterrupt(e));
  }

  lemma TrackGoesOn(p: Program, sense: nat -> int, fn: nat, e: Machine, j: nat, m: Machine)
    requires Tracked(p, sense, fn, e, j, m) && Safe(Code(p), m) && Suspended(e, Step(Code(p), sense, m))
    ensures Tracked(p, sense, fn, e, j + 1, Step(Code(p), sense, m))
  {
    hide Code;
    hide Step;
    hide Suspended;
    hide EnterInterrupt;
    var code, h := Code(p), EnterInterrupt(e);
    StepsAdd(code, sense, h, j, 1);
    assert Steps(code, sense, m, 1) == Steps(code, sense, Step(code, sense, m), 0);
    HandlerRuns(e, Step(code, sense, m));
  }

  /** A cycle in the handler goes on with it or ends it. */
  lemma {:induction false} CycleTracks(p: Program, sense: nat -> int, fn: nat, e: Machine, j: nat, m: Machine, count: nat)
    returns (j': nat)
    requires Tracked(p, sense, fn, e, j, m) && Safe(Code(p), m) && count < MAX_PER_CYCLE
    requires Meek(Code(p), sense, m, MAX_PER_CYCLE - count)
    ensures var x := RunCycle(Code(p), sense, m, count).0;
      Resting(e, x) || Tracked(p, sense, fn, e, j', x)
    decreases MAX_PER_CYCLE - count
  {
    hide Code;
    hide Step;
    hide StepFlies;
    hide EndsInterrupt;
    hide Suspended;
    hide Resting;
    hide Steps;
    hide IsProgram;
    var code := Code(p);
    var raw, x := code[m.index], Step(code, sense, m);
    j' := j;
    HandlerRuns(e, m);
    HandlerStep(code, sense, e, m);
    if !EndsInterrupt(m, raw) {
      TrackGoesOn(p, sense, fn, e, j, m);
      j' := j + 1;
      if count + 1 < MAX_PER_CYCLE && !(StepFlies(m, raw) && x.world.pen == 0 && !x.world.camera) {
        j' := CycleTracks(p, sense, fn, e, j + 1, x, count + 1);
      }
    }
  }

  /** The program rests, or a handler entered from it runs. */
  ghost predicate Tracks(p: Program, sense: nat -> int, q: Machine, handlers: set<nat>, m: Machine) {
    q.base == 0 && |q.frames| > 0 && (Resting(q, m) || exists fn: nat, e: Machine, j: nat :: Serves(p, sense, q, handlers, m, fn, e, j))
  }

  /** `m` is the `j`-th machine of handler `fn`, entered from `q` when the world was that of `e`. */
  ghost predicate Serves(p: Program, sense: nat -> int, q: Machine, handlers: set<nat>, m: Machine, fn: nat, e: Machine, j: nat) {
    fn in handlers && Resting(q, e) && Tracked(p, sense, fn, e, j, m)
  }

  lemma RestsThrough(q: Machine, e: Machine, x: Machine)
    requires Resting(q, e) && Resting(e, x)
    ensures Resting(q, x)
  {
  }

  /** A running handler is meek for as long as one likes, and a cycle goes on with it or ends it. */
  lemma RunningIsMeek(p: Program, sense: nat -> int, q: Machine, handlers: set<nat>, m: Machine, fn: nat, e: Machine, j: nat, k: nat)
    requires Serves(p, sense, q, handlers, m, fn, e, j) && HandlersNest(p, sense, q, handlers) && Safe(Code(p), m)
    ensures Meek(Code(p), sense, m, k)
  {
    hide Code, Nests, Meek, Steps, Suspended;
    assert Safe(Code(p), EnterInterrupt(e)) && m == Steps(Code(p), sense, EnterInterrupt(e), j);
    MeekFrom(p, sense, fn, e, j, k);
  }

  lemma CycleRuns(p: Program, sense: nat -> int, q: Machine, handlers: set<nat>, m: Machine, fn: nat, e: Machine, j: nat)
    requires Serves(p, sense, q, handlers, m, fn, e, j) && HandlersNest(p, sense, q, handlers) && Safe(Code(p), m)
    requires q.base == 0 && |q.frames| > 0
    ensures Tracks(p, sense, q, handlers, Cycle(Code(p), sense, m))
  {
    hide Code, HandlersNest, Meek, RunCycle, Tracked, Resting;
    RunningIsMeek(p, sense, q, handlers, m, fn, e, j, MAX_PER_CYCLE);
    var j' := CycleTracks(p, sense, fn, e, j, m, 0);
    var x := Cycle(Code(p), sense, m);
    if Resting(e, x) {
      RestsThrough(q, e, x);
    } else {
      assert Serves(p, sense, q, handlers, x, fn, e, j');
    }
  }

  lemma TracksCovers(p: Program, sense: nat -> int, q: Machine, handlers: set<nat>, m: Machine)
    requires Tracks(p, sense, q, handlers, m)
    ensures Covers(q, m)
  {
    hide Code, Steps, IsProgram, EnterInterrupt;
    if !Resting(q, m) {
      var fn: nat, e: Machine, j: nat :| Serves(p, sense, q, handlers, m, fn, e, j);
      SuspendedBelow(q, e, m);
    }
  }

  /** The handler an update has running, if any. */
  lemma ServedRuns(p: Program, sense: nat -> int, q: Machine, handlers: set<nat>, m: Machine, crossed: bool) returns (fn: nat, e: Machine, j: nat)
    requires IsProgram(p) && Safe(Code(p), q) && Inv(Code(p), m) && Tracks(p, sense, q, handlers, m) && Configured(p, m.world, handlers)
    requires Served(Code(p), m, crossed).base > 0
    ensures Serves(p, sense, q, handlers, Served(Code(p), m, crossed), fn, e, j)
  {
    hide Code, Steps, Safe, IsProgram, Tracked, NoLastFunction;
    TracksCovers(p, sense, q, handlers, m);
    if m.base == 0 {
      fn :| fn in handlers && IsClosed(p, fn) && m.world.interrupt == FindStart(Code(p), fn);
      e, j := m, 0;
      EntersFrom(p, sense, q, fn, m, crossed);
    } else {
      assert !Resting(q, m);
      fn, e, j :| Serves(p, sense, q, handlers, m, fn, e, j);
    }
  }

  lemma EntersFrom(p: Program, sense: nat -> int, q: Machine, fn: nat, m: Machine, crossed: bool)
    requires IsProgram(p) && Inv(Code(p), m) && m.base == 0 && q.base == 0 && (Resting(q, m) || Suspended(q, m)) && |q.frames| > 0
    requires IsClosed(p, fn) && m.world.interrupt == FindStart(Code(p), fn)
    requires Served(Code(p), m, crossed).base > 0
    ensures Resting(q, m) && Tracked(p, sense, fn, m, 0, Served(Code(p), m, crossed))
  {
    hide Code, IsProgram, Steps;
    TrackStarts(p, sense, fn, m);
  }

  // ---------------------------------------------------------------- transparency

  /** After the interrupt part the program rests, or the handler is where its blocks say. */
  lemma ServeTracks(p: Program, sense: nat -> int, q: Machine, handlers: set<nat>, m: Machine, crossed: bool)
    requires IsProgram(p) && Safe(Code(p), q) && Inv(Code(p), m) && Tracks(p, sense, q, handlers, m)
    requires Configured(p, m.world, handlers) && HandlersNest(p, sense, q, handlers)
    ensures Meek(Code(p), sense, Served(Code(p), m, crossed), 2 * MAX_PER_CYCLE)
    ensures crossed || EntersInside(Code(p), m)
    ensures var y := ServeInterrupt(Code(p), sense, m, crossed);
      y.base > 0 ==> !(Interrupting(m, crossed) && NoRoom(m)) && Tracks(p, sense, q, handlers, y)
  {
    hide Code, Meek, RunCycle, Tracks, HandlersNest, IsProgram, Configured, NoLastFunction, Serves;
    InvInBounds(Code(p), sense, m, Tick(Input(crossed, false)));
    var h := Served(Code(p), m, crossed);
    TracksAlive(p, sense, q, handlers, m);
    if h.base > 0 {
      var fn, e, j := ServedRuns(p, sense, q, handlers, m, crossed);
      RunningIsMeek(p, sense, q, handlers, h, fn, e, j, 2 * MAX_PER_CYCLE);
      if Interrupting(m, crossed) { CycleRuns(p, sense, q, handlers, h, fn, e, j); }
    } else {
      NothingRuns(Code(p), sense, h);
      if Interrupting(m, crossed) { BaseStaysZero(Code(p), sense, h, 0); }
    }
  }

  lemma NothingRuns(code: seq<Instr>, sense: nat -> int, h: Machine)
    requires Safe(code, h) && h.base == 0
    ensures Meek(code, sense, h, 2 * MAX_PER_CYCLE)
  {
  }

  lemma TracksAlive(p: Program, sense: nat -> int, q: Machine, handlers: set<nat>, m: Machine)
    requires Tracks(p, sense, q, handlers, m)
    ensures q.base == 0 && |q.frames| > 0
  {
  }

  /** Every update of a tracked handler is quiet, and what is underneath afterwards is tracked again. */
  lemma UpdateTracks(p: Program, sense: nat -> int, q: Machine, handlers: set<nat>, m: Machine, input: Input)
    requires IsProgram(p) && Safe(Code(p), q) && Inv(Code(p), m) && Tracks(p, sense, q, handlers, m)
    requires Configured(p, m.world, handlers) && HandlersNest(p, sense, q, handlers)
    ensures Quiet(Code(p), sense, m, input) && InBounds(Code(p), sense, m, Tick(input))
    ensures Tracks(p, sense, Underneath(Code(p), sense, q, m, input), handlers, Update(Code(p), sense, m, Tick(input)))
  {
    hide Code, Meek, RunCycle, Tracks, HandlersNest, IsProgram, Configured, NoLastFunction, Serves, Served, Suspended, Safe;
    var code := Code(p);
    InvInBounds(code, sense, m, Tick(input));
    ServeTracks(p, sense, q, handlers, m, input.crossed);
    TracksCovers(p, sense, q, handlers, m);
    UpdateCovers(code, sense, q, m, input);
    var y, x, r := ServeInterrupt(code, sense, m, input.crossed), Update(code, sense, m, Tick(input)), Underneath(code, sense, q, m, input);
    if x.base == 0 {
      CoversRests(p, sense, r, handlers, x);
    } else {
      ServeInterruptBase(code, sense, m, input);
      assert r == q && y.base > 0;
      if input.arrived { TracksOn(p, sense, q, handlers, y); }
    }
  }

  lemma CoversRests(p: Program, sense: nat -> int, q: Machine, handlers: set<nat>, x: Machine)
    requires Covers(q, x) && x.base == 0
    ensures Tracks(p, sense, q, handlers, x)
  {
  }

  lemma ServeInterruptBase(code: seq<Instr>, sense: nat -> int, m: Machine, input: Input)
    requires Inv(code, m) && InBounds(code, sense, m, Tick(input))
    ensures ServeInterrupt(code, sense, m, input.crossed).base == 0 ==> Update(code, sense, m, Tick(input)).base == 0
  {
    hide RunCycle;
    var y := ServeInterrupt(code, sense, m, input.crossed);
    if y.base == 0 { BaseStaysZero(code, sense, y, 0); }
  }

  lemma TracksOn(p: Program, sense: nat -> int, q: Machine, handlers: set<nat>, y: Machine)
    requires Safe(Code(p), y) && Tracks(p, sense, q, handlers, y) && y.base > 0 && HandlersNest(p, sense, q, handlers)
    ensures Tracks(p, sense, q, handlers, Cycle(Code(p), sense, y))
  {
    hide Code, HandlersNest, Serves, RunCycle, Safe;
    assert !Resting(q, y);
    var fn: nat, e: Machine, j: nat :| Serves(p, sense, q, handlers, y, fn, e, j);
    CycleRuns(p, sense, q, handlers, y, fn, e, j);
  }

  /** At every update one of the given functions is configured, if any, and fits over the program underneath. */
  ghost predicate BlocksOnly(p: Program, sense: nat -> int, q: Machine, m: Machine, handlers: set<nat>, inputs: seq<Input>)
    requires Safe(Code(p), q) && Inv(Code(p), m)
    decreases |inputs|
  {
    inputs == [] ||
    (UpdateKeepsInv(Code(p), sense, m, Tick(inputs[0]));
     Configured(p, m.world, handlers) && HandlersNest(p, sense, q, handlers) &&
     BlocksOnly(p, sense, Underneath(Code(p), sense, q, m, inputs[0]), Update(Code(p), sense, m, Tick(inputs[0])), handlers, inputs[1..]))
  }

  lemma {:induction false} BlockHandlersAreQuiet(p: Program, sense: nat -> int, q: Machine, m: Machine, handlers: set<nat>, inputs: seq<Input>)
    requires IsProgram(p) && Safe(Code(p), q) && Inv(Code(p), m) && Tracks(p, sense, q, handlers, m)
    requires BlocksOnly(p, sense, q, m, handlers, inputs)
    ensures AllQuiet(Code(p), sense, m, inputs)
    decreases |inputs|
  {
    hide Code, IsProgram, Quiet, Update, Underneath, Safe, NoLastFunction, Tracks, HandlersNest, Configured;
    if inputs != [] {
      UpdateKeepsInv(Code(p), sense, m, Tick(inputs[0]));
      UpdateTracks(p, sense, q, handlers, m, inputs[0]);
      BlockHandlersAreQuiet(p, sense, Underneath(Code(p), sense, q, m, inputs[0]), Update(Code(p), sense, m, Tick(inputs[0])), handlers, inputs[1..]);
    }
  }

  /**
   The handler as the documentation means it: made of blocks, closed by END, without EXEC and
   within the stack.  However many updates it takes, however often it is entered again, and whatever
   goals are reached on the way, the update that crosses the finish line goes on with the program
   underneath, which has run only its own cycles -- exactly if no handler runs that has cleared itself.
   */
  lemma BlockHandlersAreTransparent(p: Program, sense: nat -> int, m0: Machine, handlers: set<nat>, inputs: seq<Input>, arrived: bool)
    requires IsProgram(p) && Inv(Code(p), m0) && m0.base == 0 && BlocksOnly(p, sense, m0, m0, handlers, inputs)
    ensures var x, q := After(Code(p), sense, m0, inputs), Below(Code(p), sense, m0, m0, inputs);
      && Covers(q, x) && InBounds(Code(p), sense, x, Tick(Input(true, arrived)))
      && var z := Update(Code(p), sense, x, Tick(Input(true, arrived)));
      && z == Crossed(Code(p), sense, q, x, arrived)
      && (!arrived ==> (z == q.(world := x.world) <==> Uncovers(x)))
  {
    hide Code, After, AllQuiet, Safe, NoLastFunction, BlocksOnly, IsProgram, Update, Flown, Crossed, Uncovers;
    CoversItself(Code(p), m0);
    CoversRests(p, sense, m0, handlers, m0);
    BlockHandlersAreQuiet(p, sense, m0, m0, handlers, inputs);
    InterruptTransparent(Code(p), sense, m0, inputs, arrived);
  }

  // ---------------------------------------------------------------- handlers without calls

  /** No DO and no EXEC, and at most `room` blocks inside one another. */
  predicate Fits(b: Block, room: nat) {
    b.Cons? ==> FitsStmt(b.head, room) && Fits(b.tail, room)
  }

  predicate FitsStmt(s: Stmt, room: nat) {
    match s
    case Plain(i) => !IsDo(i) && !IsExec(i)
    case Repeat(_, body) => room > 0 && Fits(body, room - 1)
    case When(_, thn) => room > 0 && Fits(thn, room - 1)
    case Choose(_, thn, els) => room > 0 && Fits(thn, room - 1) && Fits(els, room - 1)
  }

  lemma {:induction false} FittingBlock(p: Program, sense: nat -> int, b: Block, room: nat, depth: nat, c: Context, n: nat)
    requires Fits(b, room) && depth + room <= STACK_DEPTH
    ensures var r := EvalBlock(p, sense, b, depth, c, n); r.Done? || r.Cut?
    decreases n, b, 0
  {
    hide EvalStmt;
    if b.Cons? {
      FittingStmt(p, sense, b.head, room, depth, c, n);
      var r := EvalStmt(p, sense, b.head, depth, c, n);
      if r.Done? { FittingBlock(p, sense, b.tail, room, depth, r.c, r.left); }
    }
  }

  lemma {:induction false} FittingStmt(p: Program, sense: nat -> int, s: Stmt, room: nat, depth: nat, c: Context, n: nat)
    requires FitsStmt(s, room) && depth + room <= STACK_DEPTH
    ensures var r := EvalStmt(p, sense, s, depth, c, n); r.Done? || r.Cut?
    decreases n, s, 0
  {
    hide EvalBlock;
    hide EvalLoop;
    hide Cond;
    if n > 0 {
      var i := Argument(s.i, c);
      var c1 := c.(world := AfterRead(c.world, i.subcmd));
      match s {
        case Plain(_) =>
        case Repeat(_, body) => FittingLoop(p, sense, body, room - 1, depth + 1, Times(i.arg), c, n - 1);
        case When(_, thn) => FittingBlock(p, sense, thn, room - 1, depth + 1, c1, n - 1);
        case Choose(_, thn, els) =>
          FittingBlock(p, sense, thn, room - 1, depth + 1, c1, n - 1);
          FittingBlock(p, sense, els, room - 1, depth + 1, c1, n - 1);
      }
    }
  }

  lemma {:induction false} FittingLoop(p: Program, sense: nat -> int, body: Block, room: nat, depth: nat, times: int, c: Context, n: nat)
    requires Fits(body, room) && depth + room <= STACK_DEPTH
    ensures var r := EvalLoop(p, sense, body, depth, times, c, n); r.Done? || r.Cut?
    decreases n, body, 1
  {
    hide EvalBlock;
    FittingBlock(p, sense, body, room, depth, c, n);
    var r := Close(EvalBlock(p, sense, body, depth, c, n));
    if r.Done? && times != 1 {
      FittingLoop(p, sense, body, room, depth, if times == -1 then -1 else times - 1, r.c, r.left);
    }
  }

  /** Handlers without calls whose blocks fit the free slots meet the condition, whatever is read or flown. */
  lemma CallFreeHandlersNest(p: Program, sense: nat -> int, m0: Machine, handlers: set<nat>)
    requires |m0.frames| < STACK_DEPTH && forall fn <- handlers :: Fits(Body(p, fn), STACK_DEPTH - 1 - |m0.frames|)
    ensures HandlersNest(p, sense, m0, handlers)
  {
    hide EvalBlock;
    hide Fits;
    hide Code;
    hide IsProgram;
    hide Inv;
    forall fn: nat, e: Machine | fn in handlers && Resting(m0, e) && Interrupts(p, fn, e)
      ensures Nests(p, sense, fn, e)
    {
      forall n: nat ensures NestsFor(p, sense, fn, e, n) {
        FittingBlock(p, sense, Body(p, fn), STACK_DEPTH - 1 - |m0.frames|, |m0.frames| + 1, Context(e.world, 0), n);
      }
    }
  }

  // ---------------------------------------------------------------- injected calls

  lemma ClosedLaunch(p: Program, sense: nat -> int, m: Machine, i: Instr)
    requires IsProgram(p) && Safe(Code(p), m) && IsDo(i) && IsClosed(p, i.subcmd)
    ensures LaunchesInside(Code(p), sense, m, i)
  {
    hide Code, IsProgram, At, FindStart, Flatten, IsClosed;
    FindStartLands(p, i.subcmd);
    LaunchedIndex(Code(p), sense, m, i);
  }

  /**
   An injected DO, unlike an interrupt, does not come back to the pending instruction:
   once the subroutine has ended, the instruction that was next has been skipped.
   */
  lemma InjectedCallSkips(p: Program, sense: nat -> int, m: Machine, i: Instr, n: nat, c: Context)
    requires IsProgram(p) && Safe(Code(p), m) && |m.frames| < STACK_DEPTH
    requires IsDo(i) && !i.useParam && IsClosed(p, i.subcmd)
    requires EvalBlock(p, sense, Body(p, i.subcmd), |m.frames| + 1, Context(m.world, i.arg), n) == Done(c, 1)
    ensures var x := Execute(Code(p), sense, m, i);
      (ClosedLaunch(p, sense, m, i);
       InjectedLaunchOk(Code(p), sense, m, i);
       Steps(Code(p), sense, x.(index := x.index + 1), n)) ==
        Machine(Norm(Code(p), m.index + 1), m.frames, m.base, c.world)
  {
    hide Code;
    hide Step;
    hide EvalBlock;
    hide At;
    hide IsProgram;
    var code, b := Code(p), Body(p, i.subcmd);
    ClosedLaunch(p, sense, m, i);
    InjectedLaunchOk(code, sense, m, i);
    FindStartLands(p, i.subcmd);
    var x := Execute(code, sense, m, i);
    var h, f, pos := x.(index := x.index + 1), SubFrame(m.index, i.arg), FindStart(code, i.subcmd) + 1;
    assert h == Machine(pos, m.frames + [f], m.base, m.world);
    assert ContextOf(h) == Context(m.world, i.arg);
    SimBlock(p, sense, h, n, pos, b);
    CallReaches(code, sense, h, n, m.frames, f, m.base, pos + |Flatten(b)|, Done(c, 1));
    ParamFacts(m.frames, 0, 0);
  }
}
