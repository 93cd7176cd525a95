/**
 UDB Logo as its documentation presents it: nested IF/ELSE/END and REPEAT/END
 blocks, subroutines closed by END, and their direct recursive evaluation.
 `Flatten` is the instruction array the nested macros expand to.
 */
module LogoBlocks {
  import opened FixedWidth
  import opened LogoMachine

  datatype Block = Nil | Cons(head: Stmt, tail: Block)

  datatype Stmt =
    | Plain(i: Instr)                                  // an action, DO or EXEC
    | Repeat(i: Instr, body: Block)                    // REPEAT ... END
    | When(i: Instr, thn: Block)                       // IF ... END
    | Choose(i: Instr, thn: Block, els: Block)         // IF ... ELSE ... END

  datatype Sub = Sub(to: Instr, body: Block)

  /** MAIN, with or without its END, followed by the subroutine definitions. */
  datatype Program = Program(main: Block, closed: bool, subs: seq<Sub>)

  const END := Instr(1, false, false, 1, 0)
  const ELSE := Instr(1, false, false, 3, 0)

  predicate IsBlock(b: Block) {
    b.Cons? ==> IsStmt(b.head) && IsBlock(b.tail)
  }

  predicate IsStmt(s: Stmt) {
    match s
    case Plain(i) => i.cmd != 1 && !IsIf(i)
    case Repeat(i, body) => IsRepeat(i) && IsBlock(body)
    case When(i, thn) => IsIf(i) && IsBlock(thn)
    case Choose(i, thn, els) => IsIf(i) && IsBlock(thn) && IsBlock(els)
  }

  predicate IsSub(s: Sub) {
    IsTo(s.to) && IsBlock(s.body)
  }

  predicate IsProgram(p: Program) {
    && IsBlock(p.main)
    && (forall k :: 0 <= k < |p.subs| ==> IsSub(p.subs[k]))
    && 1 <= |Code(p)| <= MAX_PROGRAM
  }

  // ---------------------------------------------------------------- flattening

  function Flatten(b: Block): seq<Instr> {
    match b
    case Nil => []
    case Cons(s, t) => FlattenStmt(s) + Flatten(t)
  }

  function FlattenStmt(s: Stmt): (r: seq<Instr>)
    ensures |r| > 0
  {
    match s
    case Plain(i) => [i]
    case Repeat(i, body) => [i] + Flatten(body) + [END]
    case When(i, thn) => [i] + Flatten(thn) + [END]
    case Choose(i, thn, els) => [i] + (Flatten(thn) + ([ELSE] + Flatten(els))) + [END]
  }

  function SubCode(s: Sub): seq<Instr> {
    [s.to] + Flatten(s.body) + [END]
  }

  function SubsCode(subs: seq<Sub>): seq<Instr> {
    if subs == [] then [] else SubCode(subs[0]) + SubsCode(subs[1..])
  }

  function MainCode(p: Program): seq<Instr> {
    Flatten(p.main) + (if p.closed then [END] else [])
  }

  function Code(p: Program): seq<Instr> {
    MainCode(p) + SubsCode(p.subs)
  }

  // ---------------------------------------------------------------- evaluation

  /** What a block reads and changes: the flown world and PARAM of the running subroutine. */
  datatype Context = Context(world: World, param: int)

  /**
   The result of evaluating with a budget of instructions.
   `Done`: finished, `left` instructions of the budget unused.
   `Cut`: the budget ran out here.
   `Leave`: an EXEC abandoned all enclosing blocks.
   `Escape`: a block was entered with the stack full, or an unclosed MAIN was called.
   */
  datatype Outcome =
    | Done(c: Context, left: nat)
    | Cut(c: Context)
    | Leave(fn: nat, c: Context, left: nat)
    | Escape

  /** The number of times REPEAT(arg) runs its body; -1 for ever. */
  function Times(arg: int): (k: int)
    ensures k == -1 || k >= 1
  {
    if arg == -1 then -1 else if arg > 1 then arg else 1
  }

  /** Function 0, and any function the program does not define, is MAIN. */
  function Body(p: Program, fn: nat): Block {
    var k := Lookup(p.subs, fn);
    if fn == 0 || k == |p.subs| then p.main else p.subs[k].body
  }

  predicate IsClosed(p: Program, fn: nat) {
    p.closed || (fn != 0 && Lookup(p.subs, fn) < |p.subs|)
  }

  /** The first definition of `fn`, or the number of definitions. */
  function Lookup(subs: seq<Sub>, fn: nat): (k: nat)
    ensures k <= |subs|
    ensures k < |subs| ==> subs[k].to.arg == fn
    ensures forall j :: 0 <= j < k ==> subs[j].to.arg != fn
  {
    if subs == [] || subs[0].to.arg == fn then 0 else 1 + Lookup(subs[1..], fn)
  }

  function Argument(i: Instr, c: Context): Instr {
    if i.useParam then i.(arg := c.param) else i
  }

  function Act(p: Program, sense: nat -> int, i: Instr, c: Context): Context {
    Context(ActWorld(Code(p), c.world, i), ActParam(sense, c.world, c.param, i))
  }

  /** Spend one instruction on the END or ELSE that closes a finished block. */
  function Close(r: Outcome): Outcome {
    match r
    case Done(c, left) => if left == 0 then Cut(c) else Done(c, left - 1)
    case _ => r
  }

  /** Back in the caller: PARAM is the caller's again. */
  function Return(r: Outcome, param: int): Outcome {
    match r
    case Done(c, left) => Done(c.(param := param), left)
    case Leave(fn, c, left) => Leave(fn, c.(param := param), left)
    case _ => r
  }

  function EvalBlock(p: Program, sense: nat -> int, b: Block, depth: nat, c: Context, n: nat): (r: Outcome)
    ensures r.Done? ==> r.left <= n && (b.Cons? ==> r.left < n)
    ensures r.Leave? ==> r.left < n
    decreases n, b, 0
  {
    match b
    case Nil => Done(c, n)
    case Cons(s, t) =>
      var r := EvalStmt(p, sense, s, depth, c, n);
      if r.Done? then EvalBlock(p, sense, t, depth, r.c, r.left) else r
  }

  function EvalStmt(p: Program, sense: nat -> int, s: Stmt, depth: nat, c: Context, n: nat): (r: Outcome)
    ensures r.Done? ==> r.left < n
    ensures r.Leave? ==> r.left < n
    decreases n, s, 0
  {
    if n == 0 then Cut(c)
    else
      var i := Argument(s.i, c);
      match s
      case Plain(_) =>
        if IsExec(i) then Leave(i.subcmd, c, n - 1)
        else if !IsDo(i) then Done(Act(p, sense, i, c), n - 1)
        else if depth >= STACK_DEPTH || !IsClosed(p, i.subcmd) then Escape
        else Return(Close(EvalBlock(p, sense, Body(p, i.subcmd), depth + 1, Context(c.world, i.arg), n - 1)), c.param)
      case Repeat(_, body) =>
        if depth >= STACK_DEPTH then Escape
        else EvalLoop(p, sense, body, depth + 1, Times(i.arg), c, n - 1)
      case When(_, thn) =>
        var c1 := c.(world := AfterRead(c.world, i.subcmd));
        if !Cond(sense, c.world, c.param, i) then Done(c1, n - 1)
        else if depth >= STACK_DEPTH then Escape
        else Close(EvalBlock(p, sense, thn, depth + 1, c1, n - 1))
      case Choose(_, thn, els) =>
        var c1 := c.(world := AfterRead(c.world, i.subcmd));
        if depth >= STACK_DEPTH then Escape
        else if Cond(sense, c.world, c.param, i) then Close(EvalBlock(p, sense, thn, depth + 1, c1, n - 1))
        else Close(EvalBlock(p, sense, els, depth + 1, c1, n - 1))
  }

  /** The body `times` times over, each round closed by the END. */
  function EvalLoop(p: Program, sense: nat -> int, body: Block, depth: nat, times: int, c: Context, n: nat): (r: Outcome)
    ensures r.Done? || r.Leave? ==> r.left < n
    decreases n, body, 1
  {
    var r := Close(EvalBlock(p, sense, body, depth, c, n));
    if r.Done? && times != 1 then
      EvalLoop(p, sense, body, depth, if times == -1 then -1 else times - 1, r.c, r.left)
    else r
  }

  /** The running program after `n` instructions: function `fn` started over for ever, or another one after EXEC. */
  function EvalProgram(p: Program, sense: nat -> int, fn: nat, c: Context, n: nat): (r: Outcome)
    decreases n
  {
    match EvalBlock(p, sense, Body(p, fn), 1, c, n)
    case Done(c1, left) =>
      if IsClosed(p, fn) || p.subs != [] then
        (if left == 0 then Cut(c1) else EvalProgram(p, sense, fn, c1, left - 1))
      else (if left == n then Cut(c1) else EvalProgram(p, sense, fn, c1, left))
    case Leave(fn1, c1, left) => EvalProgram(p, sense, fn1, c1, left)
    case r => r
  }
}
