/** What the commands of UDB Logo mean: laws of PARAM, pen and conditions, and the turtles a log of effects moves. */
module LogoCommands {
  import opened FixedWidth
  import opened LogoMachine

  // ---------------------------------------------------------------- arguments

  /** A turtle, flag or speed command logs its argument, or PARAM in its place if it is a _PARAM command. */
  lemma CommandLogs(code: seq<Instr>, sense: nat -> int, m: Machine, i: Instr)
    requires Safe(code, m) && HasEffect(i)
    ensures Execute(code, sense, m, i).world.log ==
      m.world.log + [Effect(m.world.camera, i.cmd, i.subcmd, if i.useParam then Param(m.frames) else i.arg)]
  {
    hide ActParam;
  }

  // ---------------------------------------------------------------- PARAM, pen, conditions

  function ParamOp(subcmd: nat, arg: int): Instr {
    Instr(9, false, false, subcmd, arg)
  }

  /** PARAM_ADD adds, and PARAM_ADD and PARAM_SUB undo each other, overflow or not. */
  lemma AddUndone(sense: nat -> int, w: World, param: int, x: int)
    requires IsWord(param)
    ensures IsWord(param + x) ==> ActParam(sense, w, param, ParamOp(1, x)) == param + x
    ensures ActParam(sense, w, ActParam(sense, w, param, ParamOp(1, x)), ParamOp(1, -x)) == param
  {
    hide TruncDiv, Value;
    assert S16(S16(param + x) - x) == param;
  }

  /** PARAM_DIV undoes a PARAM_MUL whose product fits. */
  lemma MulUndone(sense: nat -> int, w: World, param: int, x: int)
    requires IsWord(param) && x != 0 && IsWord(param * x)
    ensures ActParam(sense, w, ActParam(sense, w, param, ParamOp(2, x)), ParamOp(3, x)) == param
  {
    hide TruncDiv, Value;
    DividesBack(param, x);
  }

  lemma DividesBack(p: int, x: int)
    requires x != 0
    ensures TruncDiv(p * x, x) == p
  {
    SignOfProduct(p, x);
    assert Abs(p * x) == Abs(p) * Abs(x);
    ExactQuotient(Abs(p), Abs(x));
  }

  lemma SignOfProduct(p: int, x: int)
    requires x != 0
    ensures (p > 0) == (x > 0) && p != 0 ==> p * x > 0
    ensures (p > 0) != (x > 0) && p != 0 ==> p * x < 0
  {
    if p > 0 && x > 0 {
      assert p * x >= 1;
    } else if p < 0 && x < 0 {
      assert (-p) * (-x) >= 1;
    } else if p > 0 {
      assert p * (-x) >= 1;
    } else if p < 0 {
      assert (-p) * x >= 1;
    }
  }

  lemma ExactQuotient(a: nat, b: nat)
    requires b > 0
    ensures (a * b) / b == a
  {
    var (n, q) := (a * b, (a * b) / b);
    Between(a, q, b, n - q * b);
  }

  lemma AtLeast(d: int, b: int)
    requires d >= 1 && b >= 0
    ensures d * b >= b && d * b >= d * (if b >= 1 then 1 else 0)
  {
  }

  lemma Between(a: int, q: int, b: int, r: int)
    requires a * b == q * b + r && 0 <= r < b
    ensures a == q
  {
    if a > q {
      AtLeast(a - q, b);
      Distributes(a, q, b);
    } else if a < q {
      AtLeast(q - a, b);
      Distributes(q, a, b);
    }
  }

  lemma Distributes(a: int, q: int, b: int)
    ensures (a - q) * b == a * b - q * b
  {
  }

  /** Division rounds toward zero, on both sides of it alike. */
  lemma DivisionTruncates(param: nat, x: int)
    requires x > 0
    ensures TruncDiv(param, x) * x <= param < TruncDiv(param, x) * x + x
    ensures TruncDiv(-(param as int), x) == -TruncDiv(param, x) == TruncDiv(param, -x)
  {
    assert TruncDiv(param, x) == param / x;
  }

  /** PARAM_DIV gives that quotient, except that the most negative word by -1 wraps around; by 0 it changes nothing. */
  lemma ParamDividesIff(sense: nat -> int, w: World, param: int, x: int)
    requires IsWord(param) && x != 0
    ensures ActParam(sense, w, param, ParamOp(3, x)) == TruncDiv(param, x) <==> !(param == -0x8000 && x == -1)
    ensures ActParam(sense, w, param, ParamOp(3, 0)) == param
  {
    hide Value, TruncDiv;
    QuotientFits(param, x);
  }

  lemma QuotientFits(a: int, b: int)
    requires IsWord(a) && b != 0
    ensures IsWord(TruncDiv(a, b)) <==> !(a == -0x8000 && b == -1)
  {
    QuotientShrinks(Abs(a), Abs(b));
  }

  /** A quotient is no larger than the dividend, and as large only if that is 0 or the divisor 1. */
  lemma QuotientShrinks(a: nat, b: nat)
    requires b > 0
    ensures 0 <= a / b <= a && (a / b == a <==> a == 0 || b == 1)
  {
    QuotientIsLess(a, b, a / b, a % b);
  }

  lemma QuotientIsLess(a: nat, b: nat, q: int, r: nat)
    requires a == b * q + r && r < b
    ensures 0 <= q <= a && (q == a <==> a == 0 || b == 1)
  {
    if q < 0 {
      AtLeast(-q, b);
      Distributes(0, q, b);
      assert false;
    }
    if b > 1 { Doubles(b, q); }
  }

  lemma Doubles(b: nat, q: nat)
    requires b > 1
    ensures b * q >= 2 * q
  {
  }

  /** `n` times pen up, then as often pen down, is where it was; further down than down there is not. */
  function Pens(pen: int, subcmd: nat, n: nat): int {
    if n == 0 then pen else Pen(Pens(pen, subcmd, n - 1), subcmd)
  }

  lemma {:induction false} PensMove(pen: nat, n: nat)
    requires pen + n < 0x8000
    ensures Pens(pen, 0, n) == pen + n && (Pens(pen, 1, n) == if pen > n then pen - n else 0)
    decreases n
  {
    if n > 0 { PensMove(pen, n - 1); }
  }

  lemma PensNest(pen: nat, n: nat)
    requires pen + 2 * n < 0x8000
    ensures Pens(Pens(pen, 0, n), 1, n) == pen
  {
    PensMove(pen, n);
    PensMove(pen + n, n);
  }

  /** A second toggle undoes the first exactly if the pen was not raised more than once. */
  lemma ToggleTwiceIff(pen: nat)
    ensures Pen(Pen(pen, 2), 2) == pen <==> pen <= 1
  {
  }

  function Test(cmd: nat, ident: nat, arg: int): Instr {
    Instr(cmd, false, false, ident, arg)
  }

  /** Each test is the negation of its opposite, and of less, equal and greater exactly one holds. */
  lemma TestsOppose(sense: nat -> int, w: World, param: int, ident: nat, arg: int)
    ensures Cond(sense, w, param, Test(14, ident, arg)) == !Cond(sense, w, param, Test(15, ident, arg))
    ensures Cond(sense, w, param, Test(16, ident, arg)) == !Cond(sense, w, param, Test(19, ident, arg))
    ensures Cond(sense, w, param, Test(17, ident, arg)) == !Cond(sense, w, param, Test(18, ident, arg))
    ensures var (eq, gt, lt) := (Cond(sense, w, param, Test(14, ident, arg)), Cond(sense, w, param, Test(16, ident, arg)),
                                 Cond(sense, w, param, Test(17, ident, arg)));
      (eq || gt || lt) && !(eq && gt) && !(eq && lt) && !(gt && lt)
    ensures Cond(sense, w, arg, Test(14, PARAM, arg)) && Cond(sense, w, arg, Test(17, PARAM, arg + 1))
  {
  }

  /** Subroutine calls find the first definition, and MAIN exactly for 0 and functions not defined. */
  lemma {:induction false} FindsFirst(code: seq<Instr>, k: nat, fn: nat)
    requires k <= |code|
    ensures var r := FindFrom(code, k, fn);
      forall j :: k <= j < (if r == -1 then |code| else r) ==> !(IsTo(code[j]) && code[j].arg == fn)
    decreases |code| - k
  {
    if k < |code| && !(IsTo(code[k]) && code[k].arg == fn) { FindsFirst(code, k + 1, fn); }
  }

  // ---------------------------------------------------------------- turtles

  datatype Turtle = Turtle(x: int, y: int, z: int, angle: int)

  datatype Turtles = Turtles(plane: Turtle, camera: Turtle)

  /** The sine tables, and what commands read of the aircraft: heading, angle and position for effect `k`. */
  datatype Surroundings = Surroundings(
    cosine: Byte -> int, sine: Byte -> int, heading: nat -> int, goal: nat -> int, x: nat -> int, y: nat -> int)

  /** Degrees clockwise from north as 256ths counter-clockwise from east. */
  function Bearing(angle: int): Byte {
    U8(-(U16(angle * 182 + 128) / 0x100) - 64)
  }

  function Turned(angle: int, turn: int): int {
    S16(angle + turn) % 360
  }

  /** `n` metres added to the upper word. */
  function Moved(v: int, n: int): int {
    S16(v / 0x1_0000 + n) * 0x1_0000 + v % 0x1_0000
  }

  function Forward(s: Surroundings, t: Turtle, n: int): Turtle {
    t.(x := S32(t.x - 4 * (s.cosine(Bearing(t.angle)) * n)), y := S32(t.y - 4 * (s.sine(Bearing(t.angle)) * n)))
  }

  /** Effect number `k` on the active turtle; absolute positions are not followed. */
  function Move(s: Surroundings, t: Turtle, k: nat, e: Effect): Turtle {
    match (e.cmd, e.subcmd)
    case (3, 0) => Forward(s, t, e.arg)
    case (4, 0) => t.(angle := Turned(t.angle, e.arg))
    case (4, 1) => t.(angle := e.arg)
    case (4, 2) => t.(angle := s.heading(k))
    case (4, 3) => t.(angle := s.goal(k))
    case (5, 0) => t.(x := Moved(t.x, e.arg))
    case (5, 1) => t.(x := e.arg * 0x1_0000)
    case (5, 2) => t.(y := Moved(t.y, e.arg))
    case (5, 3) => t.(y := e.arg * 0x1_0000)
    case (5, 4) => t.(z := S16(t.z + e.arg))
    case (5, 5) => t.(z := e.arg)
    case (5, 6) => t.(x := s.x(k) * 0x1_0000, y := s.y(k) * 0x1_0000)
    case (5, 7) => t.(x := 0, y := 0, angle := 0)
    case _ => t
  }

  /** The turtles after the effects of a log. */
  function Replay(s: Surroundings, t: Turtles, log: seq<Effect>): Turtles {
    if log == [] then t
    else
      var (k, e) := (|log| - 1, log[|log| - 1]);
      var r := Replay(s, t, log[..k]);
      if e.camera then r.(camera := Move(s, r.camera, k, e)) else r.(plane := Move(s, r.plane, k, e))
  }

  predicate OnMap(t: Turtle) {
    IsLong(t.x) && IsLong(t.y) && IsWord(t.z) && 0 <= t.angle < 360
  }

  /** FD and BK, EAST and WEST, ALT_UP and ALT_DOWN, RT and LT: each brings the turtle exactly back. */
  lemma MovesUndone(s: Surroundings, t: Turtle, k: nat, camera: bool, cmd: nat, subcmd: nat, n: int)
    requires OnMap(t) && -0x8000 < n < 0x8000
    requires (cmd == 3 && subcmd == 0) || (cmd == 5 && (subcmd == 0 || subcmd == 2 || subcmd == 4))
          || (cmd == 4 && subcmd == 0 && IsWord(t.angle + n) && IsWord(359 - n))
    ensures Move(s, Move(s, t, k, Effect(camera, cmd, subcmd, n)), k + 1, Effect(camera, cmd, subcmd, -n)) == t
  {
    hide Forward, Turned, Moved;
    ForwardUndone(s, t, n);
    MovedUndone(t.x, n);
    MovedUndone(t.y, n);
    if IsWord(t.angle + n) && IsWord(359 - n) { TurnUndone(t.angle, n); }
  }

  lemma ForwardUndone(s: Surroundings, t: Turtle, n: int)
    requires OnMap(t)
    ensures Forward(s, Forward(s, t, n), -n) == t
  {
    hide S32, Bearing;
    var (dx, dy) := (s.cosine(Bearing(t.angle)) * n, s.sine(Bearing(t.angle)) * n);
    MulMinus(s.cosine(Bearing(t.angle)), n);
    MulMinus(s.sine(Bearing(t.angle)), n);
    WrapUndone(t.x, 4 * dx);
    WrapUndone(t.y, 4 * dy);
  }

  lemma MovedUndone(v: int, n: int)
    requires IsLong(v)
    ensures Moved(Moved(v, n), -n) == v
  {
    var hi := S16(v / 0x1_0000 + n);
    assert Moved(v, n) / 0x1_0000 == hi;
    assert S16(hi - n) == v / 0x1_0000;
  }

  lemma TurnUndone(angle: int, n: int)
    requires 0 <= angle < 360 && IsWord(angle + n) && IsWord(359 - n) && n > -0x8000
    ensures Turned(Turned(angle, n), -n) == angle
  {
  }

  lemma MulMinus(a: int, n: int)
    ensures a * (-n) == -(a * n)
  {
  }

  lemma WrapUndone(x: int, d: int)
    requires IsLong(x)
    ensures S32(S32(x - d) + d) == x && S32(S32(x + d) - d) == x
  {
    hide S32;
    WrapOnce(x - d, d);
    WrapOnce(x + d, -d);
    Unwrapped(x);
  }

  // ---------------------------------------------------------------- commands that go backwards by PARAM

  /**
   BK_PARAM, LT_PARAM, WEST_PARAM, SOUTH_PARAM, ALT_DOWN_PARAM and SPEED_DECREASE_PARAM are defined
   with argument -1, which PARAM replaces: they log the effect of their positive counterparts.
   */
  const BK_PARAM := Instr(3, true, true, 0, -1)
  const LT_PARAM := Instr(4, false, true, 0, -1)
  const WEST_PARAM := Instr(5, true, true, 0, -1)
  const SOUTH_PARAM := Instr(5, true, true, 2, -1)
  const ALT_DOWN_PARAM := Instr(5, false, true, 4, -1)
  const SPEED_DECREASE_PARAM := Instr(11, false, true, 0, -1)

  /** The effect a command has that is executed with this PARAM, and the one documented for it. */
  function Actual(i: Instr, camera: bool, param: int): Effect {
    Effect(camera, i.cmd, i.subcmd, param)
  }

  function Documented(i: Instr, camera: bool, param: int): Effect {
    Effect(camera, i.cmd, i.subcmd, S16(-param))
  }

  lemma ParamIsLogged(code: seq<Instr>, sense: nat -> int, m: Machine, i: Instr)
    requires Safe(code, m) && i in [BK_PARAM, LT_PARAM, WEST_PARAM, SOUTH_PARAM, ALT_DOWN_PARAM, SPEED_DECREASE_PARAM]
    ensures Execute(code, sense, m, i).world.log == m.world.log + [Actual(i, m.world.camera, Param(m.frames))]
  {
    hide Execute;
    CommandLogs(code, sense, m, i);
  }

  /** The two sides of a 16-bit sum are the same exactly if twice the difference wraps to nothing. */
  lemma SumsAgree(v: int, p: int)
    requires IsWord(p)
    ensures S16(v + p) == S16(v + S16(-p)) <==> S16(2 * p) == 0
  {
    var m := 0x1_0000;
    var a, b := (v + p + 0x8000) / m, (v + S16(-p) + 0x8000) / m;
    assert S16(v + p) == v + p - a * m && S16(v + S16(-p)) == v + S16(-p) - b * m;
  }

  /** WEST_PARAM, SOUTH_PARAM and ALT_DOWN_PARAM do what is documented exactly if twice PARAM wraps to 0. */
  lemma WestParamIff(s: Surroundings, t: Turtle, k: nat, camera: bool, param: int, i: Instr)
    requires IsWord(param) && i in [WEST_PARAM, SOUTH_PARAM, ALT_DOWN_PARAM]
    ensures Move(s, t, k, Actual(i, camera, param)) == Move(s, t, k, Documented(i, camera, param)) <==> S16(2 * param) == 0
  {
    hide S16;
    SumsAgree(t.x / 0x1_0000, param);
    SumsAgree(t.y / 0x1_0000, param);
    SumsAgree(t.z, param);
  }

  /** How often the sum of two words goes round. */
  function Wraps(x: int): int {
    if x >= 0x8000 then 1 else if x < -0x8000 then -1 else 0
  }

  lemma WrapsOnce(x: int)
    requires -0x1_0000 <= x < 0x1_0000
    ensures S16(x) == x - 0x1_0000 * Wraps(x)
  {
  }

  lemma MinusWraps(v: int, p: int)
    ensures S16(v + S16(-p)) == S16(v - p)
  {
    var m := 0x1_0000;
    var a, b := (v + S16(-p) + 0x8000) / m, (v - p + 0x8000) / m;
    assert S16(v + S16(-p)) == v + S16(-p) - a * m && S16(v - p) == v - p - b * m;
  }

  lemma SameTurn(a: int, b: int)
    ensures a % 360 == b % 360 <==> (a - b) % 360 == 0
  {
    var p, q := a / 360, b / 360;
    if (a - b) % 360 == 0 { assert a == b + 360 * ((a - b) / 360); }
  }

  /**
   LT_PARAM turns left by PARAM exactly if both turns end at the same angle: with overflow, if twice PARAM
   less the difference in wraps is a whole number of turns; without, for half turns.
   */
  lemma LeftParamIff(s: Surroundings, t: Turtle, k: nat, camera: bool, param: int)
    requires IsWord(t.angle) && IsWord(param)
    ensures Move(s, t, k, Actual(LT_PARAM, camera, param)) == Move(s, t, k, Documented(LT_PARAM, camera, param)) <==>
      (2 * param - 0x1_0000 * (Wraps(t.angle + param) - Wraps(t.angle - param))) % 360 == 0
    ensures IsWord(t.angle + param) && IsWord(t.angle - param) ==>
      (Move(s, t, k, Actual(LT_PARAM, camera, param)) == Move(s, t, k, Documented(LT_PARAM, camera, param)) <==> param % 180 == 0)
  {
    hide S16, Wraps;
    MinusWraps(t.angle, param);
    WrapsOnce(t.angle + param);
    WrapsOnce(t.angle - param);
    SameTurn(S16(t.angle + param), S16(t.angle - param));
    if IsWord(t.angle + param) && IsWord(t.angle - param) {
      NoWraps(t.angle + param);
      NoWraps(t.angle - param);
      HalfTurn(param);
    }
  }

  lemma NoWraps(x: int)
    requires IsWord(x)
    ensures Wraps(x) == 0
  {
  }

  lemma HalfTurn(p: int)
    ensures (2 * p) % 360 == 0 <==> p % 180 == 0
  {
    if (2 * p) % 360 == 0 { assert p == 180 * (2 * p / 360); }
    if p % 180 == 0 { assert 2 * p == 360 * (p / 180); }
  }

  lemma DisplacementsAgree(x: int, d: int)
    ensures S32(x - d) == S32(x + d) <==> S32(2 * d) == 0
  {
    hide S32;
    SameLong(x + d, x - d);
    SameLong(2 * d, 0);
    Unwrapped(0);
  }

  /** Two numbers wrap to the same long exactly if they differ by a multiple of 2^32. */
  lemma SameLong(a: int, b: int)
    ensures S32(a) == S32(b) <==> (a - b) % 0x1_0000_0000 == 0
  {
    var m := 0x1_0000_0000;
    var p, q := (a + 0x8000_0000) / m, (b + 0x8000_0000) / m;
    assert S32(a) == a - p * m && S32(b) == b - q * m;
  }

  /** BK_PARAM goes back exactly if twice both displacements wrap to 0, or PARAM has no opposite. */
  lemma BackParamIff(s: Surroundings, t: Turtle, k: nat, camera: bool, param: int)
    requires IsWord(param)
    ensures var dx, dy := 4 * (s.cosine(Bearing(t.angle)) * param), 4 * (s.sine(Bearing(t.angle)) * param);
      Move(s, t, k, Actual(BK_PARAM, camera, param)) == Move(s, t, k, Documented(BK_PARAM, camera, param)) <==>
      (param == -0x8000 || (S32(2 * dx) == 0 && S32(2 * dy) == 0))
  {
    hide S32, Bearing;
    if param != -0x8000 {
      MulMinus(s.cosine(Bearing(t.angle)), param);
      MulMinus(s.sine(Bearing(t.angle)), param);
      DisplacementsAgree(t.x, 4 * (s.cosine(Bearing(t.angle)) * param));
      DisplacementsAgree(t.y, 4 * (s.sine(Bearing(t.angle)) * param));
    }
  }

  /** The desired speed in tenths of metres per second, never negative, after a speed command. */
  function Speed(v: int, e: Effect): int {
    var now := if (e.cmd, e.subcmd) == (11, 0) then S16(v + 10 * e.arg) else if (e.cmd, e.subcmd) == (11, 1) then S16(10 * e.arg) else v;
    if now < 0 then 0 else now
  }

  /** Ten times a word and its opposite, added to a word, wrap to the same exactly if twenty times it wraps to 0. */
  lemma TenTimes(v: int, p: int)
    ensures S16(v + 10 * S16(-p)) == S16(v - 10 * p)
    ensures S16(v + 10 * p) == S16(v - 10 * p) <==> S16(20 * p) == 0
  {
    hide S16;
    OppositeWord(p);
    var d := (S16(-p) + p) / 0x1_0000;
    assert v + 10 * S16(-p) - (v - 10 * p) == 0x1_0000 * (10 * d);
    SameWord(v + 10 * S16(-p), v - 10 * p);
    Multiple(10 * d);
    SameWord(v + 10 * p, v - 10 * p);
    SameWord(20 * p, 0);
    assert S16(0) == 0 by { ZeroWord(); }
  }

  lemma ZeroWord()
    ensures S16(0) == 0
  {
  }

  lemma Multiple(k: int)
    ensures (0x1_0000 * k) % 0x1_0000 == 0
  {
  }

  lemma OppositeWord(p: int)
    ensures S16(-p) + p == 0x1_0000 * ((S16(-p) + p) / 0x1_0000)
  {
    var a := (-p + 0x8000) / 0x1_0000;
    assert S16(-p) == -p - a * 0x1_0000;
  }

  /** Two numbers wrap to the same word exactly if they differ by a multiple of 2^16. */
  lemma SameWord(a: int, b: int)
    ensures S16(a) == S16(b) <==> (a - b) % 0x1_0000 == 0
  {
    var m := 0x1_0000;
    var p, q := (a + 0x8000) / m, (b + 0x8000) / m;
    assert S16(a) == a - p * m && S16(b) == b - q * m;
  }

  /**
   SPEED_DECREASE_PARAM slows down by PARAM exactly if twenty times PARAM wraps to 0 or both sums wrap to
   nothing above 0, where the speed is cut off; short of overflow that is PARAM 0, and by a positive one it speeds up.
   */
  lemma SlowerParamIff(v: int, camera: bool, param: int)
    requires 0 <= v && IsWord(v) && IsWord(param)
    ensures Speed(v, Actual(SPEED_DECREASE_PARAM, camera, param)) == Speed(v, Documented(SPEED_DECREASE_PARAM, camera, param)) <==>
      (S16(20 * param) == 0 || (S16(v + 10 * param) <= 0 && S16(v - 10 * param) <= 0))
    ensures IsWord(v + 10 * param) && IsWord(v - 10 * param) ==>
      (Speed(v, Actual(SPEED_DECREASE_PARAM, camera, param)) == Speed(v, Documented(SPEED_DECREASE_PARAM, camera, param)) <==> param == 0)
    ensures IsWord(v + 10 * param) && param > 0 ==> Speed(v, Actual(SPEED_DECREASE_PARAM, camera, param)) > v
  {
    hide S16;
    TenTimes(v, param);
    if IsWord(v + 10 * param) { UnwrappedWord(v + 10 * param); }
    if IsWord(v - 10 * param) { UnwrappedWord(v - 10 * param); }
  }

  lemma UnwrappedWord(x: int)
    requires IsWord(x)
    ensures S16(x) == x
  {
  }

  /** With PARAM 1, WEST_PARAM moves the turtle one metre to the east. */
  lemma WestGoesEast(code: seq<Instr>, sense: nat -> int, m: Machine, s: Surroundings)
    requires Safe(code, m) && Param(m.frames) == 1 && m.world.log == [] && !m.world.camera
    ensures var home := Turtle(0, 0, 0, 0);
      Replay(s, Turtles(home, home), Execute(code, sense, m, WEST_PARAM).world.log).plane == Turtle(0x1_0000, 0, 0, 0)
  {
    hide Execute;
    ParamIsLogged(code, sense, m, WEST_PARAM);
    var log := Execute(code, sense, m, WEST_PARAM).world.log;
    assert log == [Effect(false, 5, 0, 1)] && log[..0] == [];
  }

  /** Turning leaves a heading between 0 and 359 degrees, congruent to the sum. */
  lemma TurnsNormalise(angle: int, turn: int)
    requires IsWord(angle + turn)
    ensures 0 <= Turned(angle, turn) < 360 && (Turned(angle, turn) - angle - turn) % 360 == 0
  {
  }

  lemma TurnMore(angle: int)
    ensures (angle + 360) % 360 == angle % 360
  {
  }

  lemma WholeTurnsGone(angle: nat)
    ensures TruncMod(angle, 360) == angle % 360
  {
    assert TruncDiv(angle, 360) == angle / 360;
  }

  /** The loop of the rotate command. */
  method Rotate(turtleAngle: int, turn: int) returns (angle: int)
    ensures angle == Turned(turtleAngle, turn) && 0 <= angle < 360
    ensures IsWord(turtleAngle + turn) ==> (angle - turtleAngle - turn) % 360 == 0
  {
    hide S16, TruncMod;
    if IsWord(turtleAngle + turn) { TurnsNormalise(turtleAngle, turn); }
    angle := S16(turtleAngle + turn);
    while angle < 0
      invariant angle % 360 == Turned(turtleAngle, turn)
      decreases -angle
    {
      TurnMore(angle);
      angle := angle + 360;
    }
    WholeTurnsGone(angle);
    angle := TruncMod(angle, 360);
  }

  /** Commands for the camera turtle leave the plane's where it is, and the other way round. */
  lemma {:induction false} TurtlesApart(s: Surroundings, t: Turtles, log: seq<Effect>, camera: bool)
    requires forall e <- log :: e.camera == camera
    ensures if camera then Replay(s, t, log).plane == t.plane else Replay(s, t, log).camera == t.camera
    decreases |log|
  {
    hide Move;
    if log != [] { TurtlesApart(s, t, log[..|log| - 1], camera); }
  }

  // ---------------------------------------------------------------- a square

  /** A sine table with half-wave symmetry. */
  ghost predicate Symmetric(table: Byte -> int) {
    forall b: Byte :: table(U8(b as int + 128)) == -table(b)
  }

  /** The four sides: forward and a quarter turn to the right. */
  function Side(s: Surroundings, t: Turtle, n: int): Turtle {
    Move(s, Move(s, t, 0, Effect(false, 3, 0, n)), 1, Effect(false, 4, 0, 90))
  }

  predicate Cardinal(angle: int) {
    angle == 0 || angle == 90 || angle == 180 || angle == 270
  }

  lemma QuarterTurn(angle: int)
    requires Cardinal(angle)
    ensures Turned(angle, 90) == if angle == 270 then 0 else angle + 90
  {
  }

  lemma Cardinals()
    ensures Bearing(0) == 192 && Bearing(90) == 128 && Bearing(180) == 64 && Bearing(270) == 0
  {
    assert U16(90 * 182 + 128) / 0x100 == 64;
    assert U16(180 * 182 + 128) / 0x100 == 128;
    assert U16(270 * 182 + 128) / 0x100 == 192;
  }

  /** FD(n) RT(90), four times from a cardinal heading, ends exactly where it began. */
  lemma SquareCloses(s: Surroundings, t: Turtle, n: int)
    requires OnMap(t) && Cardinal(t.angle) && Symmetric(s.cosine) && Symmetric(s.sine)
    ensures Side(s, Side(s, Side(s, Side(s, t, n), n), n), n) == t
  {
    hide Bearing, S32, Turned, Symmetric;
    var a := t.angle;
    var b := Turned(a, 90);
    QuarterTurn(a);
    QuarterTurn(b);
    var c := Turned(b, 90);
    QuarterTurn(c);
    var d := Turned(c, 90);
    QuarterTurn(d);
    Opposite(s, a, c);
    Opposite(s, b, d);
    FourSides(t.x, s.cosine(Bearing(a)), s.cosine(Bearing(b)), n);
    FourSides(t.y, s.sine(Bearing(a)), s.sine(Bearing(b)), n);
  }

  lemma Opposite(s: Surroundings, a: int, c: int)
    requires Cardinal(a) && c == (if a < 180 then a + 180 else a - 180)
    requires Symmetric(s.cosine) && Symmetric(s.sine)
    ensures s.cosine(Bearing(c)) == -s.cosine(Bearing(a)) && s.sine(Bearing(c)) == -s.sine(Bearing(a))
  {
    hide Bearing;
    Cardinals();
    var p := Bearing(a);
    assert Bearing(c) == U8(p as int + 128);
  }

  lemma WrapOnce(x: int, d: int)
    ensures S32(S32(x) + d) == S32(x + d)
  {
  }

  lemma FourSides(x: int, c: int, d: int, n: int)
    requires IsLong(x)
    ensures S32(S32(S32(S32(x - 4 * (c * n)) - 4 * (d * n)) - 4 * (-c * n)) - 4 * (-d * n)) == x
  {
    hide S32;
    var (u, v) := (c * n, d * n);
    MinusMul(c, n);
    MinusMul(d, n);
    FourMoves(x, u, v);
  }

  lemma MinusMul(c: int, n: int)
    ensures -c * n == -(c * n)
  {
  }

  lemma FourMoves(x: int, u: int, v: int)
    requires IsLong(x)
    ensures S32(S32(S32(S32(x - 4 * u) - 4 * v) + 4 * u) + 4 * v) == x
  {
    hide S32;
    WrapOnce(x - 4 * u, -4 * v);
    WrapOnce(x - 4 * u - 4 * v, 4 * u);
    WrapOnce(x - 4 * v, 4 * v);
    Unwrapped(x);
  }

  lemma Unwrapped(x: int)
    requires IsLong(x)
    ensures S32(x) == x
  {
  }
}
