/** What the single commands of UDB Logo do to PARAM, turtles, pen and sensors, in numbers, and where a cycle stops. */
module LogoMeaning {
  import opened FixedWidth
  import opened SineTable
  import opened LogoMachine
  import opened LogoCycle
  import opened LogoCommands

  // ---------------------------------------------------------------- PARAM

  /** The argument an instruction is executed with. */
  function Given(m: Machine, i: Instr): int
    requires IsStack(m.frames)
  {
    if i.useParam then Param(m.frames) else i.arg
  }

  /** The 16-bit value of a computation: the number itself if it fits, and else the word congruent to it. */
  predicate IsWordOf(q: int, x: int) {
    (if IsWord(x) then q == x else IsWord(q)) && (q - x) % 0x1_0000 == 0
  }

  lemma WordOf(x: int)
    ensures IsWordOf(S16(x), x)
  {
    if !IsWord(x) { assert S16(x) - x == -0x1_0000 * ((x + 0x8000) / 0x1_0000); }
  }

  /** PARAM_SET, PARAM_ADD, PARAM_MUL and PARAM_DIV, in numbers. */
  lemma ParamCommands(code: seq<Instr>, sense: nat -> int, m: Machine, i: Instr)
    requires Safe(code, m) && i.cmd == 9
    ensures var (p, x, q) := (Param(m.frames), Given(m, i), Param(Execute(code, sense, m, i).frames));
      && (i.subcmd == 0 ==> q == x)
      && (i.subcmd == 1 ==> IsWordOf(q, p + x))
      && (i.subcmd == 2 ==> IsWordOf(q, p * x))
      && (i.subcmd == 3 && x != 0 ==> IsWordOf(q, TruncDiv(p, x)))
      && (i.subcmd > 3 || (i.subcmd == 3 && x == 0) ==> q == p)
  {
    hide TruncDiv, ActWorld;
    var (p, x) := (Param(m.frames), Given(m, i));
    Stored(m.frames, ActParam(sense, m.world, p, Resolve(m.frames, i)));
    WordOf(p + x);
    WordOf(p * x);
    if x != 0 { WordOf(TruncDiv(p, x)); }
  }

  lemma Stored(frames: seq<Frame>, v: int)
    requires IsStack(frames)
    ensures Param(SetParam(frames, v)) == v
  {
    var k, g := ParamFrame(frames), SetParam(frames, v);
    assert g[k].SubFrame? && frames[ParamFrame(g)].SubFrame?;
  }

  /** An action changes no frame but the argument of the topmost SUBROUTINE frame, and nothing of index and base. */
  lemma OnlyParamMoves(code: seq<Instr>, sense: nat -> int, m: Machine, i: Instr)
    requires Safe(code, m) && i.cmd !in {1, 2, 10} && !(14 <= i.cmd <= 19)
    ensures var (x, k) := (Execute(code, sense, m, i), ParamFrame(m.frames));
      && x.index == m.index && x.base == m.base && |x.frames| == |m.frames|
      && (forall j :: 0 <= j < |m.frames| && j != k ==> x.frames[j] == m.frames[j])
      && x.frames[k] == SubFrame(m.frames[k].ret, x.frames[k].arg)
      && (i.cmd != 9 && i.cmd != 13 ==> x.frames == m.frames)
  {
    hide ActWorld, TruncDiv, Value;
  }

  // ---------------------------------------------------------------- sensors

  /** The eight inputs, the values from DIST_TO_HOME (16) to WIND_FROM_ANGLE (31), and PARAM (32). */
  lemma SensorLoads(code: seq<Instr>, sense: nat -> int, m: Machine, ident: nat)
    requires Safe(code, m)
    ensures var (p, x) := (Param(m.frames), Execute(code, sense, m, Instr(13, false, false, ident, 0)));
      var sensor := 1 <= ident <= 8 || 16 <= ident <= 31;
      && (sensor ==> Param(x.frames) == S16(sense(m.world.readings)))
      && (ident == 32 ==> Param(x.frames) == p)
      && (!sensor && ident != 32 ==> Param(x.frames) == 0)
      && x.world == m.world.(readings := m.world.readings + if sensor then 1 else 0)
  {
    hide S16;
    Stored(m.frames, ActParam(sense, m.world, Param(m.frames), Instr(13, false, false, ident, 0)));
  }

  /** Each IF compares the value LOAD_TO_PARAM would load, reading it once, and enters its block exactly if it compares. */
  lemma TestsCompare(code: seq<Instr>, sense: nat -> int, m: Machine, i: Instr)
    requires Safe(code, m) && 14 <= i.cmd <= 19
    ensures var load := Execute(code, sense, m, Instr(13, false, false, i.subcmd, 0));
      var (x, v, a) := (Execute(code, sense, m, i), Param(load.frames), Given(m, i));
      var holds := match i.cmd
        case 14 => v == a
        case 15 => v != a
        case 16 => v > a
        case 17 => v < a
        case 18 => v >= a
        case _ => v <= a;
      && x.world == load.world && x.base == m.base
      && (holds ==> x.index == m.index && x.frames == Push(m.frames, IfFrame))
      && (!holds ==> x.index == ScanEnd(code, m.index + 1, 0))
  {
    hide S16, ScanEnd;
    Stored(m.frames, ActParam(sense, m.world, Param(m.frames), Instr(13, false, false, i.subcmd, 0)));
  }

  // ---------------------------------------------------------------- effects, pen, turtle, handler

  /** FD, the rotations, the moves, the flags and the speeds. */
  const EFFECTS: set<(nat, nat)> := {
    (3, 0), (4, 0), (4, 1), (4, 2), (4, 3),
    (5, 0), (5, 1), (5, 2), (5, 3), (5, 4), (5, 5), (5, 6), (5, 7), (5, 8), (5, 9), (5, 10),
    (6, 0), (6, 1), (6, 2), (11, 0), (11, 1)}

  /** These commands, and no other instruction, have an effect outside the machine; it is that of their argument. */
  lemma OnlyEffectsLog(code: seq<Instr>, sense: nat -> int, m: Machine, i: Instr)
    requires Safe(code, m)
    ensures Execute(code, sense, m, i).world.log == m.world.log +
      if (i.cmd, i.subcmd) in EFFECTS then [Effect(m.world.camera, i.cmd, i.subcmd, Given(m, i))] else []
  {
    hide ActParam, Cond, ScanEnd, FindStart;
  }

  /** Pen, active turtle and handler change by their own commands only. */
  lemma WorldCommands(code: seq<Instr>, sense: nat -> int, m: Machine, i: Instr)
    requires Safe(code, m)
    ensures var (w, v) := (m.world, Execute(code, sense, m, i).world);
      && (i.cmd == 7 && i.subcmd == 0 ==> IsWordOf(v.pen, w.pen + 1))
      && (i.cmd == 7 && i.subcmd == 1 ==> v.pen == if w.pen > 0 then w.pen - 1 else w.pen)
      && (i.cmd == 7 && i.subcmd == 2 ==> v.pen == if w.pen == 0 then 1 else 0)
      && (i.cmd != 7 || i.subcmd > 2 ==> v.pen == w.pen)
      && (v.camera == if i.cmd == 8 then Given(m, i) == 1 else w.camera)
      && (i.cmd == 12 && i.subcmd == 0 ==> v.interrupt == 0)
      && (i.cmd == 12 && i.subcmd == 1 ==> v.interrupt == FindStart(code, Given(m, i) % 256))
      && (i.cmd != 12 || i.subcmd > 1 ==> v.interrupt == w.interrupt)
      && (i.cmd != 13 && !(14 <= i.cmd <= 19) ==> v.readings == w.readings)
  {
    hide ActParam, Cond, ScanEnd, FindStart, S16;
    WordOf(m.world.pen + 1);
  }

  // ---------------------------------------------------------------- turtles

  function Active(t: Turtles, camera: bool): Turtle {
    if camera then t.camera else t.plane
  }

  /** The tables of the firmware. */
  ghost predicate Real(s: Surroundings) {
    forall b: Byte :: s.cosine(b) == Cosine(b) && s.sine(b) == Sine(b)
  }

  /** The firmware's tables are among those for which squares close. */
  lemma RealIsSymmetric(s: Surroundings)
    requires Real(s)
    ensures Symmetric(s.cosine) && Symmetric(s.sine)
  {
    hide Sine, Cosine, Real;
    forall b: Byte ensures s.cosine(U8(b as int + 128)) == -s.cosine(b) && s.sine(U8(b as int + 128)) == -s.sine(b) {
      RealAt(s, b);
      RealAt(s, On(b, 128));
      HalfCircle(b);
    }
  }

  lemma RealAt(s: Surroundings, b: Byte)
    requires Real(s)
    ensures s.cosine(b) == Cosine(b) && s.sine(b) == Sine(b)
  {
    hide Sine, Cosine;
  }

  /** The turtles before and after an instruction. */
  predicate Moves(code: seq<Instr>, sense: nat -> int, s: Surroundings, home: Turtles, m: Machine, i: Instr, t: Turtle, u: Turtle)
    requires Safe(code, m)
  {
    var (before, after) := (Replay(s, home, m.world.log), Replay(s, home, Execute(code, sense, m, i).world.log));
    && t == Active(before, m.world.camera) && u == Active(after, m.world.camera)
    && Active(after, !m.world.camera) == Active(before, !m.world.camera)
  }

  lemma ActiveMoves(code: seq<Instr>, sense: nat -> int, s: Surroundings, home: Turtles, m: Machine, i: Instr, t: Turtle)
    requires Safe(code, m) && HasEffect(i) && t == Active(Replay(s, home, m.world.log), m.world.camera)
    ensures Moves(code, sense, s, home, m, i, t,
      Move(s, t, |m.world.log|, Effect(m.world.camera, i.cmd, i.subcmd, Given(m, i))))
  {
    hide Execute, Move;
    CommandLogs(code, sense, m, i);
    var log := Execute(code, sense, m, i).world.log;
    assert log[..|log| - 1] == m.world.log;
  }

  /** `n` metres in the 16.16 fixed point of positions. */
  function Metres(n: int): int {
    n * 0x1_0000
  }

  /** FD moves the active turtle its argument in metres to the north, east, south and west at the headings 0, 90, 180, 270. */
  lemma ForwardGoes(code: seq<Instr>, sense: nat -> int, s: Surroundings, home: Turtles, m: Machine, i: Instr, t: Turtle)
    requires Safe(code, m) && Real(s) && t == Active(Replay(s, home, m.world.log), m.world.camera)
    requires i.cmd == 3 && i.subcmd == 0 && Cardinal(t.angle) && IsLong(t.x) && IsLong(t.y)
    requires var n := Given(m, i); IsLong(t.x + Metres(n)) && IsLong(t.x - Metres(n)) && IsLong(t.y + Metres(n)) && IsLong(t.y - Metres(n))
    ensures var n := Given(m, i);
      Moves(code, sense, s, home, m, i, t, match t.angle
        case 0 => t.(y := t.y + Metres(n))
        case 90 => t.(x := t.x + Metres(n))
        case 180 => t.(y := t.y - Metres(n))
        case _ => t.(x := t.x - Metres(n)))
  {
    hide Moves, Bearing, Sine, Cosine, S32, Real;
    ActiveMoves(code, sense, s, home, m, i, t);
    Cardinals();
    Quarters();
    RealAt(s, Bearing(t.angle));
    var n := Given(m, i);
    QuarterWave(n);
    Unwrapped(t.x);
    Unwrapped(t.y);
    Unwrapped(t.x + Metres(n));
    Unwrapped(t.x - Metres(n));
    Unwrapped(t.y + Metres(n));
    Unwrapped(t.y - Metres(n));
  }

  lemma QuarterWave(n: int)
    ensures 4 * (0x4000 * n) == Metres(n) && 4 * (-0x4000 * n) == -Metres(n) && 4 * (0 * n) == 0
  {
  }

  lemma ByteBack(c: Byte)
    ensures U8(192 - U8(-(c as int) - 64) as int) == c
  {
  }

  lemma NotWrapped(x: nat)
    requires x < 0x1_0000
    ensures U16(x) == x && 0 <= x / 0x100 < 0x100 && 0x100 * (x / 0x100) <= x < 0x100 * (x / 0x100) + 0x100
  {
  }

  /** At the other headings it goes along the nearest, or all but nearest, of 256 directions. */
  lemma BearingRounds(angle: int)
    requires 0 <= angle < 360
    ensures var b := U8(192 - Bearing(angle) as int); -204 < 360 * b - 256 * angle <= 180
  {
    hide U8, U16;
    NotWrapped(angle * 182 + 128);
    ByteBack((angle * 182 + 128) / 0x100);
  }

  /** EAST, NORTH and ALT_UP move that far, the SET commands set the place, HOME goes back over the origin at the same height. */
  lemma MovesGo(code: seq<Instr>, sense: nat -> int, s: Surroundings, home: Turtles, m: Machine, i: Instr, t: Turtle)
    requires Safe(code, m) && i.cmd == 5 && i.subcmd <= 7
    requires t == Active(Replay(s, home, m.world.log), m.world.camera) && IsLong(t.x) && IsLong(t.y)
    requires var n := Given(m, i); IsLong(t.x + Metres(n)) && IsLong(t.y + Metres(n)) && IsWord(t.z + n)
    ensures var (n, k) := (Given(m, i), |m.world.log|);
      Moves(code, sense, s, home, m, i, t, match i.subcmd
        case 0 => t.(x := t.x + Metres(n))
        case 1 => t.(x := Metres(n))
        case 2 => t.(y := t.y + Metres(n))
        case 3 => t.(y := Metres(n))
        case 4 => t.(z := t.z + n)
        case 5 => t.(z := n)
        case 6 => t.(x := Metres(s.x(k)), y := Metres(s.y(k)))
        case _ => Turtle(0, 0, t.z, 0))
  {
    hide Moves, S16, Moved;
    ActiveMoves(code, sense, s, home, m, i, t);
    var n := Given(m, i);
    MovedIs(t.x, n);
    MovedIs(t.y, n);
    UnwrappedWord(t.z + n);
  }

  lemma MovedIs(v: int, n: int)
    requires IsLong(v + Metres(n))
    ensures Moved(v, n) == v + Metres(n)
  {
    var (hi, lo) := (v / 0x1_0000, v % 0x1_0000);
    assert v + Metres(n) == 0x1_0000 * (hi + n) + lo;
    assert IsWord(hi + n);
  }

  /** RT turns clockwise by its degrees, SET_ANGLE and the USE commands give the heading; nothing else of the turtle changes. */
  lemma TurnsGo(code: seq<Instr>, sense: nat -> int, s: Surroundings, home: Turtles, m: Machine, i: Instr, t: Turtle)
    requires Safe(code, m) && i.cmd == 4 && i.subcmd <= 3
    requires t == Active(Replay(s, home, m.world.log), m.world.camera) && IsWord(t.angle + Given(m, i))
    ensures var (n, k) := (Given(m, i), |m.world.log|);
      Moves(code, sense, s, home, m, i, t, t.(angle := match i.subcmd
        case 0 => (t.angle + n) % 360
        case 1 => n
        case 2 => s.heading(k)
        case _ => s.goal(k)))
  {
    hide Moves, S16;
    ActiveMoves(code, sense, s, home, m, i, t);
    UnwrappedWord(t.angle + Given(m, i));
  }

  /** Flags and speeds move no turtle. */
  lemma OthersStay(code: seq<Instr>, sense: nat -> int, s: Surroundings, home: Turtles, m: Machine, i: Instr)
    requires Safe(code, m) && (i.cmd, i.subcmd) in EFFECTS && i.cmd !in {3, 4, 5}
    ensures Replay(s, home, Execute(code, sense, m, i).world.log) == Replay(s, home, m.world.log)
  {
    hide Moves, Execute;
    var t := Active(Replay(s, home, m.world.log), m.world.camera);
    ActiveMoves(code, sense, s, home, m, i, t);
    MovedNone(code, sense, s, home, m, i, t);
  }

  lemma MovedNone(code: seq<Instr>, sense: nat -> int, s: Surroundings, home: Turtles, m: Machine, i: Instr, t: Turtle)
    requires Safe(code, m) && Moves(code, sense, s, home, m, i, t, t)
    ensures Replay(s, home, Execute(code, sense, m, i).world.log) == Replay(s, home, m.world.log)
  {
    hide Execute, Replay;
  }

  /** SPEED_INCREASE adds and SET_SPEED sets tenths of metres per second, not below 0; other effects leave the speed. */
  lemma SpeedsGo(v: int, e: Effect)
    requires 0 <= v && IsWord(v + 10 * e.arg) && IsWord(10 * e.arg)
    ensures e.cmd == 11 && e.subcmd == 0 ==> Speed(v, e) == if v + 10 * e.arg > 0 then v + 10 * e.arg else 0
    ensures e.cmd == 11 && e.subcmd == 1 ==> Speed(v, e) == if e.arg > 0 then 10 * e.arg else 0
    ensures e.cmd != 11 ==> Speed(v, e) == v
  {
  }

  // ---------------------------------------------------------------- cycles

  /** The instruction `m` stands at asks to fly, and leaves the pen down and the plane's turtle active. */
  predicate FliesHere(code: seq<Instr>, sense: nat -> int, m: Machine)
    requires Safe(code, m)
  {
    var (i, w) := (code[m.index], Step(code, sense, m).world);
    (i.doFly || (i.cmd == 7 && i.subcmd == 2 && m.world.pen != 0)) && w.pen == 0 && !w.camera
  }

  /** It is the END of the running interrupt handler. */
  predicate HandlerEndsHere(code: seq<Instr>, m: Machine)
    requires Safe(code, m)
  {
    IsEnd(code[m.index]) && m.base > 0 && |m.frames| == m.base + 1
  }

  lemma StopsHere(code: seq<Instr>, sense: nat -> int, m: Machine)
    requires Safe(code, m)
    ensures HandlerEndsHere(code, m) <==> EndsInterrupt(m, code[m.index])
    ensures var w := Step(code, sense, m).world;
      FliesHere(code, sense, m) <==> StepFlies(m, code[m.index]) && w.pen == 0 && !w.camera
  {
    hide Step;
  }

  /** A cycle stops behind the first instruction that flies or ends the handler, or behind the 32nd; it tells if it flies. */
  lemma {:induction false} CycleStops(code: seq<Instr>, sense: nat -> int, m: Machine, count: nat) returns (k: nat)
    requires Safe(code, m) && count < 32
    ensures 1 <= k <= 32 - count
    ensures RunCycle(code, sense, m, count) ==
      (Steps(code, sense, m, k), FliesHere(code, sense, Steps(code, sense, m, k - 1)))
    ensures forall j: nat :: j < k - 1 ==>
      var x := Steps(code, sense, m, j); !FliesHere(code, sense, x) && !HandlerEndsHere(code, x)
    ensures k == 32 - count || FliesHere(code, sense, Steps(code, sense, m, k - 1))
         || HandlerEndsHere(code, Steps(code, sense, m, k - 1))
    decreases 32 - count
  {
    hide Step, StepFlies, EndsInterrupt, FliesHere, HandlerEndsHere;
    StopsHere(code, sense, m);
    var x := Step(code, sense, m);
    assert Steps(code, sense, m, 1) == Steps(code, sense, x, 0);
    if FliesHere(code, sense, m) || HandlerEndsHere(code, m) || count + 1 == 32 {
      k := 1;
    } else {
      var k1 := CycleStops(code, sense, x, count + 1);
      k := k1 + 1;
      forall j: nat | j < k - 1 ensures var y := Steps(code, sense, m, j); !FliesHere(code, sense, y) && !HandlerEndsHere(code, y) {
        if j > 0 { assert Steps(code, sense, m, j) == Steps(code, sense, x, j - 1); }
      }
    }
  }
}
