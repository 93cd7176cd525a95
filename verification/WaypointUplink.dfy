/** Waypoints sent up as hex digits: the receive automaton and what it makes of any stream of bytes. */
module WaypointUplink {
  import opened FixedWidth

  const READY := 255
  const BYTE_ORDER: seq<nat> := [3, 2, 1, 0, 7, 6, 5, 4, 9, 8, 11, 10, 15, 14, 13, 12, 19, 18, 17, 16, 21, 20]
  const SIZE := 22

  const FRAME: Byte := 'W' as int
  const VOLTAGE: Byte := 'V' as int
  const STAR: Byte := '*' as int

  datatype Parse = NewMsg | VoltageHigh | VoltageLow | FpData | FpChecksum

  /** `high` is a signed char: -1, or sixteen times a digit, wrapped. */
  datatype Receiver = Receiver(parse: Parse, high: int, checksum: Byte, pos: Byte, inject: seq<Byte>, temp: Byte, voltage: nat)

  predicate Valid(r: Receiver) {
    |r.inject| == SIZE
  }

  /** `hex_char_val`: lower-case digits are not hex digits here. */
  function HexVal(c: Byte): int {
    if '0' as int <= c <= '9' as int then c - '0' as int
    else if 'A' as int <= c <= 'F' as int then c - 'A' as int + 10
    else -1
  }

  predicate IsHex(c: Byte) {
    HexVal(c) != -1
  }

  function SignedChar(x: int): int {
    if x < 128 then x else x - 256
  }

  /** `flightplan_waypoints_live_received_byte`. */
  function LiveByte(r: Receiver, b: Byte): Receiver
    requires Valid(r)
  {
    if r.pos < SIZE then r.(inject := r.inject[BYTE_ORDER[r.pos] := b], pos := r.pos + 1)
    else if r.pos == SIZE then r.(pos := r.pos + 1)
    else r
  }

  /** `flightplan_waypoints_live_commit`. */
  function LiveCommit(r: Receiver): Receiver {
    r.(pos := if r.pos == SIZE then READY else 0)
  }

  function FpByte(r: Receiver, c: Byte): Receiver
    requires Valid(r)
  {
    if c == STAR then r.(high := -1, parse := FpChecksum)
    else if !IsHex(c) then r.(parse := NewMsg)
    else
      var s := if r.high == -1 then r.(high := SignedChar(HexVal(c) * 16))
               else LiveByte(r, U8(r.high + HexVal(c))).(high := -1);
      s.(checksum := U8(r.checksum + c))
  }

  function FpSum(r: Receiver, c: Byte): Receiver {
    if !IsHex(c) then r.(parse := NewMsg)
    else if r.high == -1 then r.(high := SignedChar(HexVal(c) * 16))
    else (if U8(r.high + HexVal(c)) == r.checksum then LiveCommit(r) else r).(parse := NewMsg)
  }

  /** `udb_serial_callback_received_byte`. */
  function Receive(r: Receiver, c: Byte): Receiver
    requires Valid(r)
  {
    match r.parse
    case NewMsg =>
      if c == VOLTAGE then r.(parse := VoltageHigh)
      else if c == FRAME then r.(high := -1, checksum := 0, parse := FpData, pos := 0)
      else r
    case VoltageHigh => r.(temp := c, parse := VoltageLow)
    case VoltageLow => r.(voltage := U16(2 * (256 * r.temp + c)), parse := NewMsg)
    case FpData => FpByte(r, c)
    case FpChecksum => FpSum(r, c)
  }

  lemma ReceiveValid(r: Receiver, c: Byte)
    requires Valid(r)
    ensures Valid(Receive(r, c))
  {
  }

  /** The signed char with the bits of a byte. */
  lemma SignedCharIs(x: Byte)
    ensures -128 <= SignedChar(x) < 128 && U8(SignedChar(x)) == x
  {
  }

  /** Outside a frame, V and two bytes set the voltage to twice their word, high byte first; the waypoint is not touched. */
  lemma VoltageReads(r: Receiver, hi: Byte, lo: Byte)
    requires Valid(r) && r.parse == NewMsg
    ensures var s := Receive(Receive(Receive(r, VOLTAGE), hi), lo);
      s == r.(voltage := (512 * hi + 2 * lo) % 0x1_0000, temp := s.temp)
  {
  }

  /** The waypoint part of `flightplan_waypoints_update`: a ready waypoint is taken. */
  function Update(r: Receiver): Receiver {
    if r.pos == READY then r.(pos := 0) else r
  }

  /** A ready waypoint is taken once, as it is, and room is made for the next. */
  lemma TakenOnce(r: Receiver)
    ensures Update(r) == if r.pos == READY then r.(pos := 0) else r
    ensures Update(r).pos != READY && Update(Update(r)) == Update(r)
  {
  }

  datatype Event = Arrives(c: Byte) | Updates

  function Step(r: Receiver, e: Event): Receiver
    requires Valid(r)
    ensures Valid(Step(r, e))
  {
    match e
    case Arrives(c) => ReceiveValid(r, c); Receive(r, c)
    case Updates => Update(r)
  }

  function Run(r: Receiver, events: seq<Event>): (s: Receiver)
    requires Valid(r)
    ensures Valid(s)
    decreases |events|
  {
    if events == [] then r else Step(Run(r, events[..|events| - 1]), events[|events| - 1])
  }

  // ---------------------------------------------------------------- inside a frame

  /** The sum of the characters of a frame, modulo 256. */
  function Sum(digits: seq<Byte>): Byte {
    if digits == [] then 0 else U8(Sum(digits[..|digits| - 1]) + digits[|digits| - 1])
  }

  predicate AllHex(digits: seq<Byte>) {
    forall k :: 0 <= k < |digits| ==> IsHex(digits[k])
  }

  /** The byte two digits make. */
  function Pair(digits: seq<Byte>, k: nat): Byte
    requires AllHex(digits) && 2 * k + 1 < |digits|
  {
    assert IsHex(digits[2 * k]) && IsHex(digits[2 * k + 1]);
    16 * HexVal(digits[2 * k]) + HexVal(digits[2 * k + 1])
  }

  /** The first bytes of the digits are in their places in the waypoint. */
  predicate Placed(inject: seq<Byte>, digits: seq<Byte>, n: nat)
    requires |inject| == SIZE && AllHex(digits) && 2 * n <= |digits| && n <= SIZE
  {
    forall k: nat :: k < n ==> inject[BYTE_ORDER[k]] == Pair(digits, k)
  }

  function Taken(digits: seq<Byte>): nat {
    if |digits| / 2 < SIZE then |digits| / 2 else SIZE
  }

  /** The receiver is inside a frame and has seen these digits of it. */
  predicate InFrame(r: Receiver, digits: seq<Byte>) {
    Valid(r) && AllHex(digits) && r.parse == FpData && r.checksum == Sum(digits) &&
    r.pos == (if |digits| / 2 <= SIZE then |digits| / 2 else SIZE + 1) &&
    r.high == (if |digits| % 2 == 0 then -1 else SignedChar(16 * HexVal(digits[|digits| - 1]))) &&
    Placed(r.inject, digits, Taken(digits))
  }

  lemma OrderDistinct(a: nat, b: nat)
    requires a < b < SIZE
    ensures BYTE_ORDER[a] != BYTE_ORDER[b] && BYTE_ORDER[a] < SIZE && BYTE_ORDER[b] < SIZE
  {
  }

  /** One more byte lands in its own place. */
  lemma PlacedMore(inject: seq<Byte>, digits: seq<Byte>, c: Byte, b: Byte)
    requires |inject| == SIZE && AllHex(digits) && IsHex(c) && |digits| % 2 == 1 && |digits| / 2 < SIZE
    requires Placed(inject, digits, |digits| / 2) && b == 16 * HexVal(digits[|digits| - 1]) + HexVal(c)
    ensures BYTE_ORDER[|digits| / 2] < SIZE
    ensures Placed(inject[BYTE_ORDER[|digits| / 2] := b], digits + [c], |digits| / 2 + 1)
  {
    var n := |digits| / 2;
    var now := inject[BYTE_ORDER[n] := b];
    forall k: nat | k < n + 1 ensures now[BYTE_ORDER[k]] == Pair(digits + [c], k) {
      if k < n {
        OrderDistinct(k, n);
        assert inject[BYTE_ORDER[k]] == Pair(digits, k);
      }
    }
  }

  lemma PlacedStill(inject: seq<Byte>, digits: seq<Byte>, c: Byte, n: nat)
    requires |inject| == SIZE && AllHex(digits) && IsHex(c) && 2 * n <= |digits| && n <= SIZE
    requires Placed(inject, digits, n)
    ensures Placed(inject, digits + [c], n)
  {
    forall k: nat | k < n ensures inject[BYTE_ORDER[k]] == Pair(digits + [c], k) {
      assert inject[BYTE_ORDER[k]] == Pair(digits, k);
    }
  }

  /** The two halves of a byte through a signed char. */
  lemma HalvesMeet(h: int, l: int)
    requires 0 <= h < 16 && 0 <= l < 16
    ensures U8(SignedChar(16 * h) + l) == 16 * h + l && SignedChar(16 * h) != -1
  {
  }

  lemma EvenDigit(r: Receiver, digits: seq<Byte>, c: Byte)
    requires InFrame(r, digits) && IsHex(c) && |digits| % 2 == 0
    ensures InFrame(Receive(r, c), digits + [c])
  {
    hide Placed, HexVal;
    var more := digits + [c];
    assert more[..|more| - 1] == digits;
    HexRange(c);
    PlacedStill(r.inject, digits, c, Taken(digits));
  }

  /** The second digit of a byte completes it: it is the byte of the pair. */
  lemma OddByte(r: Receiver, digits: seq<Byte>, c: Byte)
    requires InFrame(r, digits) && IsHex(c) && |digits| % 2 == 1
    ensures var d := digits[|digits| - 1];
      && r.high != -1 && 0 <= HexVal(d) < 16 && 0 <= HexVal(c) < 16
      && Receive(r, c) == LiveByte(r, 16 * HexVal(d) + HexVal(c)).(high := -1, checksum := U8(r.checksum + c))
  {
    hide Placed, HexVal, LiveByte, SignedChar;
    var d := digits[|digits| - 1];
    HexRange(d);
    HexRange(c);
    HalvesMeet(HexVal(d), HexVal(c));
  }

  lemma OddDigit(r: Receiver, digits: seq<Byte>, c: Byte)
    requires InFrame(r, digits) && IsHex(c) && |digits| % 2 == 1
    ensures InFrame(Receive(r, c), digits + [c])
  {
    hide Placed, HexVal, Receive, SignedChar;
    var (more, d) := (digits + [c], digits[|digits| - 1]);
    assert more[..|more| - 1] == digits;
    OddByte(r, digits, c);
    if |digits| / 2 < SIZE {
      PlacedMore(r.inject, digits, c, 16 * HexVal(d) + HexVal(c));
    } else {
      PlacedStill(r.inject, digits, c, SIZE);
    }
  }

  /** Inside a frame each digit completes its byte in its place. */
  lemma FrameGoesOn(r: Receiver, digits: seq<Byte>, c: Byte)
    requires InFrame(r, digits) && IsHex(c)
    ensures InFrame(Receive(r, c), digits + [c])
  {
    hide InFrame, Receive, IsHex;
    if |digits| % 2 == 0 { EvenDigit(r, digits, c); } else { OddDigit(r, digits, c); }
  }

  lemma HexRange(c: Byte)
    ensures IsHex(c) ==> 0 <= HexVal(c) < 16 && c != STAR
  {
  }

  // ---------------------------------------------------------------- the checksum

  /** The receiver has seen the star and these characters behind it. */
  predicate InSum(r: Receiver, digits: seq<Byte>, sums: seq<Byte>) {
    Valid(r) && AllHex(digits) && AllHex(sums) && |sums| <= 1 && r.parse == FpChecksum && r.checksum == Sum(digits) &&
    r.pos == (if |digits| / 2 <= SIZE then |digits| / 2 else SIZE + 1) &&
    r.high == (if sums == [] then -1 else SignedChar(16 * HexVal(sums[0]))) &&
    Placed(r.inject, digits, Taken(digits))
  }

  /** The two characters behind the star spell the sum. */
  predicate SumMatches(digits: seq<Byte>, c1: Byte, c2: Byte) {
    16 * HexVal(c1) + HexVal(c2) == Sum(digits)
  }

  /** A frame that is accepted: 22 whole bytes, possibly half a one more, and their sum. */
  predicate Good(digits: seq<Byte>, c1: Byte, c2: Byte) {
    AllHex(digits) && IsHex(c1) && IsHex(c2) && |digits| / 2 == SIZE && SumMatches(digits, c1, c2)
  }

  lemma StarEnds(r: Receiver, digits: seq<Byte>)
    requires InFrame(r, digits)
    ensures InSum(Receive(r, STAR), digits, [])
  {
    hide Placed, HexVal;
  }

  lemma SumBegins(r: Receiver, digits: seq<Byte>, c: Byte)
    requires InSum(r, digits, []) && IsHex(c)
    ensures InSum(Receive(r, c), digits, [c])
  {
    hide Placed, HexVal;
    HexRange(c);
  }

  lemma SumEnds(r: Receiver, digits: seq<Byte>, c1: Byte, c2: Byte)
    requires InSum(r, digits, [c1]) && IsHex(c2)
    ensures var s := Receive(r, c2);
      s.parse == NewMsg && s.inject == r.inject && (s.pos == READY <==> Good(digits, c1, c2)) &&
      (SumMatches(digits, c1, c2) && |digits| / 2 != SIZE ==> s.pos == 0)
  {
    hide Placed, HexVal;
    assert IsHex([c1][0]);
    HexRange(c1);
    HexRange(c2);
    HalvesMeet(HexVal(c1), HexVal(c2));
  }

  // ---------------------------------------------------------------- streams

  function Bytes(events: seq<Event>): seq<Byte> {
    if events == [] then []
    else Bytes(events[..|events| - 1]) + if events[|events| - 1].Arrives? then [events[|events| - 1].c] else []
  }

  lemma LastByte(events: seq<Event>, front: seq<Byte>, d: Byte)
    requires events != [] && events[|events| - 1].Arrives? && Bytes(events) == front + [d]
    ensures Bytes(events[..|events| - 1]) == front && events[|events| - 1].c == d
  {
    var all := Bytes(events);
    assert all[..|all| - 1] == front && all[|all| - 1] == d;
    assert all[..|all| - 1] == Bytes(events[..|events| - 1]);
  }

  /** A frame's digits, from a receiver between messages, with updates anywhere in between. */
  lemma {:induction false} InFrameAfter(r: Receiver, events: seq<Event>, digits: seq<Byte>)
    requires Valid(r) && r.parse == NewMsg && events != [] && events[0] == Arrives(FRAME)
    requires Bytes(events) == [FRAME] + digits && AllHex(digits)
    ensures InFrame(Run(r, events), digits)
    decreases |events|
  {
    hide Receive, InFrame, Sum;
    var front, e := events[..|events| - 1], events[|events| - 1];
    if front == [] {
      assert Bytes(events) == [FRAME];
      assert digits == [];
      FrameOpens(r);
    } else if e == Updates {
      InFrameAfter(r, front, digits);
      UpdateInFrame(Run(r, front), digits, []);
    } else {
      FirstByte(front);
      FrontIsByte(events, digits);
      var less, d := digits[..|digits| - 1], digits[|digits| - 1];
      assert [FRAME] + digits == ([FRAME] + less) + [d];
      LastByte(events, [FRAME] + less, d);
      assert IsHex(digits[|digits| - 1]);
      assert digits == less + [d];
      InFrameAfter(r, front, less);
      FrameGoesOn(Run(r, front), less, e.c);
    }
  }

  lemma FrontIsByte(events: seq<Event>, digits: seq<Byte>)
    requires |events| > 1 && events[0] == Arrives(FRAME) && events[|events| - 1].Arrives? && Bytes(events) == [FRAME] + digits
    ensures digits != []
  {
    FirstByte(events[..|events| - 1]);
  }

  lemma FrameOpens(r: Receiver)
    requires Valid(r) && r.parse == NewMsg
    ensures InFrame(Receive(r, FRAME), [])
  {
  }

  lemma {:induction false} FirstByte(events: seq<Event>)
    requires events != [] && events[0] == Arrives(FRAME)
    ensures Bytes(events) != [] && Bytes(events)[0] == FRAME
    decreases |events|
  {
    if |events| > 1 { FirstByte(events[..|events| - 1]); }
  }

  lemma UpdateInFrame(r: Receiver, digits: seq<Byte>, sums: seq<Byte>)
    requires InFrame(r, digits) || InSum(r, digits, sums)
    ensures Update(r) == r && r.pos != READY
  {
  }

  lemma {:induction false} InSumAfter(r: Receiver, events: seq<Event>, digits: seq<Byte>, sums: seq<Byte>)
    requires Valid(r) && r.parse == NewMsg && events != [] && events[0] == Arrives(FRAME)
    requires Bytes(events) == [FRAME] + digits + [STAR] + sums && AllHex(digits) && AllHex(sums) && |sums| <= 1
    ensures InSum(Run(r, events), digits, sums)
    decreases |events|
  {
    hide Receive, InSum, InFrame, Sum;
    var front, e := events[..|events| - 1], events[|events| - 1];
    assert front != [];
    if e == Updates {
      InSumAfter(r, front, digits, sums);
      UpdateInFrame(Run(r, front), digits, sums);
    } else if sums == [] {
      assert [FRAME] + digits + [STAR] + sums == ([FRAME] + digits) + [STAR];
      LastByte(events, [FRAME] + digits, STAR);
      InFrameAfter(r, front, digits);
      StarEnds(Run(r, front), digits);
    } else {
      var d := sums[0];
      assert sums == [d] && IsHex(d);
      LastByte(events, [FRAME] + digits + [STAR], d);
      assert [FRAME] + digits + [STAR] + [] == [FRAME] + digits + [STAR];
      InSumAfter(r, front, digits, []);
      SumBegins(Run(r, front), digits, e.c);
    }
  }

  function FrameBytes(digits: seq<Byte>, c1: Byte, c2: Byte): seq<Byte> {
    [FRAME] + digits + [STAR] + [c1] + [c2]
  }

  /** A frame, updates in between or not, leaves a ready waypoint exactly when it is good. */
  lemma FrameDecodes(r: Receiver, events: seq<Event>, digits: seq<Byte>, c1: Byte, c2: Byte)
    requires Valid(r) && r.parse == NewMsg && events != [] && events[0] == Arrives(FRAME)
    requires events[|events| - 1].Arrives? && Bytes(events) == FrameBytes(digits, c1, c2)
    requires AllHex(digits) && IsHex(c1) && IsHex(c2)
    ensures var s := Run(r, events);
      s.parse == NewMsg && (s.pos == READY <==> Good(digits, c1, c2)) && Placed(s.inject, digits, Taken(digits)) &&
      (SumMatches(digits, c1, c2) && |digits| / 2 != SIZE ==> s.pos == 0)
  {
    hide Receive, Sum, SumMatches, IsHex;
    var front := events[..|events| - 1];
    LastByte(events, [FRAME] + digits + [STAR] + [c1], c2);
    assert AllHex([c1]);
    InSumAfter(r, front, digits, [c1]);
    SumEnds(Run(r, front), digits, c1, c2);
  }

  // ---------------------------------------------------------------- nothing else makes a waypoint ready

  const START := Receiver(NewMsg, 0, 0, 0, [0, 0, 0, 0, 0, 0, 0, 0, 0, 0, 0, 0, 0, 0, 0, 0, 0, 0, 0, 0, 0, 0], 0, 0)

  /** Event `e` opens a frame. */
  predicate Opens(events: seq<Event>, e: nat) {
    e < |events| && events[e] == Arrives(FRAME) && Run(START, events[..e]).parse == NewMsg
  }

  /** Behind event `e`, which opened a frame, came these characters. */
  predicate Behind(events: seq<Event>, e: nat, bytes: seq<Byte>) {
    Opens(events, e) && Bytes(events[e + 1..]) == bytes
  }

  predicate Story(events: seq<Event>, e: nat, digits: seq<Byte>, sums: seq<Byte>) {
    var r := Run(START, events);
    (r.parse == FpData ==> Behind(events, e, digits) && InFrame(r, digits)) &&
    (r.parse == FpChecksum ==> Behind(events, e, digits + [STAR] + sums) && InSum(r, digits, sums))
  }

  lemma BehindMore(events: seq<Event>, e: nat, bytes: seq<Byte>)
    requires events != [] && Behind(events[..|events| - 1], e, bytes)
    ensures Behind(events, e, bytes + if events[|events| - 1].Arrives? then [events[|events| - 1].c] else [])
  {
    hide Run;
    var front := events[..|events| - 1];
    assert front[..e] == events[..e];
    var tail := events[e + 1..];
    assert tail[..|tail| - 1] == front[e + 1..];
  }

  lemma BehindOpening(events: seq<Event>)
    requires events != [] && events[|events| - 1] == Arrives(FRAME)
    requires Run(START, events[..|events| - 1]).parse == NewMsg
    ensures Behind(events, |events| - 1, [])
  {
    hide Run;
    assert events[|events|..] == [];
  }

  /** How each byte can have led into a frame or on in it. */
  lemma IntoFrame(r: Receiver, c: Byte)
    requires Valid(r)
    ensures Receive(r, c).parse == FpData ==> (r.parse == NewMsg && c == FRAME) || (r.parse == FpData && IsHex(c))
    ensures Receive(r, c).parse == FpChecksum ==>
      (r.parse == FpData && c == STAR) || (r.parse == FpChecksum && IsHex(c) && r.high == -1)
    ensures Receive(r, c).pos == READY && r.pos != READY ==>
      r.parse == FpChecksum && IsHex(c) && r.high != -1 && Receive(r, c).parse == NewMsg
  {
    hide HexVal;
  }

  lemma SumIsOpen(r: Receiver, digits: seq<Byte>, sums: seq<Byte>)
    requires InSum(r, digits, sums)
    ensures (r.high == -1 <==> sums == []) && (sums != [] ==> IsHex(sums[0]) && sums == [sums[0]])
  {
    hide HexVal;
    if sums != [] {
      assert IsHex(sums[0]);
      HexRange(sums[0]);
      HalvesMeet(HexVal(sums[0]), 0);
    }
  }

  lemma {:induction false} StoryOf(events: seq<Event>) returns (e: nat, digits: seq<Byte>, sums: seq<Byte>)
    ensures Story(events, e, digits, sums)
    decreases |events|
  {
    hide Receive, Behind, InSum, InFrame;
    e, digits, sums := 0, [], [];
    if events != [] {
      var front, x := events[..|events| - 1], events[|events| - 1];
      e, digits, sums := StoryOf(front);
      var r := Run(START, front);
      if x == Updates {
        if r.parse == FpData || r.parse == FpChecksum { StoryUpdates(events, e, digits, sums); }
      } else {
        e, digits, sums := StoryArrives(events, e, digits, sums);
      }
    }
  }

  lemma StoryUpdates(events: seq<Event>, e: nat, digits: seq<Byte>, sums: seq<Byte>)
    requires events != [] && events[|events| - 1] == Updates && Story(events[..|events| - 1], e, digits, sums)
    requires var p := Run(START, events[..|events| - 1]).parse; p == FpData || p == FpChecksum
    ensures Story(events, e, digits, sums)
  {
    hide Receive, Behind, InSum, InFrame;
    var front := events[..|events| - 1];
    var r := Run(START, front);
    UpdateInFrame(r, digits, sums);
    if r.parse == FpData {
      BehindMore(events, e, digits);
      assert digits + [] == digits;
    } else {
      BehindMore(events, e, digits + [STAR] + sums);
      assert digits + [STAR] + sums + [] == digits + [STAR] + sums;
    }
  }

  lemma StoryArrives(events: seq<Event>, e: nat, digits: seq<Byte>, sums: seq<Byte>)
    returns (e': nat, digits': seq<Byte>, sums': seq<Byte>)
    requires events != [] && events[|events| - 1].Arrives? && Story(events[..|events| - 1], e, digits, sums)
    ensures Story(events, e', digits', sums')
  {
    hide Receive, Behind, InSum, InFrame;
    var front, c := events[..|events| - 1], events[|events| - 1].c;
    var r, s := Run(START, front), Run(START, events);
    IntoFrame(r, c);
    e', digits', sums' := e, digits, sums;
    if s.parse == FpData {
      if r.parse == NewMsg {
        e', digits' := |front|, [];
        BehindOpening(events);
        FrameOpens(r);
      } else {
        BehindMore(events, e, digits);
        FrameGoesOn(r, digits, c);
        digits' := digits + [c];
      }
    } else if s.parse == FpChecksum {
      if r.parse == FpData {
        BehindMore(events, e, digits);
        StarEnds(r, digits);
        sums' := [];
        assert digits + [STAR] + [] == digits + [STAR];
      } else {
        BehindMore(events, e, digits + [STAR] + sums);
        SumIsOpen(r, digits, sums);
        SumBegins(r, digits, c);
        sums' := [c];
        assert digits + [STAR] + [] + [c] == digits + [STAR] + [c];
      }
    }
  }

  /** In every run, a waypoint becomes ready only with the last byte of a good frame, whose bytes it then is. */
  lemma ReadyOnlyByFrame(events: seq<Event>)
    returns (e: nat, digits: seq<Byte>, c1: Byte, c2: Byte)
    requires events != [] && Run(START, events).pos == READY && Run(START, events[..|events| - 1]).pos != READY
    ensures Opens(events, e) && Bytes(events[e + 1..]) == digits + [STAR, c1, c2]
    ensures Good(digits, c1, c2) && Placed(Run(START, events).inject, digits, SIZE)
  {
    hide Receive, Good, Placed, Run;
    var front, x := events[..|events| - 1], events[|events| - 1];
    var r := Run(START, front);
    assert Run(START, events) == Step(r, x) by { RunLast(events); }
    var sums;
    e, digits, sums := StoryOf(front);
    IntoFrame(r, x.c);
    SumIsOpen(r, digits, sums);
    c1, c2 := sums[0], x.c;
    SumEnds(r, digits, c1, c2);
    BehindMore(events, e, digits + [STAR] + sums);
    assert digits + [STAR] + [c1] + [c2] == digits + [STAR, c1, c2];
    GoodTakesAll(digits, c1, c2);
  }

  lemma RunLast(events: seq<Event>)
    requires events != []
    ensures Run(START, events) == Step(Run(START, events[..|events| - 1]), events[|events| - 1])
  {
  }

  lemma GoodTakesAll(digits: seq<Byte>, c1: Byte, c2: Byte)
    requires Good(digits, c1, c2)
    ensures AllHex(digits) && 2 * SIZE <= |digits| && Taken(digits) == SIZE
  {
  }
}
