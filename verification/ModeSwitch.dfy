/** The two-position mode switch: how toggling a two-way switch selects three flight modes. */
module ModeSwitch {
  const MAX_PAUSE_TOGGLE := 20

  datatype Mode = Manual | Stabilized | Autonomous

  datatype Phase =
    EntManualLong | ManualLong | EntStabilizedLong | StabilizedLong | EntManualT1 | ManualT1
    | EntStabilizedT1 | StabilizedT1 | EntManualT2 | ManualT2 | EntAutonomous | AutonomousOn

  /** The pulse width against the low threshold; on the threshold it is neither up nor down. */
  datatype Level = Down | Between | Up

  datatype Switch = Switch(phase: Phase, request: Mode, count: int)

  const POWER_ON := Switch(ManualLong, Manual, 0)

  /** One poll, as a function of the switch before it. */
  function Poll(s: Switch, x: Level): Switch {
    match s.phase
    case EntManualLong => Switch(ManualLong, Manual, 0)
    case ManualLong => Switch(if x == Up then EntStabilizedLong else ManualLong, s.request, s.count)
    case EntStabilizedLong => Switch(StabilizedLong, Stabilized, 0)
    case StabilizedLong => Switch(if x == Down then EntManualT1 else StabilizedLong, s.request, s.count)
    case EntManualT1 => Switch(ManualT1, Manual, 0)
    case ManualT1 => Switch(Waited(s, x, Up, EntStabilizedT1, EntManualLong), s.request, s.count + 1)
    case EntStabilizedT1 => Switch(StabilizedT1, Stabilized, 0)
    case StabilizedT1 => Switch(Waited(s, x, Down, EntManualT2, EntStabilizedLong), s.request, s.count + 1)
    case EntManualT2 => Switch(ManualT2, Manual, 0)
    case ManualT2 => Switch(Waited(s, x, Up, EntAutonomous, EntManualLong), s.request, s.count + 1)
    case EntAutonomous => Switch(AutonomousOn, Autonomous, 0)
    case AutonomousOn => Switch(if x == Down then EntManualLong else AutonomousOn, s.request, s.count)
  }

  /** Where a timed phase goes: on with the toggle, or back when that takes too long. */
  function Waited(s: Switch, x: Level, awaited: Level, next: Phase, back: Phase): Phase {
    if x == awaited then next else if s.count > MAX_PAUSE_TOGGLE then back else s.phase
  }

  /** The switch after a history of polls. */
  function After(h: seq<Level>): Switch {
    if h == [] then POWER_ON else Poll(After(h[..|h| - 1]), h[|h| - 1])
  }

  // ---------------------------------------------------------------- manual is manual

  /** The request always fits the phase, except that a phase about to be entered has yet to set it; only timed phases count. */
  predicate Consistent(s: Switch) {
    0 <= s.count <= MAX_PAUSE_TOGGLE + 2 &&
    (s.phase in {ManualLong, StabilizedLong, AutonomousOn, EntManualT1} ==> s.count == 0) &&
    match s.phase
    case ManualLong | ManualT1 | ManualT2 => s.request == Manual
    case StabilizedLong | StabilizedT1 => s.request == Stabilized
    case AutonomousOn => s.request == Autonomous
    case EntManualLong => true
    case _ => s.request != Autonomous
  }

  lemma {:induction false} AlwaysConsistent(h: seq<Level>)
    ensures Consistent(After(h)) && (Timed(After(h).phase) ==> After(h).count <= MAX_PAUSE_TOGGLE + 1)
    decreases |h|
  {
    if h != [] { AlwaysConsistent(h[..|h| - 1]); }
  }

  predicate Timed(p: Phase) {
    p == ManualT1 || p == StabilizedT1 || p == ManualT2
  }

  /** The switch is down for good as far as the request goes. */
  predicate HeldDown(s: Switch) {
    s.request == Manual && (s.phase == EntManualLong || s.phase == ManualLong || s.phase == ManualT1 || s.phase == ManualT2)
  }

  lemma ThreeDownsFrom(s: Switch)
    requires Consistent(s)
    ensures HeldDown(Poll(Poll(Poll(s, Down), Down), Down))
  {
  }

  lemma StaysHeld(s: Switch)
    requires HeldDown(s)
    ensures HeldDown(Poll(s, Down))
  {
  }

  /** From three polls with the switch down on, for as long as it stays down, the request is manual. */
  lemma {:induction false} DownIsManual(h: seq<Level>, downs: seq<Level>)
    requires |downs| >= 3 && forall k :: 0 <= k < |downs| ==> downs[k] == Down
    ensures After(h + downs).request == Manual && HeldDown(After(h + downs))
    decreases |downs|
  {
    var n := |downs|;
    if n == 3 {
      AlwaysConsistent(h);
      ThreeDownsFrom(After(h));
      AfterThree(h, downs);
    } else {
      var front := downs[..n - 1];
      DownIsManual(h, front);
      assert (h + downs)[..|h + downs| - 1] == h + front;
      StaysHeld(After(h + front));
    }
  }

  /** The switch is up for good: stabilized, about to be, or autonomous. */
  predicate HeldUp(s: Switch) {
    || (s.request == Stabilized && (s.phase == EntStabilizedLong || s.phase == StabilizedLong || s.phase == StabilizedT1))
    || (s.request == Autonomous && s.phase == AutonomousOn)
  }

  lemma ThreeUpsFrom(s: Switch)
    requires Consistent(s)
    ensures HeldUp(Poll(Poll(Poll(s, Up), Up), Up))
  {
  }

  lemma StaysUp(s: Switch)
    requires HeldUp(s)
    ensures HeldUp(Poll(s, Up)) && Poll(s, Up).request == s.request
  {
  }

  /** From three polls with the switch up on, for as long as it stays up, the request is not manual; nor does it change. */
  lemma {:induction false} UpIsNotManual(h: seq<Level>, ups: seq<Level>)
    requires |ups| >= 3 && forall k :: 0 <= k < |ups| ==> ups[k] == Up
    ensures After(h + ups).request != Manual && HeldUp(After(h + ups))
    ensures After(h + ups).request == After(h + ups[..3]).request
    decreases |ups|
  {
    hide Poll;
    var n := |ups|;
    if n == 3 {
      AlwaysConsistent(h);
      ThreeUpsFrom(After(h));
      AfterThree(h, ups);
      assert ups[..3] == ups;
    } else {
      var front := ups[..n - 1];
      UpIsNotManual(h, front);
      assert (h + ups)[..|h + ups| - 1] == h + front && front[..3] == ups[..3];
      StaysUp(After(h + front));
    }
  }

  /** From power-on the second poll with the switch up requests stabilized flight, and it stays that while the switch stays up. */
  lemma {:induction false} UpStabilizes(ups: seq<Level>)
    requires |ups| >= 2 && forall k :: 0 <= k < |ups| ==> ups[k] == Up
    ensures After(ups).request == Stabilized && After(ups).phase == StabilizedLong
    decreases |ups|
  {
    if |ups| == 2 {
      AfterOne([], Up);
      AfterOne([Up], Up);
      assert ups == [] + [Up] + [Up] && After([]) == POWER_ON;
    } else {
      UpStabilizes(ups[..|ups| - 1]);
    }
  }

  lemma AfterOne(h: seq<Level>, x: Level)
    ensures After(h + [x]) == Poll(After(h), x)
  {
    hide Poll;
    assert (h + [x])[..|h|] == h;
  }

  lemma AfterThree(h: seq<Level>, x: seq<Level>)
    requires |x| == 3
    ensures After(h + x) == Poll(Poll(Poll(After(h), x[0]), x[1]), x[2])
  {
    hide Poll, After;
    AfterOne(h, x[0]);
    AfterOne(h + [x[0]], x[1]);
    AfterOne(h + [x[0]] + [x[1]], x[2]);
    assert h + x == h + [x[0]] + [x[1]] + [x[2]];
  }

  // ---------------------------------------------------------------- autonomous takes two toggles

  /** From poll `i` on the switch is not at `x` until it is at poll `j`, and that takes no longer than allowed. */
  predicate Dwell(h: seq<Level>, x: Level, i: int, j: int) {
    0 <= i <= j < |h| && j - i <= MAX_PAUSE_TOGGLE + 1 && h[j] == x && forall k :: i <= k < j ==> h[k] != x
  }

  /** No `x` from poll `i` on, `n` polls so far and no more than allowed. */
  predicate Dwelling(h: seq<Level>, x: Level, i: int, n: int) {
    0 <= i <= |h| == i + n && n <= MAX_PAUSE_TOGGLE + 1 && forall k :: i <= k < |h| ==> h[k] != x
  }

  /** The polls at which the switch went down, up, down and up. */
  datatype Marks = Marks(down1: nat, up1: nat, down2: nat, up2: nat)

  predicate Left(h: seq<Level>, m: Marks) {
    m.down1 < |h| && h[m.down1] == Down
  }

  predicate Toggled1(h: seq<Level>, m: Marks) {
    Left(h, m) && Dwell(h, Up, m.down1 + 2, m.up1)
  }

  predicate Toggled1Down(h: seq<Level>, m: Marks) {
    Toggled1(h, m) && Dwell(h, Down, m.up1 + 2, m.down2)
  }

  predicate Toggled2(h: seq<Level>, m: Marks) {
    Toggled1Down(h, m) && Dwell(h, Up, m.down2 + 2, m.up2)
  }

  /** No `x` in the 22 polls from poll `i` on. */
  predicate Missed(h: seq<Level>, x: Level, i: nat) {
    i + 22 <= |h| && forall k :: i <= k < i + 22 ==> h[k] != x
  }

  /** The first up came in time but no second down: the toggle is given up in stabilized. */
  predicate BackOn(h: seq<Level>, m: Marks, n: nat) {
    Toggled1(h, m) && Missed(h, Down, m.up1 + 2) && n == m.up1 + 25
  }

  /** No first up or no second up in time, or autonomous flight ended by the switch going down. */
  predicate BackOff(h: seq<Level>, m: Marks, n: nat) {
    || (Left(h, m) && Missed(h, Up, m.down1 + 2) && n == m.down1 + 25)
    || (Toggled1Down(h, m) && Missed(h, Up, m.down2 + 2) && n == m.down2 + 25)
    || (Toggled2(h, m) && m.up2 + 4 <= n <= |h| && h[n - 2] == Down && forall k :: m.up2 + 2 <= k < n - 2 ==> h[k] != Down)
  }

  /** Long-term stabilized after `n` polls, by their levels: up out of long-term manual, not down since, or back from a toggle. */
  ghost predicate On(h: seq<Level>, n: nat)
    decreases n
  {
    n <= |h| &&
    (|| (n >= 2 && Off(h, n - 2) && h[n - 2] == Up)
     || (n >= 1 && On(h, n - 1) && h[n - 1] != Down)
     || (exists m: Marks :: m.down1 < n && On(h, m.down1) && BackOn(h, m, n)))
  }

  /** Long-term manual after `n` polls: from power-on, not up since, or back from a toggle or from autonomous flight. */
  ghost predicate Off(h: seq<Level>, n: nat)
    decreases n
  {
    n <= |h| &&
    (|| n == 0
     || (Off(h, n - 1) && h[n - 1] != Up)
     || (exists m: Marks :: m.down1 < n && On(h, m.down1) && BackOff(h, m, n)))
  }

  /**
   Out of long-term stabilized two toggles are complete, the poll that acts on them has been made, and none before the
   last one was down since.
   */
  ghost predicate AutonomousSince(h: seq<Level>, m: Marks) {
    On(h, m.down1) && Toggled2(h, m) && Since(h, m)
  }

  predicate Since(h: seq<Level>, m: Marks) {
    m.up2 + 2 <= |h| && forall k :: m.up2 + 2 <= k < |h| - 1 ==> h[k] != Down
  }

  // ---------------------------------------------------------------- the automaton does that

  /** The toggle under way began in long-term stabilized. */
  predicate Armed(h: seq<Level>, m: Marks) {
    m.down1 <= |h| && After(h[..m.down1]).phase == StabilizedLong
  }

  predicate Long(s: Switch) {
    s.phase in {EntManualLong, ManualLong, EntStabilizedLong, StabilizedLong} && s.request != Autonomous
  }

  /** What the polls so far must have been for the switch to be where it is. */
  predicate Story(h: seq<Level>, s: Switch, m: Marks) {
    (Long(s) || Armed(h, m)) && FirstToggle(h, s, m) && SecondToggle(h, s, m)
  }

  predicate FirstToggle(h: seq<Level>, s: Switch, m: Marks) {
    (s.phase == EntManualT1 ==> Left(h, m) && m.down1 == |h| - 1) &&
    (s.phase == ManualT1 ==> Left(h, m) && Dwelling(h, Up, m.down1 + 2, s.count)) &&
    (s.phase == EntStabilizedT1 ==> Toggled1(h, m) && m.up1 == |h| - 1) &&
    (s.phase == StabilizedT1 ==> Toggled1(h, m) && Dwelling(h, Down, m.up1 + 2, s.count))
  }

  predicate SecondToggle(h: seq<Level>, s: Switch, m: Marks) {
    (s.phase == EntManualT2 ==> Toggled1Down(h, m) && m.down2 == |h| - 1) &&
    (s.phase == ManualT2 ==> Toggled1Down(h, m) && Dwelling(h, Up, m.down2 + 2, s.count)) &&
    (s.phase == EntAutonomous ==> Toggled2(h, m) && m.up2 == |h| - 1) &&
    (s.request == Autonomous ==> Toggled2(h, m) && Since(h, m)) &&
    (s.phase == AutonomousOn ==> forall k :: 0 <= k && m.up2 + 2 <= k < |h| ==> h[k] != Down)
  }

  /** The marks of a shorter history are marks of the longer one. */
  lemma MarksStay(h: seq<Level>, x: Level, m: Marks)
    ensures Left(h, m) ==> Left(h + [x], m)
    ensures Toggled1(h, m) ==> Toggled1(h + [x], m)
    ensures Toggled1Down(h, m) ==> Toggled1Down(h + [x], m)
    ensures Toggled2(h, m) ==> Toggled2(h + [x], m)
  {
  }

  lemma ArmedStays(h: seq<Level>, x: Level, m: Marks)
    requires m.down1 <= |h|
    ensures Armed(h + [x], m) <==> Armed(h, m)
  {
    hide After;
    assert (h + [x])[..m.down1] == h[..m.down1];
  }

  lemma ArmedGoesOn(h: seq<Level>, x: Level, m: Marks)
    requires Consistent(After(h)) && (Long(After(h)) || Armed(h, m))
    ensures var t := Poll(After(h), x); Long(t) || Armed(h + [x], NextMarks(h, After(h), t, m))
  {
    hide After;
    var t := Poll(After(h), x);
    var m1 := NextMarks(h, After(h), t, m);
    if t.phase == EntManualT1 {
      assert (h + [x])[..|h|] == h;
    } else if !Long(After(h)) {
      ArmedStays(h, x, m);
    }
  }

  function NextMarks(h: seq<Level>, s: Switch, t: Switch, m: Marks): Marks {
    if t.phase == EntManualT1 then m.(down1 := |h|)
    else if t.phase == EntStabilizedT1 && s.phase == ManualT1 then m.(up1 := |h|)
    else if t.phase == EntManualT2 then m.(down2 := |h|)
    else if t.phase == EntAutonomous then m.(up2 := |h|)
    else m
  }

  lemma FirstGoesOn(h: seq<Level>, x: Level, m: Marks)
    requires Consistent(After(h)) && FirstToggle(h, After(h), m)
    ensures FirstToggle(h + [x], Poll(After(h), x), NextMarks(h, After(h), Poll(After(h), x), m))
  {
    hide After;
    MarksStay(h, x, m);
  }

  lemma SecondGoesOn(h: seq<Level>, x: Level, m: Marks)
    requires Consistent(After(h)) && Story(h, After(h), m)
    ensures SecondToggle(h + [x], Poll(After(h), x), NextMarks(h, After(h), Poll(After(h), x), m))
  {
    hide After, Armed;
    MarksStay(h, x, m);
  }

  lemma StoryGoesOn(h: seq<Level>, x: Level, m: Marks)
    requires Consistent(After(h)) && Story(h, After(h), m)
    ensures Story(h + [x], Poll(After(h), x), NextMarks(h, After(h), Poll(After(h), x), m))
  {
    hide After, FirstToggle, SecondToggle, NextMarks, Poll, Armed, Long;
    ArmedGoesOn(h, x, m);
    FirstGoesOn(h, x, m);
    SecondGoesOn(h, x, m);
  }

  lemma {:induction false} StoryOf(h: seq<Level>) returns (m: Marks)
    ensures Story(h, After(h), m)
    decreases |h|
  {
    if h == [] {
      m := Marks(0, 0, 0, 0);
    } else {
      var front, x := h[..|h| - 1], h[|h| - 1];
      m := StoryOf(front);
      AlwaysConsistent(front);
      StoryGoesOn(front, x, m);
      assert h == front + [x];
      m := NextMarks(front, After(front), Poll(After(front), x), m);
    }
  }

  function Awaited(p: Phase): Level {
    if p == StabilizedT1 then Down else Up
  }

  function Onward(p: Phase): Phase {
    if p == ManualT1 then EntStabilizedT1 else if p == StabilizedT1 then EntManualT2 else EntAutonomous
  }

  lemma AfterNext(h: seq<Level>, k: nat)
    requires k < |h|
    ensures After(h[..k + 1]) == Poll(After(h[..k]), h[k])
  {
    hide Poll;
    assert h[..k + 1][..k] == h[..k];
  }

  lemma {:induction false} Waits(h: seq<Level>, p: Phase, i: nat, j: nat, k: nat)
    requires Timed(p) && Dwell(h, Awaited(p), i, j) && i <= k <= j
    requires After(h[..i]).phase == p && After(h[..i]).count == 0
    ensures After(h[..k]).phase == p && After(h[..k]).count == k - i
    decreases k
  {
    hide After;
    if k > i {
      Waits(h, p, i, j, k - 1);
      AfterNext(h, k - 1);
    }
  }

  lemma WaitsThrough(h: seq<Level>, p: Phase, i: nat, j: nat)
    requires Timed(p) && Dwell(h, Awaited(p), i, j)
    requires After(h[..i]).phase == p && After(h[..i]).count == 0
    ensures After(h[..j + 1]).phase == Onward(p)
  {
    hide After;
    Waits(h, p, i, j, j);
    AfterNext(h, j);
  }

  /** A timed phase in which nothing awaited comes is left after 22 polls. */
  lemma {:induction false} WaitsInVain(h: seq<Level>, p: Phase, i: nat, k: nat)
    requires Timed(p) && Missed(h, Awaited(p), i) && i <= k <= i + 21
    requires After(h[..i]).phase == p && After(h[..i]).count == 0
    ensures After(h[..k]).phase == p && After(h[..k]).count == k - i
    decreases k
  {
    hide After;
    if k > i {
      WaitsInVain(h, p, i, k - 1);
      AfterNext(h, k - 1);
    }
  }

  lemma GivesUp(h: seq<Level>, p: Phase, i: nat)
    requires Timed(p) && Missed(h, Awaited(p), i) && i + 23 <= |h|
    requires After(h[..i]).phase == p && After(h[..i]).count == 0
    ensures After(h[..i + 23]).phase == if p == StabilizedT1 then StabilizedLong else ManualLong
  {
    hide After;
    WaitsInVain(h, p, i, i + 21);
    AfterNext(h, i + 21);
    AfterNext(h, i + 22);
  }

  lemma FirstDown(h: seq<Level>, m: Marks)
    requires Armed(h, m) && Left(h, m) && m.down1 + 2 <= |h|
    ensures After(h[..m.down1 + 2]).phase == ManualT1 && After(h[..m.down1 + 2]).count == 0
  {
    hide After;
    AfterNext(h, m.down1);
    AfterNext(h, m.down1 + 1);
  }

  lemma FirstUp(h: seq<Level>, m: Marks)
    requires Armed(h, m) && Toggled1(h, m) && m.up1 + 2 <= |h|
    ensures After(h[..m.up1 + 2]).phase == StabilizedT1 && After(h[..m.up1 + 2]).count == 0
  {
    hide After, Armed;
    FirstDown(h, m);
    WaitsThrough(h, ManualT1, m.down1 + 2, m.up1);
    AfterNext(h, m.up1 + 1);
  }

  lemma SecondDown(h: seq<Level>, m: Marks)
    requires Armed(h, m) && Toggled1Down(h, m) && m.down2 + 2 <= |h|
    ensures After(h[..m.down2 + 2]).phase == ManualT2 && After(h[..m.down2 + 2]).count == 0
  {
    hide After, Armed;
    FirstUp(h, m);
    WaitsThrough(h, StabilizedT1, m.up1 + 2, m.down2);
    AfterNext(h, m.down2 + 1);
  }

  lemma SecondUp(h: seq<Level>, m: Marks)
    requires Armed(h, m) && Toggled2(h, m) && m.up2 + 2 <= |h|
    ensures After(h[..m.up2 + 2]) == Switch(AutonomousOn, Autonomous, 0)
  {
    hide After, Armed;
    SecondDown(h, m);
    WaitsThrough(h, ManualT2, m.down2 + 2, m.up2);
    AfterNext(h, m.up2 + 1);
  }

  /** Autonomous flight is requested, and acted on, as long as the switch is not down. */
  lemma {:induction false} StaysAutonomous(h: seq<Level>, i: nat, k: nat)
    requires i <= k <= |h| && forall j :: i <= j < k - 1 ==> h[j] != Down
    requires After(h[..i]) == Switch(AutonomousOn, Autonomous, 0)
    ensures After(h[..k]).request == Autonomous
    ensures (k > i && h[k - 1] == Down) || After(h[..k]).phase == AutonomousOn
    decreases k
  {
    hide After;
    if k > i {
      StaysAutonomous(h, i, k - 1);
      AfterNext(h, k - 1);
    }
  }

  // ---------------------------------------------------------------- long-term phases

  lemma ComesBackOn(h: seq<Level>, m: Marks, n: nat)
    requires Armed(h, m) && BackOn(h, m, n) && n <= |h|
    ensures After(h[..n]).phase == StabilizedLong
  {
    hide After, Armed;
    FirstUp(h, m);
    GivesUp(h, StabilizedT1, m.up1 + 2);
  }

  lemma ComesBackOff(h: seq<Level>, m: Marks, n: nat)
    requires Armed(h, m) && BackOff(h, m, n) && n <= |h|
    ensures After(h[..n]).phase == ManualLong
  {
    hide After, Armed;
    if Left(h, m) && Missed(h, Up, m.down1 + 2) && n == m.down1 + 25 {
      FirstDown(h, m);
      GivesUp(h, ManualT1, m.down1 + 2);
    } else if Toggled1Down(h, m) && Missed(h, Up, m.down2 + 2) && n == m.down2 + 25 {
      SecondDown(h, m);
      GivesUp(h, ManualT2, m.down2 + 2);
    } else {
      SecondUp(h, m);
      StaysAutonomous(h, m.up2 + 2, n - 2);
      AfterNext(h, n - 2);
      AfterNext(h, n - 1);
    }
  }

  /** The levels of a shorter history are those of the longer one. */
  lemma LongerHistory(h: seq<Level>, k: nat, m: Marks)
    requires k <= |h|
    ensures Left(h[..k], m) ==> Left(h, m)
    ensures Toggled1(h[..k], m) ==> Toggled1(h, m)
    ensures Toggled1Down(h[..k], m) ==> Toggled1Down(h, m)
    ensures Toggled2(h[..k], m) ==> Toggled2(h, m)
    ensures m.down1 <= k ==> (Armed(h[..k], m) <==> Armed(h, m))
  {
    hide After;
    if m.down1 <= k { assert h[..k][..m.down1] == h[..m.down1]; }
  }

  /** How stabilized is entered for long: out of long-term manual, or back from a toggle. */
  lemma EntersOn(h: seq<Level>, n: nat) returns (m: Marks)
    requires 1 <= n < |h| && After(h[..n]).phase == EntStabilizedLong
    ensures (After(h[..n - 1]).phase == ManualLong && h[n - 1] == Up) || (Armed(h, m) && m.down1 < n && BackOn(h, m, n + 1))
  {
    hide After, Armed;
    AfterNext(h, n - 1);
    var g := h[..n - 1];
    AlwaysConsistent(g);
    m := StoryOf(g);
    LongerHistory(h, n - 1, m);
  }

  /** The ways into long-term manual. */
  lemma LeavesForManual(s: Switch, x: Level)
    requires Poll(s, x).phase == EntManualLong && (Timed(s.phase) ==> s.count <= MAX_PAUSE_TOGGLE + 1)
    ensures (s.phase == AutonomousOn && x == Down) || (s.phase in {ManualT1, ManualT2} && s.count == MAX_PAUSE_TOGGLE + 1 && x != Up)
  {
  }

  lemma EntersOff(h: seq<Level>, n: nat) returns (m: Marks)
    requires 1 <= n < |h| && After(h[..n]).phase == EntManualLong
    ensures Armed(h, m) && m.down1 < n && BackOff(h, m, n + 1)
  {
    hide After, Armed, Poll;
    LeavesForManual(After(h[..n - 1]), h[n - 1]) by {
      AfterNext(h, n - 1);
      AlwaysConsistent(h[..n - 1]);
    }
    AfterNext(h, n - 1);
    var g := h[..n - 1];
    AlwaysConsistent(g);
    m := StoryOf(g);
    LongerHistory(h, n - 1, m);
  }

  /** The automaton agrees with the levels up to poll `n`. */
  ghost predicate AgreesBefore(h: seq<Level>, n: nat)
    requires n <= |h|
  {
    forall k: nat :: k < n ==>
      (On(h, k) <==> After(h[..k]).phase == StabilizedLong) && (Off(h, k) <==> After(h[..k]).phase == ManualLong)
  }

  lemma OnIff(h: seq<Level>, n: nat)
    requires 1 <= n <= |h| && AgreesBefore(h, n)
    ensures On(h, n) <==> After(h[..n]).phase == StabilizedLong
  {
    hide After, BackOn, Off;
    AfterNext(h, n - 1);
    if n >= 2 { AfterNext(h, n - 2); }
    if On(h, n) && !(n >= 2 && Off(h, n - 2) && h[n - 2] == Up) && !(On(h, n - 1) && h[n - 1] != Down) {
      var m: Marks :| m.down1 < n && On(h, m.down1) && BackOn(h, m, n);
      ComesBackOn(h, m, n);
    }
    if After(h[..n]).phase == StabilizedLong && After(h[..n - 1]).phase != StabilizedLong {
      AtPowerOn(h);
      var m := EntersOn(h, n - 1);
    }
  }

  lemma OffIff(h: seq<Level>, n: nat)
    requires 1 <= n <= |h| && AgreesBefore(h, n)
    ensures Off(h, n) <==> After(h[..n]).phase == ManualLong
  {
    hide After, BackOff, On;
    AfterNext(h, n - 1);
    if Off(h, n) && !(Off(h, n - 1) && h[n - 1] != Up) {
      var m: Marks :| m.down1 < n && On(h, m.down1) && BackOff(h, m, n);
      ComesBackOff(h, m, n);
    }
    if After(h[..n]).phase == ManualLong && After(h[..n - 1]).phase != ManualLong {
      AtPowerOn(h);
      var m := EntersOff(h, n - 1);
    }
  }

  lemma AtPowerOn(h: seq<Level>)
    ensures After(h[..0]) == POWER_ON
  {
  }

  /** The levels of the polls decide when the switch is in its long-term phases. */
  lemma {:induction false} LongTermIff(h: seq<Level>, n: nat)
    requires n <= |h|
    ensures On(h, n) <==> After(h[..n]).phase == StabilizedLong
    ensures Off(h, n) <==> After(h[..n]).phase == ManualLong
    decreases n
  {
    if n == 0 {
      AtPowerOn(h);
    } else {
      hide After, BackOn, BackOff, On, Off;
      forall k: nat | k < n
        ensures On(h, k) <==> After(h[..k]).phase == StabilizedLong
        ensures Off(h, k) <==> After(h[..k]).phase == ManualLong
      {
        LongTermIff(h, k);
      }
      OnIff(h, n);
      OffIff(h, n);
    }
  }

  lemma ArmedIff(h: seq<Level>, m: Marks)
    requires m.down1 <= |h|
    ensures Armed(h, m) <==> On(h, m.down1)
  {
    hide After, On, Off;
    LongTermIff(h, m.down1);
  }

  /** Two complete, quick enough toggles out of long-term stabilized request autonomous flight until the switch goes down. */
  lemma TogglesSuffice(h: seq<Level>, m: Marks)
    requires AutonomousSince(h, m)
    ensures After(h).request == Autonomous
  {
    hide After, On, Armed;
    ArmedIff(h, m);
    SecondUp(h, m);
    StaysAutonomous(h, m.up2 + 2, |h|);
    assert h[..|h|] == h;
  }

  /** Autonomous flight is requested exactly after two complete, quick enough toggles out of long-term stabilized. */
  lemma AutonomousIff(h: seq<Level>)
    ensures After(h).request == Autonomous <==> exists m :: AutonomousSince(h, m)
  {
    hide After, On, Armed;
    if After(h).request == Autonomous {
      var m := StoryOf(h);
      ArmedIff(h, m);
      assert AutonomousSince(h, m);
    }
    forall m | AutonomousSince(h, m) ensures After(h).request == Autonomous {
      TogglesSuffice(h, m);
    }
  }

  // ---------------------------------------------------------------- the code

  class SwitchReader {
    var phase: Phase
    var request: Mode
    var count: int
    ghost var history: seq<Level>

    ghost predicate Valid()
      reads this
    {
      Switch(phase, request, count) == After(history)
    }

    constructor ()
      ensures Valid() && history == []
    {
      phase, request, count, history := ManualLong, Manual, 0, [];
    }

    /** `flight_mode_switch_2pos_poll`. */
    method Poll2Pos(pulse: int, threshold: int)
      requires Valid()
      modifies this
      ensures Valid()
      ensures history == old(history) + [if pulse > threshold then Up else if pulse < threshold then Down else Between]
    {
      hide After;
      ghost var x := if pulse > threshold then Up else if pulse < threshold then Down else Between;
      AfterOne(history, x);
      match phase {
        case EntManualLong =>
          count, request, phase := 0, Manual, ManualLong;
        case ManualLong =>
          if pulse > threshold { phase := EntStabilizedLong; }
        case EntStabilizedLong =>
          count, request, phase := 0, Stabilized, StabilizedLong;
        case StabilizedLong =>
          if pulse < threshold { phase := EntManualT1; }
        case EntManualT1 =>
          count, request, phase := 0, Manual, ManualT1;
        case ManualT1 =>
          if pulse > threshold {
            phase := EntStabilizedT1;
          } else if count > MAX_PAUSE_TOGGLE {
            phase := EntManualLong;
          }
          count := count + 1;
        case EntStabilizedT1 =>
          count, request, phase := 0, Stabilized, StabilizedT1;
        case StabilizedT1 =>
          if pulse < threshold {
            phase := EntManualT2;
          } else if count > MAX_PAUSE_TOGGLE {
            phase := EntStabilizedLong;
          }
          count := count + 1;
        case EntManualT2 =>
          count, request, phase := 0, Manual, ManualT2;
        case ManualT2 =>
          if pulse > threshold {
            phase := EntAutonomous;
          } else if count > MAX_PAUSE_TOGGLE {
            phase := EntManualLong;
          }
          count := count + 1;
        case EntAutonomous =>
          count, request, phase := 0, Autonomous, AutonomousOn;
        case AutonomousOn =>
          if pulse < threshold { phase := EntManualLong; }
      }
      history := history + [x];
    }
  }
}
