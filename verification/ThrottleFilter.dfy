/** The fixed-point low-pass filter of the throttle, and fading over to manual control. */
module ThrottleFilter {
  import opened FixedWidth

  /** The upper word of a 32-bit value: an arithmetic shift. */
  function Upper(ww: int): int {
    ww / 0x1_0000
  }

  /** The difference as a 16-bit `int` holds it. */
  function Error(ww: int, target: int): int {
    S16(target - Upper(ww))
  }

  /** `WW += (int32_t)(target - W1) << THROTTLEFILTSHIFT`. */
  function Step(ww: int, target: int): int {
    S32(ww + Error(ww, target) * 0x1000)
  }

  function Filter(ww: int, target: int, n: nat): int {
    if n == 0 then ww else Step(Filter(ww, target, n - 1), target)
  }

  /** A 32-bit value and a target whose difference from its upper word fits 16 bits. */
  predicate InRange(ww: int, target: int) {
    IsLong(ww) && IsWord(target) && IsWord(target - Upper(ww))
  }

  /** How far `ww` is from the values whose upper word is the target. */
  function Distance(ww: int, target: int): nat {
    if Upper(ww) < target then target * 0x1_0000 - ww
    else if Upper(ww) > target then ww - target * 0x1_0000 - 0xFFFF
    else 0
  }

  /** One step goes towards the target and not past it, closer by a sixteenth of a unit at least. */
  lemma StepApproaches(ww: int, target: int)
    requires InRange(ww, target)
    ensures InRange(Step(ww, target), target)
    ensures Upper(ww) <= target ==> Upper(ww) <= Upper(Step(ww, target)) <= target
    ensures Upper(ww) >= target ==> Upper(ww) >= Upper(Step(ww, target)) >= target
    ensures Upper(ww) == target || Upper(Step(ww, target)) == target
         || Distance(Step(ww, target), target) <= Distance(ww, target) - 0x1000
    ensures Step(ww, target) == ww <==> Upper(ww) == target
  {
    var e := target - Upper(ww);
    assert Error(ww, target) == e;
    assert 0 <= ww - Upper(ww) * 0x1_0000 < 0x1_0000;
    assert Step(ww, target) == ww + e * 0x1000;
  }

  /** Over any number of steps the upper word moves one way, between where it was and the target. */
  lemma {:induction false} NoOvershoot(ww: int, target: int, n: nat, m: nat)
    requires InRange(ww, target) && n <= m
    ensures InRange(Filter(ww, target, m), target)
    ensures var (a, b) := (Upper(Filter(ww, target, n)), Upper(Filter(ww, target, m)));
      (Upper(ww) <= target ==> Upper(ww) <= a <= b <= target) && (Upper(ww) >= target ==> Upper(ww) >= a >= b >= target)
    decreases m
  {
    hide Step, Upper, InRange;
    if m > 0 {
      NoOvershoot(ww, target, if n < m then n else m - 1, m - 1);
      StepApproaches(Filter(ww, target, m - 1), target);
    }
  }

  lemma {:induction false} Closer(ww: int, target: int, n: nat)
    requires InRange(ww, target)
    ensures InRange(Filter(ww, target, n), target)
    ensures Upper(Filter(ww, target, n)) == target || Distance(Filter(ww, target, n), target) <= Distance(ww, target) - n * 0x1000
    decreases n
  {
    hide Step, Upper, InRange, Distance;
    if n > 0 {
      Closer(ww, target, n - 1);
      StepApproaches(Filter(ww, target, n - 1), target);
      AtTarget(Filter(ww, target, n - 1), target);
    }
  }

  lemma AtTarget(ww: int, target: int)
    ensures Upper(ww) == target <==> Distance(ww, target) == 0
    ensures Distance(ww, target) <= Abs(target - Upper(ww)) * 0x1_0000
  {
  }

  /** The target is reached exactly, within 16 steps for each unit of difference, and then kept. */
  lemma Converges(ww: int, target: int, n: nat)
    requires InRange(ww, target) && n >= 16 * Abs(target - Upper(ww))
    ensures Upper(Filter(ww, target, n)) == target
    ensures Filter(ww, target, n + 1) == Filter(ww, target, n)
  {
    hide Step, Upper, Distance;
    Closer(ww, target, n);
    AtTarget(ww, target);
    AtTarget(Filter(ww, target, n), target);
    StepApproaches(Filter(ww, target, n), target);
  }

  // ---------------------------------------------------------------- fading over to manual control

  /** `manualThrottle` with a constant stick: the filter, whether it is still in use, and the correction applied. */
  function Manual(ww: int, filtering: bool, stick: int): (int, bool, int) {
    var next := Step(ww, stick);
    var pre := S16(Upper(next) - stick);
    if filtering then (next, pre >= 10, pre) else (next, false, 0)
  }

  /** Fading down, the filter is given up only within ten units, so the last correction dropped is less than that. */
  lemma FadesDown(ww: int, stick: int)
    requires InRange(ww, stick) && Upper(ww) >= stick
    ensures var (next, filtering, pre) := Manual(ww, true, stick);
      pre == Upper(next) - stick && 0 <= pre <= Upper(ww) - stick && (filtering <==> pre >= 10)
  {
    StepApproaches(ww, stick);
  }

  /** Fading up it is given up at once: the correction still to be made is dropped in one step, all of it. */
  lemma DropsUp(ww: int, stick: int)
    requires InRange(ww, stick) && Upper(ww) < stick
    ensures var (next, filtering, pre) := Manual(ww, true, stick);
      !filtering && pre == Upper(next) - stick && pre <= 0 && Manual(next, filtering, stick).2 == 0
  {
    hide Step, Upper;
    StepApproaches(ww, stick);
  }

  /** What is dropped then is fifteen sixteenths of the whole way, up to one unit. */
  lemma DropIsLarge(ww: int, stick: int)
    requires InRange(ww, stick) && Upper(ww) < stick
    ensures 16 * -Manual(ww, true, stick).2 >= 15 * (stick - Upper(ww)) - 16
  {
    hide Step;
    var next := Step(ww, stick);
    StepApproaches(ww, stick);
    StepIsSixteenth(ww, stick);
    assert Manual(ww, true, stick).2 == Upper(next) - stick;
  }

  lemma StepIsSixteenth(ww: int, target: int)
    requires InRange(ww, target) && Upper(ww) < target
    ensures 16 * (Upper(Step(ww, target)) - Upper(ww)) <= target - Upper(ww) + 16
  {
    var e := target - Upper(ww);
    assert Error(ww, target) == e;
    assert ww < Upper(ww) * 0x1_0000 + 0x1_0000;
    assert Step(ww, target) == ww + e * 0x1000;
  }

  /** So it is below the ten units of fading down exactly if the one step comes that near. */
  lemma DropBelowTenIff(ww: int, stick: int)
    requires InRange(ww, stick) && Upper(ww) < stick
    ensures -Manual(ww, true, stick).2 < 10 <==> ww + (stick - Upper(ww)) * 0x1000 >= (stick - 9) * 0x1_0000
  {
    var next := Step(ww, stick);
    StepApproaches(ww, stick);
    assert Error(ww, stick) == stick - Upper(ww);
    StaysLong(ww, stick);
    assert Manual(ww, true, stick).2 == Upper(next) - stick;
  }

  lemma StaysLong(ww: int, target: int)
    requires InRange(ww, target)
    ensures Step(ww, target) == ww + (target - Upper(ww)) * 0x1000
  {
    assert 0 <= ww - Upper(ww) * 0x1_0000 < 0x1_0000;
  }

  /** The filter and whether it is in use after `n` polls of `manualThrottle` with the stick held. */
  function Held(ww: int, filtering: bool, stick: int, n: nat): (int, bool) {
    if n == 0 then (ww, filtering)
    else
      var (w, f) := Held(ww, filtering, stick, n - 1);
      (Manual(w, f, stick).0, Manual(w, f, stick).1)
  }

  /** In use or given up, the filter follows the stick; once given up it stays so, and nothing is corrected. */
  lemma {:induction false} FollowsStick(ww: int, filtering: bool, stick: int, n: nat)
    ensures Held(ww, filtering, stick, n).0 == Filter(ww, stick, n)
    ensures !filtering ==> !Held(ww, filtering, stick, n).1
    ensures var (w, f) := Held(ww, filtering, stick, n); !f ==> Manual(w, f, stick) == (Step(w, stick), false, 0)
    decreases n
  {
    hide Step, Upper;
    if n > 0 { FollowsStick(ww, filtering, stick, n - 1); }
  }

  /** So after 16 polls per unit of difference, and one more, it rests at the stick with no correction, whichever side it came from. */
  lemma ManualSettles(ww: int, filtering: bool, stick: int, n: nat)
    requires InRange(ww, stick) && n > 16 * Abs(stick - Upper(ww))
    ensures var (w, f) := Held(ww, filtering, stick, n);
      Upper(w) == stick && !f && Manual(w, f, stick) == (w, false, 0)
  {
    hide Step, Upper;
    FollowsStick(ww, filtering, stick, n);
    FollowsStick(ww, filtering, stick, n - 1);
    Converges(ww, stick, n);
    Converges(ww, stick, n - 1);
  }

  class Throttle {
    var filtered: int
    var filterManual: bool

    constructor ()
      ensures filtered == 0 && !filterManual
    {
      filtered, filterManual := 0, false;
    }

    /** The automatic branches: the filter follows `target`. */
    method Follow(target: int, throttleIn: int) returns (control: int)
      modifies this
      ensures filtered == Step(old(filtered), target) && filterManual
      ensures control == S16(Upper(filtered) - throttleIn)
    {
      filtered := S32(filtered + S16(target - Upper(filtered)) * 0x1000);
      control := S16(Upper(filtered) - throttleIn);
      filterManual := true;
    }

    /** `manualThrottle`, and the same lines of `hoverAltitudeCntrl`. */
    method ManualThrottle(throttleIn: int) returns (control: int)
      modifies this
      ensures (filtered, filterManual, control) == Manual(old(filtered), old(filterManual), throttleIn)
    {
      filtered := S32(filtered + S16(throttleIn - Upper(filtered)) * 0x1000);
      if filterManual {
        control := S16(Upper(filtered) - throttleIn);
        if control < 10 { filterManual := false; }
      } else {
        control := 0;
      }
    }
  }
}
