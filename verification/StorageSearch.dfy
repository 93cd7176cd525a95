/** When the search for room ends, and what it gives: exact, for every well laid out directory. */
module StorageSearch {
  import opened FixedWidth
  import opened StorageAllocator

  // ---------------------------------------------------------------- where it comes to stand

  /** The search climbs from `low` as long as rounds move it up; this is where it stands then. */
  function Last(table: seq<Entry>, size: nat, low: nat): (last: nat)
    ensures Pass(table, last, size).0 <= last || 0x1_0000 <= last
    decreases 0x1_0000 - low
  {
    var next := Pass(table, low, size).0;
    if low < next then Last(table, size, next) else low
  }

  /** The first standstill, and the second, after the address has wrapped around once. */
  function Last1(table: seq<Entry>, size: nat): nat {
    Last(table, size, LOWEST)
  }

  function Last2(table: seq<Entry>, size: nat): nat {
    Last(table, size, Pass(table, Last1(table, size), size).0)
  }

  /** The first standstill if it is free, else the second. */
  function FreeStandstill(table: seq<Entry>, size: nat): nat {
    if Pass(table, Last1(table, size), size).1 then Last1(table, size) else Last2(table, size)
  }

  lemma {:induction false} Climbs(table: seq<Entry>, size: nat, low: nat, n: nat) returns (m: nat)
    requires Rounds(table, size, n) == (low, false)
    ensures Rounds(table, size, m) == (Last(table, size, low), false)
    decreases 0x1_0000 - low
  {
    hide Scan;
    m := n;
    var next := Pass(table, low, size);
    if low < next.0 {
      PassFinds(table, low, size);
      assert Rounds(table, size, n + 1) == next;
      m := Climbs(table, size, next.0, n + 1);
    }
  }

  lemma PassFinds(table: seq<Entry>, low: nat, size: nat)
    ensures Pass(table, low, size).1 ==> Pass(table, low, size).0 == low
    ensures Pass(table, low, size).0 == low || Pass(table, low, size).0 < 0x1_0000
  {
    ScanFinds(table, 0, low, size, true);
  }

  /** The area ends in the last page of the address space: the page behind it is page 0. */
  predicate AtTheTop(e: Entry) {
    NextPage(U16(e.address + e.size)) >= 0x1_0000
  }

  predicate OneAtTheTop(table: seq<Entry>) {
    forall i: nat, j: nat :: i <= MAX_HANDLES && j <= MAX_HANDLES && AtTheTop(Slot(table, i)) && AtTheTop(Slot(table, j)) ==> i == j
  }

  predicate TopFrom(table: seq<Entry>, k: nat) {
    exists j: nat :: k <= j <= MAX_HANDLES && AtTheTop(Slot(table, j))
  }

  /** Where a round ends that wraps around at the area at the top. */
  function Bottom(table: seq<Entry>, size: nat, k: nat): nat
    decreases MAX_HANDLES + 1 - k
  {
    if k > MAX_HANDLES then 0
    else if AtTheTop(Slot(table, k)) then Scan(table, k + 1, 0, size, false).0
    else Bottom(table, size, k + 1)
  }

  /** A round goes down only by wrapping around, and then always ends at the same address. */
  lemma {:induction false} DownIsBottom(table: seq<Entry>, k: nat, low: nat, size: nat, found: bool)
    requires OneAtTheTop(table) && low < 0x1_0000
    ensures var r := Scan(table, k, low, size, found);
      r.0 < low ==> r.0 == Bottom(table, size, k) && TopFrom(table, k)
    decreases MAX_HANDLES + 1 - k
  {
    hide Meets, Slot, OneAtTheTop;
    if k <= MAX_HANDLES {
      var e := Slot(table, k);
      var next := if Meets(e, low, size) then MovedBy(e, low) else low;
      OneTop(table, k);
      MovesUp(e, low);
      if !AtTheTop(e) || next == low {
        DownIsBottom(table, k + 1, next, size, found && !Meets(e, low, size));
      }
    }
  }

  lemma OneTop(table: seq<Entry>, k: nat)
    requires OneAtTheTop(table) && k <= MAX_HANDLES
    ensures AtTheTop(Slot(table, k)) ==> !TopFrom(table, k + 1)
    ensures TopFrom(table, k + 1) ==> TopFrom(table, k)
  {
    hide AtTheTop, Slot;
  }

  lemma MovesUp(e: Entry, low: nat)
    requires low < 0x1_0000
    ensures MovedBy(e, low) == low || (if AtTheTop(e) then MovedBy(e, low) == 0 else low < MovedBy(e, low) < 0x1_0000)
  {
  }

  /** In a directory at most one area ends in the last page. */
  lemma LayoutTop(table: seq<Entry>)
    requires Layout(table)
    ensures OneAtTheTop(table)
  {
    hide Layout, Apart, EntryOk;
    forall i: nat, j: nat | i <= MAX_HANDLES && j <= MAX_HANDLES && AtTheTop(Slot(table, i)) && AtTheTop(Slot(table, j))
      ensures i == j
    {
      if i < j { NotBothTop(table, i, j); }
      if j < i { NotBothTop(table, j, i); }
    }
  }

  lemma NotBothTop(table: seq<Entry>, i: nat, j: nat)
    requires Layout(table) && i < j <= MAX_HANDLES && AtTheTop(Slot(table, i))
    ensures !AtTheTop(Slot(table, j))
  {
    if j < |table| {
      assert EntryOk(table[i]) && EntryOk(table[j]) && Apart(table[i], table[j]);
    }
  }

  /** Once neither standstill is free, no round ever succeeds. */
  lemma {:induction false} NeverFree(table: seq<Entry>, size: nat, n: nat)
    requires OneAtTheTop(table)
    requires !Pass(table, Last1(table, size), size).1 && !Pass(table, Last2(table, size), size).1
    ensures var (low, found) := Rounds(table, size, n);
      !found && low < 0x1_0000 && Last(table, size, low) in [Last1(table, size), Last2(table, size)]
    decreases n
  {
    hide Scan, OneAtTheTop, Bottom, TopFrom;
    if n > 0 {
      NeverFree(table, size, n - 1);
      var low := Rounds(table, size, n - 1).0;
      PassFinds(table, low, size);
      DownIsBottom(table, 0, low, size, true);
      DownIsBottom(table, 0, Last1(table, size), size, true) by { LastSmall(table, size, LOWEST); }
    }
  }

  lemma {:induction false} LastSmall(table: seq<Entry>, size: nat, low: nat)
    requires low < 0x1_0000
    ensures low <= Last(table, size, low) < 0x1_0000
    decreases 0x1_0000 - low
  {
    hide Scan;
    var next := Pass(table, low, size).0;
    PassFinds(table, low, size);
    if low < next { LastSmall(table, size, next); }
  }

  /** The search ends exactly if one of its two standstills is free, and there. */
  lemma EndsAtStandstill(table: seq<Entry>, size: nat)
    requires OneAtTheTop(table)
    ensures Ends(table, size) <==> Pass(table, Last1(table, size), size).1 || Pass(table, Last2(table, size), size).1
    ensures Ends(table, size) ==> Search(table, size) == FreeStandstill(table, size)
  {
    hide Scan, OneAtTheTop, Search, Last;
    var l1, l2 := Last1(table, size), Last2(table, size);
    PassFinds(table, l1, size);
    PassFinds(table, l2, size);
    if Pass(table, l1, size).1 || Pass(table, l2, size).1 {
      var m := Climbs(table, size, LOWEST, 0);
      assert Rounds(table, size, m + 1) == Pass(table, l1, size);
      if Pass(table, l1, size).1 {
        SearchIs(table, size, m + 1);
      } else {
        m := Climbs(table, size, Pass(table, l1, size).0, m + 1);
        assert Rounds(table, size, m + 1) == Pass(table, l2, size);
        SearchIs(table, size, m + 1);
      }
    } else if Ends(table, size) {
      var n: nat :| Rounds(table, size, n).1;
      NeverFree(table, size, n);
      assert false;
    }
  }

  // ---------------------------------------------------------------- when the search ends

  /** The area holds the address, its end points included. */
  predicate Contains(e: Entry, a: nat) {
    e.address <= a <= e.address + e.size
  }

  /**
   Nothing is in the way of a range at `low`.  A range inside the address space must touch no
   area; of one that leaves it only the two ends are looked at, the upper one wrapped around.
   */
  predicate Free(table: seq<Entry>, low: nat, size: nat) {
    var high := low + size;
    && low != 0
    && if high < 0x1_0000 then forall k :: 0 <= k < |table| && Used(table[k]) ==> !Touches(table[k], low, size)
       else high != 0x1_0000 && forall k :: 0 <= k < |table| && Used(table[k]) ==> !Contains(table[k], low) && !Contains(table[k], U16(high))
  }

  lemma MeetsIff(e: Entry, low: nat, size: nat)
    requires EntryOk(e) && low < 0x1_0000 && size < 0x1_0000
    ensures Meets(e, low, size) <==>
      (if !Used(e) then low == 0 || low + size == 0x1_0000
       else if low + size < 0x1_0000 then Touches(e, low, size)
       else Contains(e, low) || Contains(e, U16(low + size)))
  {
  }

  lemma FreeIff(table: seq<Entry>, low: nat, size: nat)
    requires Layout(table) && low < 0x1_0000 && size < 0x1_0000
    ensures Pass(table, low, size).1 <==> Free(table, low, size)
  {
    hide Meets, Scan, Touches, Contains, Apart;
    ScanFinds(table, 0, low, size, true);
    forall k: nat | k < |table|
      ensures EntryOk(table[k]) && Slot(table, k) == table[k]
    {
    }
    forall k: nat | k < |table|
      ensures Meets(table[k], low, size) <==>
        (if !Used(table[k]) then low == 0 || low + size == 0x1_0000
         else if low + size < 0x1_0000 then Touches(table[k], low, size)
         else Contains(table[k], low) || Contains(table[k], U16(low + size)))
    {
      MeetsIff(table[k], low, size);
    }
    MeetsIff(EMPTY, low, size);
    assert Slot(table, MAX_HANDLES) == EMPTY;
  }

  /**
   The search for room ends exactly if nothing is in the way at its first standstill or, after
   one turn around the address space, at its second.  It never gives address 0.
   */
  lemma EndsIff(table: seq<Entry>, size: nat)
    requires Layout(table) && size < 0x1_0000
    ensures Ends(table, size) <==> Free(table, Last1(table, size), size) || Free(table, Last2(table, size), size)
    ensures Ends(table, size) ==> Search(table, size) == FreeStandstill(table, size) != 0
  {
    hide Layout, Ends, Search, Pass, Last;
    LayoutTop(table);
    EndsAtStandstill(table, size);
    LastSmall(table, size, LOWEST);
    PassFinds(table, Last1(table, size), size);
    LastSmall(table, size, Pass(table, Last1(table, size), size).0);
    FreeIff(table, Last1(table, size), size);
    FreeIff(table, Last2(table, size), size);
  }

  /** No directory and no size makes the search give 0, the value its caller takes for a failure. */
  lemma NeverZero(table: seq<Entry>, size: nat)
    requires |table| <= MAX_HANDLES && Ends(table, size)
    ensures Search(table, size) != 0
  {
    hide Scan;
    var n: nat :| Rounds(table, size, n).1;
    SearchIs(table, size, n);
    NoRoundAtZero(table, size, n);
  }

  lemma {:induction false} NoRoundAtZero(table: seq<Entry>, size: nat, n: nat)
    requires |table| <= MAX_HANDLES
    ensures Rounds(table, size, n).1 ==> Rounds(table, size, n).0 != 0
  {
    hide Scan;
    if n > 0 {
      NoRoundAtZero(table, size, n - 1);
      ScanFinds(table, 0, Rounds(table, size, n - 1).0, size, true);
      assert Meets(Slot(table, MAX_HANDLES), 0, size);
    }
  }

  // ---------------------------------------------------------------- pages

  /** Page 0, or a page above the table. */
  predicate OnPage(low: nat) {
    low % CHUNK == 0 && (low == 0 || LOWEST <= low) && low < 0x1_0000
  }

  lemma {:induction false} ScanOnPage(table: seq<Entry>, k: nat, low: nat, size: nat, found: bool)
    requires Layout(table) && OnPage(low)
    ensures OnPage(Scan(table, k, low, size, found).0)
    decreases MAX_HANDLES + 1 - k
  {
    hide Layout, OnPage, Meets;
    if k <= MAX_HANDLES {
      var next := if Meets(Slot(table, k), low, size) then MovedBy(Slot(table, k), low) else low;
      MovesOnPage(table, k, low);
      ScanOnPage(table, k + 1, next, size, found && !Meets(Slot(table, k), low, size));
    }
  }

  lemma MovesOnPage(table: seq<Entry>, k: nat, low: nat)
    requires Layout(table) && OnPage(low)
    ensures OnPage(MovedBy(Slot(table, k), low))
  {
    hide OnPage, NextPage, Layout;
    if k < |table| && Used(table[k]) {
      OneEntryOk(table, k);
      var max := table[k].address + table[k].size;
      assert LOWEST <= max < 0x1_0000;
      assert OnPage(U16(NextPage(max))) by { PageIsOnPage(max); }
    } else {
      assert U16(Slot(table, k).address + Slot(table, k).size) == 0 by { BlankSlot(table, k); }
    }
  }

  lemma PageIsOnPage(max: nat)
    requires LOWEST <= max < 0x1_0000
    ensures OnPage(U16(NextPage(max)))
  {
    hide NextPage;
    PageBehind(max);
    assert NextPage(max) <= 0x1_0000 by { assert max / CHUNK < 1024; PageNumber(max); }
    if NextPage(max) < 0x1_0000 {
      assert U16(NextPage(max)) == NextPage(max);
    } else {
      assert U16(NextPage(max)) == 0;
    }
  }

  lemma PageNumber(address: nat)
    ensures NextPage(address) == (address / CHUNK + 1) * CHUNK
  {
  }

  lemma BlankSlot(table: seq<Entry>, k: nat)
    requires Layout(table) && (k < |table| ==> !Used(table[k]))
    ensures Slot(table, k).address + Slot(table, k).size == 0
  {
    if k < |table| { OneEntryOk(table, k); }
  }

  lemma {:induction false} RoundsOnPage(table: seq<Entry>, size: nat, n: nat)
    requires Layout(table)
    ensures OnPage(Rounds(table, size, n).0)
  {
    hide Layout, Scan;
    if n > 0 {
      RoundsOnPage(table, size, n - 1);
      ScanOnPage(table, 0, Rounds(table, size, n - 1).0, size, true);
    }
  }

  lemma SearchOnPage(table: seq<Entry>, size: nat)
    requires Layout(table) && Ends(table, size)
    ensures OnPage(Search(table, size))
  {
    hide Layout, OnPage, Rounds;
    var n: nat :| Rounds(table, size, n).1 && Search(table, size) == Rounds(table, size, n).0;
    RoundsOnPage(table, size, n);
  }

  lemma FreeIsHole(table: seq<Entry>, low: nat, size: nat)
    requires Layout(table) && OnPage(low) && low + size < 0x1_0000 && Free(table, low, size)
    ensures IsHole(table, low, size)
  {
    hide Apart;
    forall k | 0 <= k < |table|
      ensures !Touches(table[k], low, size)
    {
      assert EntryOk(table[k]);
    }
  }

  // ---------------------------------------------------------------- with room

  /** `low` is where a climb can stand: the first page, or the page after some area. */
  predicate Candidate(table: seq<Entry>, low: nat) {
    low == LOWEST || exists j :: 0 <= j < |table| && Used(table[j]) && low == NextPage(table[j].address + table[j].size)
  }

  /** An area of size 0 at this address. */
  predicate EmptyAt(e: Entry, a: nat) {
    Used(e) && e.address == a && e.size == 0
  }

  /** Only an empty area ends exactly where a climb can stand, so every other area in the way moves it on. */
  lemma EndIsNoCandidate(table: seq<Entry>, low: nat, i: int)
    requires Layout(table) && Candidate(table, low) && 0 <= i < |table| && Used(table[i])
    ensures table[i].address + table[i].size == low <==> EmptyAt(table[i], low)
  {
    assert EntryOk(table[i]);
    if low != LOWEST && table[i].address + table[i].size == low {
      var j :| 0 <= j < |table| && Used(table[j]) && low == NextPage(table[j].address + table[j].size);
      assert EntryOk(table[j]);
      assert i != j;
      assert Apart(table[if i < j then i else j], table[if i < j then j else i]);
      PageStep(table[i].address, table[j].address + table[j].size);
    }
  }

  lemma PageStep(start: nat, e: nat)
    requires start % CHUNK == 0 && start <= NextPage(e)
    ensures start <= e || start == NextPage(e)
  {
    hide NextPage;
    PageBehind(e);
  }

  /** A hole at or after `low` lies behind any area that touches the range at `low`. */
  lemma HoleIsBehind(e: Entry, low: nat, size: nat, a: nat)
    requires Touches(e, low, size) && low <= a && !Touches(e, a, size) && a % CHUNK == 0
    ensures NextPage(e.address + e.size) <= a
  {
    hide NextPage;
    PageBehind(e.address + e.size);
  }

  /** One slot seen from below a hole: nothing, a move that passes no hole, or an empty area just there. */
  lemma SlotBelowHole(table: seq<Entry>, k: nat, low: nat, size: nat, hole: nat)
    requires Layout(table) && Candidate(table, low) && k < |table|
    requires LOWEST <= low <= hole && IsHole(table, hole, size)
    ensures var e := table[k];
      && (EmptyAt(e, low) ==> Meets(e, low, size) && MovedBy(e, low) == low)
      && (Meets(e, low, size) && !EmptyAt(e, low) ==> low < MovedBy(e, low) <= hole && Candidate(table, MovedBy(e, low)))
  {
    hide Candidate, Touches, Meets, Layout, MovedBy, NextPage;
    var e := table[k];
    assert EntryOk(e) by { OneEntryOk(table, k); }
    assert !Touches(e, hole, size) && hole % CHUNK == 0;
    MeetsIff(e, low, size);
    if EmptyAt(e, low) {
      EmptyTouches(e, low, size);
    }
    if Touches(e, low, size) && !EmptyAt(e, low) {
      UsedTouches(e, low, size);
      EndIsNoCandidate(table, low, k);
      HoleIsBehind(e, low, size, hole);
      MovedBehind(e, low, hole);
      BehindIsCandidate(table, k);
    }
  }

  lemma MovedBehind(e: Entry, low: nat, hole: nat)
    requires low < e.address + e.size && NextPage(e.address + e.size) <= hole < 0x1_0000
    ensures MovedBy(e, low) == NextPage(e.address + e.size) > low
  {
    hide NextPage;
    PageBehind(e.address + e.size);
  }

  lemma OneEntryOk(table: seq<Entry>, k: nat)
    requires Layout(table) && k < |table|
    ensures EntryOk(table[k])
  {
  }

  lemma EmptyTouches(e: Entry, low: nat, size: nat)
    requires EmptyAt(e, low)
    ensures Touches(e, low, size) && MovedBy(e, low) == low
  {
  }

  lemma UsedTouches(e: Entry, low: nat, size: nat)
    requires EntryOk(e) && LOWEST <= low && Touches(e, low, size)
    ensures Used(e) && low <= e.address + e.size < 0x1_0000
  {
  }

  lemma BehindIsCandidate(table: seq<Entry>, k: nat)
    requires k < |table| && Used(table[k])
    ensures Candidate(table, NextPage(table[k].address + table[k].size))
  {
  }

  predicate EmptyFrom(table: seq<Entry>, k: nat, a: nat) {
    exists j: nat :: k <= j < |table| && EmptyAt(table[j], a)
  }

  lemma EmptyFromStep(table: seq<Entry>, k: nat, a: nat)
    requires k < |table|
    ensures EmptyFrom(table, k, a) <==> EmptyAt(table[k], a) || EmptyFrom(table, k + 1, a)
  {
    hide EmptyAt;
    if EmptyFrom(table, k, a) {
      var j: nat :| k <= j < |table| && EmptyAt(table[j], a);
      assert j == k || k + 1 <= j;
    }
  }

  /** A round below a hole climbs without passing it; it rests only if all is free or an empty area is just there. */
  lemma {:induction false} ScanBelowHole(table: seq<Entry>, k: nat, low: nat, size: nat, found: bool, hole: nat)
    requires Layout(table) && Candidate(table, low) && LOWEST <= low <= hole && IsHole(table, hole, size)
    ensures var r := Scan(table, k, low, size, found);
      && low <= r.0 <= hole && Candidate(table, r.0)
      && (r.0 == low ==> (r.1 <==> found && !EmptyFrom(table, k, low)))
    decreases MAX_HANDLES + 1 - k
  {
    hide Layout, Candidate, IsHole, Meets, MovedBy, EmptyAt, EmptyFrom;
    ScanStep(table, k, low, size, found);
    if k < MAX_HANDLES {
      assert |table| == MAX_HANDLES && Slot(table, k) == table[k] by { TableSize(table); }
      SlotBelowHole(table, k, low, size, hole);
      EmptyFromStep(table, k, low);
      if !Meets(table[k], low, size) {
        ScanBelowHole(table, k + 1, low, size, found, hole);
      } else {
        ScanBelowHole(table, k + 1, MovedBy(table[k], low), size, false, hole);
      }
    } else {
      assert !EmptyFrom(table, k, low) by { PastEnd(table, k, low); }
      if k == MAX_HANDLES {
        PastEnd(table, k, low);
        ScanStep(table, k + 1, low, size, found);
        assert !Meets(Slot(table, k), low, size) by { HoleSmall(table, size, hole); MeetsIff(EMPTY, low, size); }
      }
    }
  }

  lemma TableSize(table: seq<Entry>)
    requires Layout(table)
    ensures |table| == MAX_HANDLES
  {
  }

  lemma PastEnd(table: seq<Entry>, k: nat, a: nat)
    requires Layout(table) && k >= MAX_HANDLES
    ensures Slot(table, k) == EMPTY && !EmptyFrom(table, k, a)
  {
  }

  lemma {:induction false} LastBelowHole(table: seq<Entry>, size: nat, low: nat, hole: nat)
    requires Layout(table) && Candidate(table, low) && LOWEST <= low <= hole && IsHole(table, hole, size)
    ensures var last := Last(table, size, low);
      low <= last <= hole && Candidate(table, last) && Pass(table, last, size).0 == last
    decreases 0x1_0000 - low
  {
    hide Layout, Candidate, IsHole, Scan;
    ScanBelowHole(table, 0, low, size, true, hole);
    var next := Pass(table, low, size).0;
    if low < next {
      assert next < 0x1_0000 by { HoleSmall(table, size, hole); }
      LastBelowHole(table, size, next, hole);
    }
  }

  lemma HoleSmall(table: seq<Entry>, size: nat, hole: nat)
    requires IsHole(table, hole, size)
    ensures LOWEST <= hole && hole + size < 0x1_0000
  {
  }

  /** The area fits at `low`, and at no lower page. */
  ghost predicate LowestHole(table: seq<Entry>, low: nat, size: nat) {
    IsHole(table, low, size) && forall a: nat :: IsHole(table, a, size) ==> low <= a
  }

  /** An area of size 0 lies at this address. */
  predicate EmptyAreaAt(table: seq<Entry>, a: nat) {
    EmptyFrom(table, 0, a)
  }

  /**
   With room for the area, the search ends exactly if the climb does not come to stand on the address of an
   area of size 0, and then it gives the lowest address at which the area fits.
   */
  lemma WithRoom(table: seq<Entry>, size: nat, hole: nat)
    requires Layout(table) && IsHole(table, hole, size)
    ensures Ends(table, size) <==> !EmptyAreaAt(table, Last1(table, size))
    ensures Ends(table, size) ==> LowestHole(table, Search(table, size), size)
  {
    hide Layout, Candidate, IsHole, Scan, Last;
    var l1 := Last1(table, size);
    HoleSmall(table, size, hole);
    LayoutTop(table);
    EndsAtStandstill(table, size);
    assert Candidate(table, LOWEST) by { FirstIsCandidate(table); }
    LastBelowHole(table, size, LOWEST, hole);
    ScanBelowHole(table, 0, l1, size, true, hole);
    assert Last2(table, size) == l1 by { Rests(table, size, l1); }
    assert Pass(table, l1, size).1 <==> !EmptyAreaAt(table, l1);
    if Ends(table, size) {
      assert Free(table, l1, size) by { FreeIff(table, l1, size); }
      assert OnPage(l1) by { SearchOnPage(table, size); }
      FreeIsHole(table, l1, size);
      forall a: nat | IsHole(table, a, size)
        ensures l1 <= a
      {
        HoleSmall(table, size, a);
        LastBelowHole(table, size, LOWEST, a);
      }
    }
  }

  lemma FirstIsCandidate(table: seq<Entry>)
    ensures Candidate(table, LOWEST)
  {
  }

  lemma Rests(table: seq<Entry>, size: nat, low: nat)
    requires Pass(table, low, size).0 == low
    ensures Last(table, size, low) == low
  {
    hide Scan;
  }

  /** Without areas of size 0 room is always found. */
  lemma RoomIsFound(table: seq<Entry>, size: nat)
    requires Layout(table) && (forall k :: 0 <= k < |table| && Used(table[k]) ==> table[k].size > 0)
    requires exists a: nat :: IsHole(table, a, size)
    ensures Ends(table, size)
  {
    hide Layout, IsHole, Ends, Last1;
    var hole: nat :| IsHole(table, hole, size);
    WithRoom(table, size, hole);
  }

  // ---------------------------------------------------------------- without room

  /** Without room a search that ends gives a range that leaves the 16-bit address space. */
  lemma WithoutRoom(table: seq<Entry>, size: nat)
    requires Layout(table) && size < 0x1_0000 && Ends(table, size) && (forall a: nat :: !IsHole(table, a, size))
    ensures Search(table, size) + size > 0x1_0000
  {
    hide Layout, IsHole, Scan, Last, Ends, Search, OnPage, Touches, Contains;
    var low := Search(table, size);
    SearchOnPage(table, size);
    EndsIff(table, size);
    LastSmall(table, size, LOWEST);
    PassFinds(table, Last1(table, size), size);
    LastSmall(table, size, Pass(table, Last1(table, size), size).0);
    FreeIff(table, Last1(table, size), size);
    if low + size < 0x1_0000 {
      FreeIsHole(table, low, size);
    }
  }

  /** Putting an area into a hole keeps the layout. */
  lemma LayoutKept(table: seq<Entry>, h: nat, a: nat, kind: nat, size: nat)
    requires Layout(table) && h < |table| && IsHole(table, a, size)
    ensures Layout(table[h := Entry(a, kind, size)])
  {
    var t := table[h := Entry(a, kind, size)];
    forall i, j | 0 <= i < j < |t|
      ensures Apart(t[i], t[j])
    {
      if i == h {
        assert !Touches(table[j], a, size);
      } else if j == h {
        assert !Touches(table[i], a, size);
      } else {
        assert Apart(table[i], table[j]);
      }
    }
  }

  // ---------------------------------------------------------------- four directories

  /** Only the first two handles have areas. */
  predicate Two(table: seq<Entry>, e: Entry, f: Entry) {
    |table| == MAX_HANDLES && table[0] == e && table[1] == f && forall j :: 2 <= j < |table| ==> table[j] == EMPTY
  }

  function Seen(e: Entry, low: nat, size: nat, found: bool): (nat, bool) {
    if Meets(e, low, size) then (MovedBy(e, low), false) else (low, found)
  }

  lemma {:induction false} BlankScan(table: seq<Entry>, k: nat, low: nat, size: nat, found: bool)
    requires 0 < low < 0x1_0000 && size < 0x1_0000 && low + size != 0x1_0000
    requires forall j :: k <= j < |table| ==> table[j] == EMPTY
    ensures Scan(table, k, low, size, found) == (low, found)
    decreases MAX_HANDLES + 1 - k
  {
    hide Meets;
    if k <= MAX_HANDLES {
      MeetsIff(EMPTY, low, size);
      BlankScan(table, k + 1, low, size, found);
    }
  }

  lemma TwoPass(table: seq<Entry>, e: Entry, f: Entry, low: nat, size: nat)
    requires Two(table, e, f) && size < 0x1_0000
    requires var (next, found) := Seen(e, low, size, true);
      var last := Seen(f, next, size, found).0;
      0 < last < 0x1_0000 && last + size != 0x1_0000
    ensures var (next, found) := Seen(e, low, size, true);
      Pass(table, low, size) == Seen(f, next, size, found)
  {
    hide Meets, MovedBy, Scan;
    var (next, found) := Seen(e, low, size, true);
    ScanStep(table, 0, low, size, true);
    ScanStep(table, 1, next, size, found);
    var (last, all) := Seen(f, next, size, found);
    BlankScan(table, 2, last, size, all);
  }

  /** A search whose second round rests where the first one ended. */
  lemma SecondRoundRests(table: seq<Entry>, size: nat, low: nat)
    requires Layout(table) && LOWEST < low && Pass(table, LOWEST, size).0 == low && Pass(table, low, size).0 == low
    ensures Ends(table, size) <==> Pass(table, low, size).1
    ensures Ends(table, size) ==> Search(table, size) == low
  {
    hide Scan, Layout, Ends, Search;
    Rests(table, size, low);
    assert Last1(table, size) == low;
    LayoutTop(table);
    EndsAtStandstill(table, size);
  }

  lemma TwoLayout(table: seq<Entry>, e: Entry, f: Entry)
    requires Two(table, e, f) && EntryOk(e) && EntryOk(f) && Apart(e, f)
    ensures Layout(table)
  {
    hide EntryOk;
    assert EntryOk(EMPTY) by { EmptyOk(); }
    forall i, j | 0 <= i < j < |table|
      ensures Apart(table[i], table[j])
    {
      assert j == 1 || table[j] == EMPTY;
    }
  }

  lemma TwoHole(table: seq<Entry>, e: Entry, f: Entry, a: nat, size: nat)
    requires Two(table, e, f) && a % CHUNK == 0 && LOWEST <= a && a + size < 0x1_0000
    ensures IsHole(table, a, size) <==> !Touches(e, a, size) && !Touches(f, a, size)
  {
    hide Touches;
    assert !Touches(EMPTY, a, size) by { EmptyTouchesNone(a, size); }
    if !Touches(e, a, size) && !Touches(f, a, size) {
      forall k | 0 <= k < |table| ensures !Touches(table[k], a, size) {
        assert k < 2 || table[k] == EMPTY;
      }
    }
  }

  lemma EmptyTouchesNone(a: nat, size: nat)
    requires a > 0
    ensures !Touches(EMPTY, a, size)
  {
  }

  lemma NoHole(table: seq<Entry>, e: Entry, f: Entry, a: nat, size: nat)
    requires Two(table, e, f)
    requires a % CHUNK == 0 && LOWEST <= a && a + size < 0x1_0000 ==> Touches(e, a, size) || Touches(f, a, size)
    ensures !IsHole(table, a, size)
  {
    hide Touches;
    if IsHole(table, a, size) { TwoHole(table, e, f, a, size); }
  }

  lemma EmptyOk()
    ensures EntryOk(EMPTY)
  {
  }

  /** Without room the search may come back to itself for ever. */
  lemma FullMemoryHangs(table: seq<Entry>)
    requires Two(table, Entry(192, 4, 65000), EMPTY)
    ensures Layout(table) && (forall a: nat :: !IsHole(table, a, 1000)) && !Ends(table, 1000)
  {
    hide Pass, Layout, Ends, Search, IsHole, Meets;
    var e, f := Entry(192, 4, 65000), EMPTY;
    TwoLayout(table, e, f);
    forall a: nat ensures !IsHole(table, a, 1000) { NoHole(table, e, f, a, 1000); }
    MeetsIff(e, LOWEST, 1000);
    MeetsIff(f, 65216, 1000);
    MeetsIff(e, 65216, 1000);
    MeetsIff(f, 65216, 1000);
    TwoPass(table, e, f, LOWEST, 1000);
    TwoPass(table, e, f, 65216, 1000);
    SecondRoundRests(table, 1000, 65216);
  }

  /** Or it may hand out a range whose end has wrapped into the gap between two areas. */
  lemma FullMemoryWraps(table: seq<Entry>)
    requires Two(table, Entry(192, 4, 100), Entry(20032, 4, 45000))
    ensures Layout(table) && (forall a: nat :: !IsHole(table, a, 20000))
    ensures Ends(table, 20000) && Search(table, 20000) == 65088
  {
    hide Pass, Layout, Ends, Search, IsHole, Meets;
    var e, f := Entry(192, 4, 100), Entry(20032, 4, 45000);
    TwoLayout(table, e, f);
    forall a: nat ensures !IsHole(table, a, 20000) { NoHole(table, e, f, a, 20000); }
    MeetsIff(e, LOWEST, 20000);
    MeetsIff(f, 320, 20000);
    MeetsIff(e, 65088, 20000);
    MeetsIff(f, 65088, 20000);
    TwoPass(table, e, f, LOWEST, 20000);
    TwoPass(table, e, f, 65088, 20000);
    SecondRoundRests(table, 20000, 65088);
  }

  /** The search itself puts an area of size 0 behind another one, under a higher handle or a lower. */
  lemma EmptyAreaArises(table: seq<Entry>)
    requires Two(table, Entry(192, 4, 100), EMPTY) || Two(table, EMPTY, Entry(192, 4, 100))
    ensures Layout(table) && Ends(table, 0) && Search(table, 0) == 320
  {
    hide Pass, Layout, Ends, Search, Meets;
    var e, f := table[0], table[1];
    TwoLayout(table, e, f);
    MeetsIff(e, LOWEST, 0);
    MeetsIff(f, LOWEST, 0);
    MeetsIff(e, 320, 0);
    MeetsIff(f, 320, 0);
    TwoPass(table, e, f, LOWEST, 0);
    TwoPass(table, e, f, 320, 0);
    SecondRoundRests(table, 0, 320);
  }

  /** An area of size 0 stops the search if it is left standing on it ... */
  lemma EmptyAreaHangs(table: seq<Entry>)
    requires Two(table, Entry(192, 4, 100), Entry(320, 4, 0))
    ensures Layout(table) && IsHole(table, 384, 200) && !Ends(table, 200)
  {
    hide Pass, Layout, Ends, Search, IsHole, Meets;
    var e, f := Entry(192, 4, 100), Entry(320, 4, 0);
    TwoLayout(table, e, f);
    assert IsHole(table, 384, 200) by { TwoHole(table, e, f, 384, 200); }
    MeetsIff(e, LOWEST, 200);
    MeetsIff(f, 320, 200);
    MeetsIff(e, 320, 200);
    MeetsIff(f, 320, 200);
    TwoPass(table, e, f, LOWEST, 200);
    TwoPass(table, e, f, 320, 200);
    SecondRoundRests(table, 200, 320);
  }

  /** ... but not if, with the same two areas under exchanged handles, it is carried past. */
  lemma EmptyAreaPassed(table: seq<Entry>)
    requires Two(table, Entry(320, 4, 0), Entry(192, 4, 100))
    ensures Layout(table) && Ends(table, 200) && Search(table, 200) == 384
  {
    hide Pass, Layout, Ends, Search, IsHole, Meets;
    var e, f := Entry(320, 4, 0), Entry(192, 4, 100);
    TwoLayout(table, e, f);
    MeetsIff(e, LOWEST, 200);
    MeetsIff(f, 384, 200);
    MeetsIff(e, 384, 200);
    MeetsIff(f, 384, 200);
    TwoPass(table, e, f, LOWEST, 200);
    TwoPass(table, e, f, 384, 200);
    SecondRoundRests(table, 200, 384);
  }
}
