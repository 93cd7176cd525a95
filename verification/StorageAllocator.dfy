/**
 The search of the storage directory for room: `data_storage_find_hole`.

 Rounds over the table move a candidate address on until one round meets nothing in the way.
 Neither the end of the address space nor areas of size 0 are provided for, so a search may
 come back to where it was and never end; `StorageSearch` says when.
 */
module StorageAllocator {
  import opened FixedWidth

  const CHUNK := 64
  const MAX_HANDLES := 30
  const TABLE_SIZE := 186      // preamble 4, 30 entries of 6 bytes, checksum 2
  const LOWEST := 192          // the first page above the table

  /** A directory entry; address 0 is a handle without an area. */
  datatype Entry = Entry(address: nat, kind: nat, size: nat)

  const EMPTY := Entry(0, 0, 0)

  /** The start of the page after the one `address` lies in. */
  function NextPage(address: nat): nat {
    (address / CHUNK + 1) * CHUNK
  }

  lemma PageBehind(address: nat)
    ensures NextPage(address) % CHUNK == 0 && address < NextPage(address) <= address + CHUNK
  {
    assert address == address / CHUNK * CHUNK + address % CHUNK;
  }

  /** The area of the entry and the range `low..low + size` share an address, end points included. */
  predicate Touches(e: Entry, low: nat, size: nat) {
    e.address <= low + size && low <= e.address + e.size
  }

  /** The three comparisons of the scan. */
  predicate Overlap(min: nat, max: nat, low: nat, high: nat) {
    || (min <= low && max >= low)
    || (min <= high && max >= high)
    || (min >= low && min <= high)
  }

  /** The three comparisons find exactly the ranges that share an address. */
  lemma OverlapIsTouching(e: Entry, low: nat, size: nat)
    ensures Overlap(e.address, e.address + e.size, low, low + size) <==> Touches(e, low, size)
  {
  }

  /** A page-aligned range above the table, inside the 16-bit address space, away from every area. */
  predicate IsHole(table: seq<Entry>, a: nat, size: nat) {
    && a % CHUNK == 0 && LOWEST <= a && a + size < 0x1_0000
    && forall k :: 0 <= k < |table| ==> !Touches(table[k], a, size)
  }

  predicate Used(e: Entry) { e.address != 0 }

  /** An area that requests accept; one of size 0 takes up its address only. */
  predicate Live(e: Entry) { Used(e) && e.size != 0 }

  /** The invariant of the directory: areas are page-aligned, above the table, inside the address space, and apart. */
  predicate Layout(table: seq<Entry>) {
    && |table| == MAX_HANDLES
    && (forall k :: 0 <= k < |table| ==> EntryOk(table[k]))
    && (forall i, j :: 0 <= i < j < |table| ==> Apart(table[i], table[j]))
  }

  predicate EntryOk(e: Entry) {
    if Used(e) then e.address % CHUNK == 0 && LOWEST <= e.address && e.address + e.size < 0x1_0000
    else e.size == 0
  }

  predicate Apart(e: Entry, f: Entry) {
    Used(e) && Used(f) ==> e.address + e.size < f.address || f.address + f.size < e.address
  }

  // ---------------------------------------------------------------- one round

  /** The slot the scan sees at `k`; it also looks at the one past the table, taken to be empty. */
  function Slot(table: seq<Entry>, k: nat): Entry {
    if k < |table| then table[k] else EMPTY
  }

  /** Does the entry meet the candidate range, whose upper end may have wrapped around? */
  predicate Meets(e: Entry, low: nat, size: nat) {
    Overlap(e.address, U16(e.address + e.size), low, U16(low + size))
  }

  /** Where an entry in the way leaves the candidate address. */
  function MovedBy(e: Entry, low: nat): nat {
    var max := U16(e.address + e.size);
    if max > low then U16(NextPage(max)) else low
  }

  /** The scan from slot `k` on: the address moved to, and whether no overlap was seen. */
  function Scan(table: seq<Entry>, k: nat, low: nat, size: nat, found: bool): (r: (nat, bool))
    ensures r.0 == low || r.0 < 0x1_0000
    decreases MAX_HANDLES + 1 - k
  {
    if k > MAX_HANDLES then (low, found)
    else if !Meets(Slot(table, k), low, size) then Scan(table, k + 1, low, size, found)
    else Scan(table, k + 1, MovedBy(Slot(table, k), low), size, false)
  }

  /** One round over the table. */
  function Pass(table: seq<Entry>, low: nat, size: nat): (nat, bool) {
    Scan(table, 0, low, size, true)
  }

  /** A round succeeds exactly if no slot meets the range it started with. */
  lemma {:induction false} ScanFinds(table: seq<Entry>, k: nat, low: nat, size: nat, found: bool)
    ensures var r := Scan(table, k, low, size, found);
      && (r.1 ==> r.0 == low)
      && (r.1 <==> found && forall j: nat :: k <= j <= MAX_HANDLES ==> !Meets(Slot(table, j), low, size))
    decreases MAX_HANDLES + 1 - k
  {
    hide Meets, Slot, MovedBy;
    if k <= MAX_HANDLES {
      if Meets(Slot(table, k), low, size) {
        ScanFinds(table, k + 1, MovedBy(Slot(table, k), low), size, false);
      } else {
        ScanFinds(table, k + 1, low, size, found);
      }
    }
  }

  // ---------------------------------------------------------------- the search

  /** The address and the flag after `n` rounds. */
  function Rounds(table: seq<Entry>, size: nat, n: nat): (nat, bool) {
    if n == 0 then (LOWEST, false)
    else
      var (low, found) := Rounds(table, size, n - 1);
      if found then (low, found) else Pass(table, low, size)
  }

  /** Some round succeeds. */
  ghost predicate Ends(table: seq<Entry>, size: nat) {
    exists n: nat :: Rounds(table, size, n).1
  }

  /** The address a search that ends hands out. */
  ghost function Search(table: seq<Entry>, size: nat): (low: nat)
    requires Ends(table, size)
  {
    var n: nat :| Rounds(table, size, n).1;
    Rounds(table, size, n).0
  }

  lemma {:induction false} RoundsStay(table: seq<Entry>, size: nat, n: nat, m: nat)
    requires n <= m && Rounds(table, size, n).1
    ensures Rounds(table, size, m) == Rounds(table, size, n)
    decreases m
  {
    hide Pass;
    if n < m { RoundsStay(table, size, n, m - 1); }
  }

  lemma SearchIs(table: seq<Entry>, size: nat, n: nat)
    requires Rounds(table, size, n).1
    ensures Ends(table, size) && Search(table, size) == Rounds(table, size, n).0
  {
    hide Rounds;
    assert Ends(table, size);
    var m: nat :| Rounds(table, size, m).1 && Search(table, size) == Rounds(table, size, m).0;
    if m <= n { RoundsStay(table, size, m, n); } else { RoundsStay(table, size, n, m); }
  }

  /** `data_storage_find_hole`, which returns exactly if the search ends. */
  method FindHole(table: seq<Entry>, size: nat) returns (low: nat)
    requires Ends(table, size)
    ensures low == Search(table, size)
  {
    hide Ends, Search, Pass, NextPage;
    ghost var last: nat :| Rounds(table, size, last).1 by { RoundEnds(table, size); }
    low := U16(NextPage(TABLE_SIZE));
    FirstPage();
    var found := false;
    ghost var n := 0;
    while !found
      invariant (low, found) == Rounds(table, size, n) && n <= last
      decreases last - n
    {
      low, found := ScanTable(table, low, size);
      n := n + 1;
      if n > last { RoundsStay(table, size, last, n - 1); }
    }
    SearchIs(table, size, n);
  }

  lemma RoundEnds(table: seq<Entry>, size: nat)
    requires Ends(table, size)
    ensures exists n: nat :: Rounds(table, size, n).1
  {
  }

  lemma FirstPage()
    ensures U16(NextPage(TABLE_SIZE)) == LOWEST
  {
  }

  /** One round over the table. */
  method ScanTable(table: seq<Entry>, start: nat, size: nat) returns (low: nat, found: bool)
    ensures (low, found) == Pass(table, start, size)
  {
    hide NextPage, Overlap, Slot, Scan;
    low, found := start, true;
    var high := U16(start + size);
    var handle := 0;
    while handle <= MAX_HANDLES
      invariant 0 <= handle <= MAX_HANDLES + 1 && high == U16(low + size)
      invariant Pass(table, start, size) == Scan(table, handle, low, size, found)
    {
      var e := Slot(table, handle);
      var min, max := e.address, U16(e.address + e.size);
      ScanStep(table, handle, low, size, found);
      if Overlap(min, max, low, high) {
        if max > low {
          low := U16(NextPage(max));
          high := U16(low + size);
        }
        found := false;
      }
      handle := handle + 1;
    }
    ScanStep(table, handle, low, size, found);
  }

  lemma ScanStep(table: seq<Entry>, k: nat, low: nat, size: nat, found: bool)
    ensures Scan(table, k, low, size, found) ==
      if k > MAX_HANDLES then (low, found)
      else if !Meets(Slot(table, k), low, size) then Scan(table, k + 1, low, size, found)
      else Scan(table, k + 1, MovedBy(Slot(table, k), low), size, false)
  {
    hide Meets, Slot, MovedBy;
  }
}
