/** Whole runs of storage requests, creation of areas, and reboots. */
module StorageRuns {
  import opened FixedWidth
  import opened ByteOrder
  import opened StorageAllocator
  import opened StorageSearch
  import opened StorageMachine
  import opened StorageContents

  // ---------------------------------------------------------------- creation

  predicate CanCreate(h: nat, size: nat, kind: nat) {
    && h < MAX_HANDLES && Managed(kind)
    && size + (if kind == CHECKSUM_STRUCT then HEADER_SIZE else 0) < 0x1_0000
  }

  /** The area fits somewhere, and the search does not get stuck before it. */
  ghost predicate HasRoom(s: State, size: nat, kind: nat) {
    (exists a: nat :: IsHole(s.table, a, StoredSize(kind, size))) && Ends(s.table, StoredSize(kind, size))
  }

  ghost function NewEntry(s: State, size: nat, kind: nat): Entry
    requires Ends(s.table, StoredSize(kind, size))
  {
    Entry(Search(s.table, StoredSize(kind, size)), kind, StoredSize(kind, size))
  }

  /** Every search that ends, with room or without, is followed by an entry and a positive answer. */
  lemma CreateRound(crc: seq<Byte> -> nat, s: State, h: nat, size: nat, kind: nat)
    requires Formatted(crc, s) && h < MAX_HANDLES && Managed(kind) && Ends(s.table, StoredSize(kind, size))
    ensures var x := Settle(crc, RequestCreate(s, h, size, kind).0, 3);
      var t := s.table[h := NewEntry(s, size, kind)];
      && RequestCreate(s, h, size, kind).1
      && x.table == t && x.checksum == TableChecksum(crc, t) && x.preamble == s.preamble
      && x.nv == Patch(s.nv, 0, TableImage(t, x.checksum, x.preamble))
      && x.status == Waiting && x.transfer == Idle && x.header == s.header
      && x.replies == s.replies + [true]
  {
    hide Directory;
    hide TableImage;
    hide TableChecksum;
    hide Settle;
    hide Ends;
    EntryFacts(crc, s, h);
    var s1 := RequestCreate(s, h, size, kind).0;
    assert Ready(s1);
    var t := s.table[h := NewEntry(s, size, kind)];
    ImageSize(t, TableChecksum(crc, t), s.preamble);
    SettlesIn1(crc, s1, Round(crc, s1));
  }

  lemma ImageSize(table: seq<Entry>, checksum: nat, preamble: seq<Byte>)
    requires |table| == MAX_HANDLES && |preamble| == 4
    ensures |TableImage(table, checksum, preamble)| == TABLE_SIZE
  {
  }

  /**
   Creating an area puts it at the lowest free page-aligned range; the directory stays well
   laid out and stored, and no other handle's content changes.
   */
  lemma CreateAllocates(crc: seq<Byte> -> nat, s: State, h: nat, size: nat, kind: nat)
    requires Formatted(crc, s) && CanCreate(h, size, kind) && HasRoom(s, size, kind)
    ensures var x := Settle(crc, RequestCreate(s, h, size, kind).0, 3);
      && Formatted(crc, x)
      && x.table == s.table[h := NewEntry(s, size, kind)]
      && LowestHole(s.table, Search(s.table, StoredSize(kind, size)), StoredSize(kind, size))
      && (forall g: nat :: g < MAX_HANDLES && g != h ==> ContentOf(crc, x, g) == ContentOf(crc, s, g))
      && x.replies == s.replies + [true]
  {
    hide Settle;
    hide ContentAt;
    hide TableImage;
    hide TableChecksum;
    hide IsHole;
    hide Ends;
    hide Search;
    CreateRound(crc, s, h, size, kind);
    var x := Settle(crc, RequestCreate(s, h, size, kind).0, 3);
    var stored := StoredSize(kind, size);
    var hole: nat :| IsHole(s.table, hole, stored);
    WithRoom(s.table, stored, hole);
    LayoutKept(s.table, h, Search(s.table, stored), kind, stored);
    HoleSmall(s.table, stored, Search(s.table, stored));
    CreatedKinds(s.table, h, Search(s.table, stored), kind, size);
    ImageSize(x.table, x.checksum, x.preamble);
    assert x.nv[..TABLE_SIZE] == x.nv[0..0 + TABLE_SIZE];
    assert Formatted(crc, x);
    forall g: nat | g < MAX_HANDLES && g != h
      ensures ContentOf(crc, x, g) == ContentOf(crc, s, g)
    {
      BelowAreas(crc, s, x, g);
    }
  }

  /** Without room a creation whose search ends is answered with success all the same, for an area that leaves the memory. */
  lemma CreateWithoutRoom(crc: seq<Byte> -> nat, s: State, h: nat, size: nat, kind: nat)
    requires Formatted(crc, s) && CanCreate(h, size, kind)
    requires Ends(s.table, StoredSize(kind, size)) && forall a: nat :: !IsHole(s.table, a, StoredSize(kind, size))
    ensures var x := Settle(crc, RequestCreate(s, h, size, kind).0, 3);
      x.replies == s.replies + [true] && h < |x.table| && x.table[h].address + x.table[h].size > NV_SIZE
  {
    hide Settle, TableImage, TableChecksum, IsHole, Ends, Search, ContentAt;
    CreateRound(crc, s, h, size, kind);
    WithoutRoom(s.table, StoredSize(kind, size));
  }

  /** A checksummed area whose size with header goes beyond 16 bits is created smaller than its header, with success. */
  lemma OversizeWraps(crc: seq<Byte> -> nat, s: State, h: nat, size: nat)
    requires Formatted(crc, s) && h < MAX_HANDLES && 0x1_0000 - HEADER_SIZE <= size < 0x1_0000
    requires Ends(s.table, StoredSize(CHECKSUM_STRUCT, size))
    ensures var x := Settle(crc, RequestCreate(s, h, size, CHECKSUM_STRUCT).0, 3);
      && x.replies == s.replies + [true] && h < |x.table|
      && x.table[h].size == size + HEADER_SIZE - 0x1_0000 < HEADER_SIZE
  {
    hide Settle, TableImage, TableChecksum, Ends, Search, Layout, ContentAt;
    CreateRound(crc, s, h, size, CHECKSUM_STRUCT);
    EntryFacts(crc, s, h);
  }

  /** A creation of size 0 is accepted and completed like any other; the area then refuses every read and write. */
  lemma EmptyAreaCreated(crc: seq<Byte> -> nat, s: State, h: nat, data: seq<Byte>)
    requires Formatted(crc, s) && h < MAX_HANDLES && HasRoom(s, 0, SELF_MANAGED)
    ensures var x := Settle(crc, RequestCreate(s, h, 0, SELF_MANAGED).0, 3);
      && Formatted(crc, x) && x.replies == s.replies + [true] && h < |x.table|
      && EmptyAt(x.table[h], Search(s.table, 0))
      && RequestWrite(x, h, data) == (x, false) && RequestRead(x, h, data) == (x, false)
  {
    hide Settle, Directory, Ends, Search, IsHole, ContentAt, Formatted;
    CreateAllocates(crc, s, h, 0, SELF_MANAGED);
    var x := Settle(crc, RequestCreate(s, h, 0, SELF_MANAGED).0, 3);
    EntryFacts(crc, s, h);
    HoleSmall(s.table, 0, Search(s.table, 0));
  }

  lemma CreatedKinds(table: seq<Entry>, h: nat, a: nat, kind: nat, size: nat)
    requires Kinds(table) && h < |table| && CanCreate(h, size, kind) && a >= LOWEST
    ensures Kinds(table[h := Entry(a, kind, StoredSize(kind, size))])
  {
  }

  /** Writing the directory reaches no area. */
  lemma BelowAreas(crc: seq<Byte> -> nat, s: State, x: State, g: nat)
    requires Formatted(crc, s) && Formatted(crc, x) && g < MAX_HANDLES && x.table[g] == s.table[g]
    requires forall i :: TABLE_SIZE <= i < NV_SIZE ==> x.nv[i] == s.nv[i]
    ensures ContentOf(crc, x, g) == ContentOf(crc, s, g)
  {
    hide TableImage;
    hide TableValid;
    EntryFacts(crc, s, g);
    ContentFrame(crc, s.nv, x.nv, Entry(0, 0, TABLE_SIZE), s.table[g], g);
  }

  // ---------------------------------------------------------------- runs

  datatype Op =
    | WriteOp(h: nat, data: seq<Byte>)
    | ReadOp(h: nat, area: seq<Byte>)
    | CreateOp(h: nat, size: nat, kind: nat)
    | ClearOp(h: nat)

  /** What callers must respect: 16-bit sizes, and for creation a handle, a size and room. */
  ghost predicate Proper(s: State, op: Op) {
    match op
    case WriteOp(h, data) => |data| < 0x1_0000
    case ReadOp(h, area) => |area| < 0x1_0000
    case CreateOp(h, size, kind) => Managed(kind) ==> CanCreate(h, size, kind) && HasRoom(s, size, kind)
    case ClearOp(_) => true
  }

  ghost function Request(s: State, op: Op): (State, bool) {
    match op
    case WriteOp(h, data) => RequestWrite(s, h, data)
    case ReadOp(h, area) => RequestRead(s, h, area)
    case CreateOp(h, size, kind) => RequestCreate(s, h, size, kind)
    case ClearOp(h) => RequestClear(s, h)
  }

  /** The request made and, if accepted, run to completion. */
  ghost function Perform(crc: seq<Byte> -> nat, s: State, op: Op): State {
    var (s1, accepted) := Request(s, op);
    if accepted then Settle(crc, s1, 3) else s1
  }

  /** The content of handle `h`, an area with entry `e`, after `op`, if it was `c` before. */
  function After(e: Entry, h: nat, c: Content, op: Op): Content
    requires c.Bytes? && e.kind != CHECKSUM_STRUCT ==> |c.data| == e.size
  {
    match op
    case WriteOp(g, data) => if g == h && Live(e) && |data| == DataSize(e) then Bytes(data) else c
    case ClearOp(g) => if g == h && Live(e) then Cleared(e, c) else c
    case _ => c
  }

  lemma SelfManagedSize(crc: seq<Byte> -> nat, s: State, h: nat)
    requires Formatted(crc, s) && h < MAX_HANDLES
    ensures ContentOf(crc, s, h).Bytes? && s.table[h].kind != CHECKSUM_STRUCT ==> |ContentOf(crc, s, h).data| == s.table[h].size
  {
    hide HeaderValid;
    EntryFacts(crc, s, h);
  }

  /** One completed request, as every handle it does not recreate sees it. */
  lemma PerformRefines(crc: seq<Byte> -> nat, s: State, op: Op, h: nat)
    requires Formatted(crc, s) && Proper(s, op) && h < MAX_HANDLES && (op.CreateOp? ==> op.h != h)
    ensures var x := Perform(crc, s, op);
      && Formatted(crc, x) && x.table[h] == s.table[h]
      && (SelfManagedSize(crc, s, h); ContentOf(crc, x, h) == After(s.table[h], h, ContentOf(crc, s, h), op))
  {
    hide Settle;
    hide Directory;
    hide ContentOf;
    hide Cleared;
    EntryFacts(crc, s, h);
    SelfManagedSize(crc, s, h);
    match op
    case WriteOp(g, data) => PerformWrite(crc, s, g, data, h);
    case ReadOp(g, area) => PerformRead(crc, s, g, area, h);
    case CreateOp(g, size, kind) =>
      if Managed(kind) { CreateAllocates(crc, s, g, size, kind); } else { SameContent(crc, s, RequestCreate(s, g, size, kind).0, h); }
    case ClearOp(g) => PerformClear(crc, s, g, h);
  }

  lemma SameContent(crc: seq<Byte> -> nat, s: State, x: State, h: nat)
    requires Formatted(crc, s) && h < MAX_HANDLES
    requires x.table == s.table && x.nv == s.nv && x.checksum == s.checksum && x.preamble == s.preamble
    requires x.status == Waiting && x.transfer == Idle && |x.header.preamble| == 4
    ensures Formatted(crc, x) && ContentOf(crc, x, h) == ContentOf(crc, s, h)
  {
    hide ContentAt;
  }

  lemma PerformWrite(crc: seq<Byte> -> nat, s: State, g: nat, data: seq<Byte>, h: nat)
    requires Formatted(crc, s) && |data| < 0x1_0000 && h < MAX_HANDLES
    ensures var x := Perform(crc, s, WriteOp(g, data));
      && Formatted(crc, x) && x.table == s.table
      && ContentOf(crc, x, h) == (if g == h && Live(s.table[h]) && |data| == DataSize(s.table[h]) then Bytes(data) else ContentOf(crc, s, h))
  {
    hide Settle;
    hide Directory;
    hide ContentOf;
    hide OthersKept;
    EntryFacts(crc, s, h);
    if RequestWrite(s, g, data).1 {
      WriteStores(crc, s, g, data);
      FromKept(crc, s, Settle(crc, RequestWrite(s, g, data).0, 3), g);
      Accepted(crc, s, g, data);
    } else {
      SameContent(crc, s, RequestWrite(s, g, data).0, h);
      if g < MAX_HANDLES { Accepted(crc, s, g, data); }
    }
  }

  lemma PerformRead(crc: seq<Byte> -> nat, s: State, g: nat, area: seq<Byte>, h: nat)
    requires Formatted(crc, s) && |area| < 0x1_0000 && h < MAX_HANDLES
    ensures var x := Perform(crc, s, ReadOp(g, area));
      && Formatted(crc, x) && x.table == s.table && ContentOf(crc, x, h) == ContentOf(crc, s, h)
  {
    hide Settle;
    hide Directory;
    hide ContentAt;
    EntryFacts(crc, s, h);
    if RequestRead(s, g, area).1 {
      ReadReports(crc, s, g, area);
    } else {
      SameContent(crc, s, RequestRead(s, g, area).0, h);
    }
  }

  lemma PerformClear(crc: seq<Byte> -> nat, s: State, g: nat, h: nat)
    requires Formatted(crc, s) && h < MAX_HANDLES
    ensures var x := Perform(crc, s, ClearOp(g));
      && Formatted(crc, x) && x.table == s.table
      && (ContentOf(crc, s, h).Bytes? && s.table[h].kind != CHECKSUM_STRUCT ==> |ContentOf(crc, s, h).data| == s.table[h].size)
      && ContentOf(crc, x, h) == (if g == h && Live(s.table[h]) then Cleared(s.table[h], ContentOf(crc, s, h)) else ContentOf(crc, s, h))
  {
    hide Settle;
    hide Directory;
    hide ContentOf;
    hide OthersKept;
    hide Cleared;
    EntryFacts(crc, s, h);
    SelfManagedSize(crc, s, h);
    if g < MAX_HANDLES && Live(s.table[g]) {
      ClearErases(crc, s, g);
      FromKept(crc, s, Settle(crc, RequestClear(s, g).0, 3), g);
    } else {
      ClearRefused(crc, s, g);
      SameContent(crc, s, Perform(crc, s, ClearOp(g)), h);
    }
  }

  lemma ClearRefused(crc: seq<Byte> -> nat, s: State, g: nat)
    requires Formatted(crc, s) && !(g < MAX_HANDLES && Live(s.table[g]))
    ensures Perform(crc, s, ClearOp(g)) == s.(handle := g, replies := s.replies + [false])
  {
    hide Directory;
    hide Settle;
    EntryFacts(crc, s, 0);
    if g < MAX_HANDLES { EntryFacts(crc, s, g); }
    var s1 := RequestClear(s, g).0;
    SettlesIn1(crc, s1, Round(crc, s1));
  }

  ghost predicate ProperRun(crc: seq<Byte> -> nat, s: State, ops: seq<Op>)
    decreases |ops|
  {
    ops == [] || (Proper(s, ops[0]) && ProperRun(crc, Perform(crc, s, ops[0]), ops[1..]))
  }

  ghost function Run(crc: seq<Byte> -> nat, s: State, ops: seq<Op>): State
    decreases |ops|
  {
    if ops == [] then s else Run(crc, Perform(crc, s, ops[0]), ops[1..])
  }

  /** Writes and clears of `h` that its area accepts. */
  predicate Changes(e: Entry, h: nat, op: Op) {
    match op
    case WriteOp(g, data) => g == h && Live(e) && |data| == DataSize(e)
    case ClearOp(g) => g == h && Live(e)
    case _ => false
  }

  predicate Recreates(h: nat, op: Op) {
    op.CreateOp? && op.h == h
  }

  /** Over any run of requests that does not recreate `h`: its entry stays, and so does its content while nothing changes it. */
  lemma {:induction false} RunKeeps(crc: seq<Byte> -> nat, s: State, ops: seq<Op>, h: nat)
    requires Formatted(crc, s) && ProperRun(crc, s, ops) && h < MAX_HANDLES
    requires forall k :: 0 <= k < |ops| ==> !Recreates(h, ops[k])
    ensures var x := Run(crc, s, ops);
      && Formatted(crc, x) && x.table[h] == s.table[h]
      && ((forall k :: 0 <= k < |ops| ==> !Changes(s.table[h], h, ops[k])) ==> ContentOf(crc, x, h) == ContentOf(crc, s, h))
    decreases |ops|
  {
    hide Perform;
    hide Formatted;
    hide ContentOf;
    hide Proper;
    hide Cleared;
    if ops != [] {
      assert !Recreates(h, ops[0]);
      PerformRefines(crc, s, ops[0], h);
      RunKeeps(crc, Perform(crc, s, ops[0]), ops[1..], h);
    }
  }

  /**
   Over any run in which `h` is written with `data` and afterwards neither rewritten,
   cleared nor recreated, a read of `h` succeeds and delivers `data`.
   */
  lemma ReadReturnsLastWrite(crc: seq<Byte> -> nat, s: State, h: nat, data: seq<Byte>, ops: seq<Op>, area: seq<Byte>)
    requires Formatted(crc, s) && h < MAX_HANDLES && Live(s.table[h]) && |data| == DataSize(s.table[h]) == |area|
    requires Proper(s, WriteOp(h, data)) && ProperRun(crc, Perform(crc, s, WriteOp(h, data)), ops)
    requires forall k :: 0 <= k < |ops| ==> !Recreates(h, ops[k]) && !Changes(s.table[h], h, ops[k])
    ensures var y := Run(crc, Perform(crc, s, WriteOp(h, data)), ops);
      var x := Perform(crc, y, ReadOp(h, area));
      x.replies == y.replies + [true] && x.buffer == data
  {
    hide Settle;
    hide Run;
    hide Directory;
    hide ContentAt;
    EntryFacts(crc, s, h);
    PerformRefines(crc, s, WriteOp(h, data), h);
    var w := Perform(crc, s, WriteOp(h, data));
    RunKeeps(crc, w, ops, h);
    var y := Run(crc, w, ops);
    EntryFacts(crc, y, h);
    Accepted(crc, y, h, area);
    ReadReports(crc, y, h, area);
  }

  /** After a clear of a checksummed area every read fails until the next write or creation. */
  lemma {:induction false} ReadFailsAfterClear(crc: seq<Byte> -> nat, s: State, h: nat, ops: seq<Op>, area: seq<Byte>)
    requires Formatted(crc, s) && h < MAX_HANDLES && Live(s.table[h]) && s.table[h].kind == CHECKSUM_STRUCT
    requires |area| == DataSize(s.table[h]) && ProperRun(crc, Perform(crc, s, ClearOp(h)), ops)
    requires forall k :: 0 <= k < |ops| ==> !Recreates(h, ops[k]) && !Changes(s.table[h], h, ops[k])
    ensures var y := Run(crc, Perform(crc, s, ClearOp(h)), ops);
      Perform(crc, y, ReadOp(h, area)).replies == y.replies + [false]
  {
    hide Settle;
    hide Run;
    hide Directory;
    hide ContentAt;
    EntryFacts(crc, s, h);
    PerformRefines(crc, s, ClearOp(h), h);
    var c := Perform(crc, s, ClearOp(h));
    RunKeeps(crc, c, ops, h);
    var y := Run(crc, c, ops);
    EntryFacts(crc, y, h);
    Accepted(crc, y, h, area);
    ReadReports(crc, y, h, area);
  }

  // ---------------------------------------------------------------- reboot

  /** Power cycled: the EEPROM is as it was, nothing in RAM is to be relied on. */
  predicate Rebooted(s: State, ram: State) {
    && ram.nv == s.nv && ram.status == Start && ram.transfer == Idle
    && |ram.table| == MAX_HANDLES && |ram.preamble| == 4 && |ram.header.preamble| == 4 && ram.checksum < 0x1_0000
  }

  /** Two service turns later the directory is back and every handle has the content it had. */
  lemma RebootKeeps(crc: seq<Byte> -> nat, s: State, ram: State, h: nat)
    requires Formatted(crc, s) && Rebooted(s, ram) && h < MAX_HANDLES
    ensures var x := Settle(crc, ram, 3);
      Formatted(crc, x) && x.table == s.table && ContentOf(crc, x, h) == ContentOf(crc, s, h)
  {
    hide Settle;
    hide Layout;
    hide Kinds;
    hide TableChecksum;
    hide ContentAt;
    hide EntriesOf;
    hide TableImage;
    DirectoryReadBack(crc, s);
    var s1 := Round(crc, ram);
    assert s1.status == CheckTable && s1.table == s.table && s1.checksum == s.checksum && s1.preamble == s.preamble;
    SettlesIn2(crc, ram, s1, Round(crc, s1));
  }

  lemma DirectoryReadBack(crc: seq<Byte> -> nat, s: State)
    requires Formatted(crc, s)
    ensures |s.nv| == NV_SIZE && |s.preamble| == 4 && s.checksum < 0x1_0000 && |s.table| == MAX_HANDLES
    ensures s.nv[..4] == s.preamble && EntriesOf(s.nv[4..184]) == s.table && WordAt(s.nv[184..186], 0) == s.checksum
  {
    hide EntriesOf;
    hide EntriesImage;
    hide TableChecksum;
    hide Word;
    hide WordAt;
    SmallEntries(s.table);
    ImageParts(s.nv, s.table, s.checksum, s.preamble);
    EntriesRoundTrip(s.table);
    ChecksumIs16Bit(crc, s.table);
    WordRoundTrip(s.checksum);
  }

  lemma ChecksumIs16Bit(crc: seq<Byte> -> nat, table: seq<Entry>)
    requires |table| > 0
    ensures TableChecksum(crc, table) < 0x1_0000
  {
  }

  lemma SmallEntries(table: seq<Entry>)
    requires Layout(table) && Kinds(table)
    ensures forall k :: 0 <= k < |table| ==> table[k].address < 0x1_0000 && table[k].kind < 0x1_0000 && table[k].size < 0x1_0000
  {
    forall k | 0 <= k < |table|
      ensures table[k].address < 0x1_0000 && table[k].kind < 0x1_0000 && table[k].size < 0x1_0000
    {
      assert EntryOk(table[k]) && EntryKind(table[k]);
    }
  }

  lemma ImageParts(nv: seq<Byte>, table: seq<Entry>, checksum: nat, preamble: seq<Byte>)
    requires |table| == MAX_HANDLES && |preamble| == 4 && |nv| == NV_SIZE
    requires nv[..TABLE_SIZE] == TableImage(table, checksum, preamble)
    ensures nv[..4] == preamble && nv[4..184] == EntriesImage(table) && nv[184..186] == Word(checksum)
  {
    hide EntriesImage;
    var t := nv[..TABLE_SIZE];
    assert nv[..4] == t[..4] && nv[4..184] == t[4..184] && nv[184..186] == t[184..186];
  }

  // ---------------------------------------------------------------- a failed data write

  /**
   A data write that fails in the EEPROM is reported as failed and then carried on with: the user
   hears a second answer, which is positive unless there is a header and that is not written either.
   */
  lemma FailedWriteAnswersTwice(crc: seq<Byte> -> nat, s: State, h: nat, data: seq<Byte>, ready: bool, success: bool)
    requires Formatted(crc, s) && h < MAX_HANDLES && |data| < 0x1_0000 && RequestWrite(s, h, data).1
    ensures var s1 := RequestWrite(s, h, data).0;
      && Ready(s1) && TransferOk(Service(crc, s1, true))
      && var failed := Complete(Service(crc, s1, true), false);
      && failed.status == WritingDataComplete && failed.replies == s.replies + [false] && Ready(failed)
      && TransferOk(Service(crc, failed, ready))
      && var x := Complete(Service(crc, failed, ready), success);
      x.status == Waiting && x.replies == s.replies + [false, s.table[h].kind == SELF_MANAGED || (ready && success)]
  {
    hide Directory;
    EntryFacts(crc, s, h);
    Accepted(crc, s, h, data);
    var s1 := RequestWrite(s, h, data).0;
    assert Ready(s1);
    var failed := Complete(Service(crc, s1, true), false);
    assert failed.status == WritingDataComplete && failed.replies == s.replies + [false] && Ready(failed);
    assert (s.replies + [false]) + [true] == s.replies + [false, true];
    assert (s.replies + [false]) + [false] == s.replies + [false, false];
  }
}
