/**
 Seen from its users the storage service is a map from handles to byte strings:
 completed requests change exactly the content they name, and a reboot changes nothing.
 */
module StorageContents {
  import opened FixedWidth
  import opened StorageAllocator
  import opened StorageMachine

  /** What a read of a handle would report: nothing valid, or these bytes. */
  datatype Content = Missing | Bytes(data: seq<Byte>)

  predicate EntryKind(e: Entry) {
    if Used(e) then Managed(e.kind) && e.kind < 0x1_0000 && (e.kind == CHECKSUM_STRUCT ==> HEADER_SIZE <= e.size) else e == EMPTY
  }

  predicate Kinds(table: seq<Entry>) {
    forall k :: 0 <= k < |table| ==> EntryKind(table[k])
  }

  /** A well laid out, valid directory that is also what the EEPROM holds. */
  predicate Directory(crc: seq<Byte> -> nat, table: seq<Entry>, checksum: nat, preamble: seq<Byte>, nv: seq<Byte>) {
    && |nv| == NV_SIZE && Layout(table) && Kinds(table)
    && TableValid(crc, table, checksum, preamble)
    && nv[..TABLE_SIZE] == TableImage(table, checksum, preamble)
  }

  /** At rest with a directory. */
  predicate Formatted(crc: seq<Byte> -> nat, s: State) {
    && s.status == Waiting && s.transfer == Idle && |s.header.preamble| == 4
    && Directory(crc, s.table, s.checksum, s.preamble, s.nv)
  }

  function ContentAt(crc: seq<Byte> -> nat, nv: seq<Byte>, e: Entry, h: nat): Content
    requires |nv| == NV_SIZE && EntryFits(e) && EntryKind(e)
  {
    if !Live(e) then Missing
    else if e.kind == SELF_MANAGED then Bytes(nv[e.address..e.address + e.size])
    else
      var data := nv[e.address + HEADER_SIZE..e.address + e.size];
      if HeaderValid(crc, HeaderOf(nv[e.address..e.address + HEADER_SIZE]), h, data) then Bytes(data) else Missing
  }

  function ContentOf(crc: seq<Byte> -> nat, s: State, h: nat): Content
    requires Formatted(crc, s) && h < MAX_HANDLES
  {
    assert EntryOk(s.table[h]);
    ContentAt(crc, s.nv, s.table[h], h)
  }

  /** The EEPROM is the same but for addresses of `e`'s area. */
  predicate SameOutside(nv: seq<Byte>, nv1: seq<Byte>, e: Entry) {
    |nv| == |nv1| && forall i :: 0 <= i < |nv| && !(e.address <= i < e.address + e.size) ==> nv1[i] == nv[i]
  }

  lemma SameSlice(nv: seq<Byte>, nv1: seq<Byte>, e: Entry, lo: nat, hi: nat)
    requires SameOutside(nv, nv1, e) && lo <= hi <= |nv| && (hi <= e.address || e.address + e.size <= lo)
    ensures nv1[lo..hi] == nv[lo..hi]
  {
  }

  lemma ContentFrame(crc: seq<Byte> -> nat, nv: seq<Byte>, nv1: seq<Byte>, e: Entry, f: Entry, g: nat)
    requires |nv| == NV_SIZE && SameOutside(nv, nv1, e)
    requires EntryFits(f) && EntryKind(f) && (Used(f) ==> f.address + f.size < e.address || e.address + e.size < f.address)
    ensures ContentAt(crc, nv1, f, g) == ContentAt(crc, nv, f, g)
  {
    hide HeaderValid;
    hide HeaderOf;
    if Live(f) {
      SameSlice(nv, nv1, e, f.address, f.address + f.size);
      if f.kind == CHECKSUM_STRUCT {
        SameSlice(nv, nv1, e, f.address, f.address + HEADER_SIZE);
        SameSlice(nv, nv1, e, f.address + HEADER_SIZE, f.address + f.size);
      }
    }
  }

  /** Only area `h` was written to, and the machine is at rest again. */
  predicate OnlyAreaTouched(crc: seq<Byte> -> nat, s: State, x: State, h: nat)
    requires Formatted(crc, s) && h < MAX_HANDLES
  {
    && x.status == Waiting && x.transfer == Idle && |x.header.preamble| == 4
    && x.table == s.table && x.checksum == s.checksum && x.preamble == s.preamble
    && SameOutside(s.nv, x.nv, s.table[h])
  }

  /** ... so the directory and the contents of all other handles are untouched. */
  predicate OthersKept(crc: seq<Byte> -> nat, s: State, x: State, h: nat)
    requires Formatted(crc, s)
  {
    && Formatted(crc, x) && x.table == s.table
    && forall g: nat :: g < MAX_HANDLES && g != h ==> ContentOf(crc, x, g) == ContentOf(crc, s, g)
  }

  lemma TouchedKeepsOthers(crc: seq<Byte> -> nat, s: State, x: State, h: nat)
    requires Formatted(crc, s) && h < MAX_HANDLES && Used(s.table[h]) && OnlyAreaTouched(crc, s, x, h)
    ensures OthersKept(crc, s, x, h)
  {
    hide HeaderValid;
    hide TableImage;
    hide TableChecksum;
    hide ContentAt;
    var e := s.table[h];
    assert EntryOk(e);
    SameSlice(s.nv, x.nv, e, 0, TABLE_SIZE);
    assert Formatted(crc, x);
    forall g: nat | g < MAX_HANDLES && g != h
      ensures ContentOf(crc, x, g) == ContentOf(crc, s, g)
    {
      var f := s.table[g];
      assert EntryOk(f) && EntryKind(f);
      assert Apart(s.table[if g < h then g else h], s.table[if g < h then h else g]);
      ContentFrame(crc, s.nv, x.nv, e, f, g);
    }
  }

  // ---------------------------------------------------------------- one request at a time

  /** A service turn with the EEPROM ready, and the transfer it started run to success. */
  ghost function Round(crc: seq<Byte> -> nat, s: State): State
    requires Ready(s)
  {
    var x := Service(crc, s, true);
    if TransferOk(x) then Complete(x, true) else x
  }

  /** The size of data area `e` accepts. */
  function DataSize(e: Entry): int {
    if e.kind == CHECKSUM_STRUCT then e.size - HEADER_SIZE else e.size
  }

  lemma Accepted(crc: seq<Byte> -> nat, s: State, h: nat, data: seq<Byte>)
    requires Formatted(crc, s) && h < MAX_HANDLES && |data| < 0x1_0000
    ensures RequestWrite(s, h, data).1 == RequestRead(s, h, data).1
    ensures RequestWrite(s, h, data).1 <==> Live(s.table[h]) && |data| == DataSize(s.table[h])
  {
    assert EntryOk(s.table[h]) && EntryKind(s.table[h]);
    if Used(s.table[h]) && s.table[h].kind == CHECKSUM_STRUCT { SizeFits(s.table[h], |data|); }
  }

  lemma SizeFits(e: Entry, n: nat)
    requires HEADER_SIZE <= e.size < 0x1_0000 && n < 0x1_0000
    ensures U16(n + HEADER_SIZE) == e.size <==> n == e.size - HEADER_SIZE
  {
  }

  /** The write path of a checksummed area: the data behind the header, then the header. */
  lemma WriteChecked(crc: seq<Byte> -> nat, s: State, h: nat, data: seq<Byte>)
    requires Formatted(crc, s) && h < MAX_HANDLES && |data| < 0x1_0000 && RequestWrite(s, h, data).1
    requires s.table[h].kind == CHECKSUM_STRUCT
    ensures var s1 := RequestWrite(s, h, data).0;
      && Ready(s1) && Ready(Round(crc, s1))
      && var x := Round(crc, Round(crc, s1));
      && OnlyAreaTouched(crc, s, x, h)
      && x.replies == s.replies + [true]
      && var e := s.table[h];
      && x.nv[e.address..e.address + HEADER_SIZE] == HeaderImage(Header(DATA_PREAMBLE, h, 0, Crc(crc, data)))
      && x.nv[e.address + HEADER_SIZE..e.address + e.size] == data
  {
    hide Directory;
    hide Round;
    hide RequestWrite;
    EntryFacts(crc, s, h);
    HeaderRoundTrip(Header(DATA_PREAMBLE, h, 0, Crc(crc, data)));
    WriteData(crc, s, h, data);
    var s2 := Round(crc, RequestWrite(s, h, data).0);
    WriteHeader(crc, s, s2, h, data);
  }

  lemma WriteData(crc: seq<Byte> -> nat, s: State, h: nat, data: seq<Byte>)
    requires Formatted(crc, s) && h < MAX_HANDLES && |data| < 0x1_0000 && RequestWrite(s, h, data).1
    requires s.table[h].kind == CHECKSUM_STRUCT
    ensures var s1, e := RequestWrite(s, h, data).0, s.table[h];
      && |data| == e.size - HEADER_SIZE && e.address + e.size < NV_SIZE && |s.nv| == NV_SIZE && Ready(s1)
      && Round(crc, s1) == s.(status := WritingDataComplete, buffer := data, handle := h, dataSize := |data|,
                              kind := CHECKSUM_STRUCT, size := e.size, nv := Patch(s.nv, e.address + HEADER_SIZE, data))
  {
    hide Directory;
    Accepted(crc, s, h, data);
    EntryFacts(crc, s, h);
  }

  lemma WriteHeader(crc: seq<Byte> -> nat, s: State, s2: State, h: nat, data: seq<Byte>)
    requires Formatted(crc, s) && h < MAX_HANDLES
    requires var e := s.table[h];
      && |data| < 0x1_0000 && |data| == e.size - HEADER_SIZE && e.address + e.size < NV_SIZE && |s.nv| == NV_SIZE
      && e.kind == CHECKSUM_STRUCT
      && s2 == s.(status := WritingDataComplete, buffer := data, handle := h, dataSize := |data|,
                  kind := CHECKSUM_STRUCT, size := e.size, nv := Patch(s.nv, e.address + HEADER_SIZE, data))
    requires |HeaderImage(Header(DATA_PREAMBLE, h, 0, Crc(crc, data)))| == HEADER_SIZE
    ensures Ready(s2)
    ensures var x, e := Round(crc, s2), s.table[h];
      && OnlyAreaTouched(crc, s, x, h) && x.replies == s.replies + [true]
      && x.nv[e.address..e.address + HEADER_SIZE] == HeaderImage(Header(DATA_PREAMBLE, h, 0, Crc(crc, data)))
      && x.nv[e.address + HEADER_SIZE..e.address + e.size] == data
  {
    hide Directory;
    hide HeaderImage;
    hide Crc;
    EntryFacts(crc, s, h);
    var e, hdr := s.table[h], HeaderImage(Header(DATA_PREAMBLE, h, 0, Crc(crc, data)));
    var x := Round(crc, s2);
    assert x.nv == Patch(s2.nv, e.address, hdr);
    assert x.nv[e.address + HEADER_SIZE..e.address + e.size] == s2.nv[e.address + HEADER_SIZE..e.address + e.size];
  }

  lemma EntryFacts(crc: seq<Byte> -> nat, s: State, h: nat)
    requires Formatted(crc, s) && h < MAX_HANDLES
    ensures EntryOk(s.table[h]) && EntryKind(s.table[h]) && |s.table| == MAX_HANDLES
    ensures EntryFits(s.table[h]) && |s.nv| == NV_SIZE
    ensures |s.preamble| == 4 && s.checksum < 0x1_0000
  {
  }

  lemma WriteSelfManaged(crc: seq<Byte> -> nat, s: State, h: nat, data: seq<Byte>)
    requires Formatted(crc, s) && h < MAX_HANDLES && |data| < 0x1_0000 && RequestWrite(s, h, data).1
    requires s.table[h].kind == SELF_MANAGED
    ensures var s1 := RequestWrite(s, h, data).0;
      && Ready(s1) && Ready(Round(crc, s1))
      && var x := Round(crc, Round(crc, s1));
      && OnlyAreaTouched(crc, s, x, h)
      && x.replies == s.replies + [true]
      && var e := s.table[h];
      && x.nv[e.address..e.address + e.size] == data
  {
    hide Directory;
    Accepted(crc, s, h, data);
    EntryFacts(crc, s, h);
    var s1 := RequestWrite(s, h, data).0;
    var s2 := Round(crc, s1);
    assert s2.status == WritingDataComplete && s2.nv == Patch(s.nv, s.table[h].address, data);
  }

  /** Rounds until the service is waiting again; no request needs more than three. */
  ghost function Settle(crc: seq<Byte> -> nat, s: State, rounds: nat): State
    decreases rounds
  {
    if rounds == 0 || s.status == Waiting || !Ready(s) then s else Settle(crc, Round(crc, s), rounds - 1)
  }

  lemma SettlesIn1(crc: seq<Byte> -> nat, s: State, x: State)
    requires s.status != Waiting && Ready(s) && x == Round(crc, s) && x.status == Waiting
    ensures Settle(crc, s, 3) == x
  {
    hide Round;
    assert Settle(crc, x, 2) == x;
  }

  lemma SettlesIn2(crc: seq<Byte> -> nat, s: State, s1: State, x: State)
    requires s.status != Waiting && Ready(s) && s1 == Round(crc, s)
    requires s1.status != Waiting && Ready(s1) && x == Round(crc, s1) && x.status == Waiting
    ensures Settle(crc, s, 3) == x
  {
    hide Round;
    hide Ready;
    assert Settle(crc, s, 3) == Settle(crc, s1, 2) == Settle(crc, x, 1) == x;
  }

  lemma SettlesIn3(crc: seq<Byte> -> nat, s: State, s1: State, s2: State, x: State)
    requires s.status != Waiting && Ready(s) && s1 == Round(crc, s)
    requires s1.status != Waiting && Ready(s1) && s2 == Round(crc, s1)
    requires s2.status != Waiting && Ready(s2) && x == Round(crc, s2) && x.status == Waiting
    ensures Settle(crc, s, 3) == x
  {
    hide Round;
    hide Ready;
    assert Settle(crc, s, 3) == Settle(crc, s1, 2) == Settle(crc, s2, 1) == Settle(crc, x, 0) == x;
  }

  /** A completed write: exactly this handle's content becomes exactly these bytes. */
  lemma WriteStores(crc: seq<Byte> -> nat, s: State, h: nat, data: seq<Byte>)
    requires Formatted(crc, s) && h < MAX_HANDLES && |data| < 0x1_0000 && RequestWrite(s, h, data).1
    ensures var x := Settle(crc, RequestWrite(s, h, data).0, 3);
      && OthersKept(crc, s, x, h)
      && ContentOf(crc, x, h) == Bytes(data)
      && x.replies == s.replies + [true]
  {
    hide Round;
    hide Ready;
    hide Settle;
    hide Directory;
    hide OthersKept;
    EntryFacts(crc, s, h);
    var e, s1 := s.table[h], RequestWrite(s, h, data).0;
    var x;
    if e.kind == CHECKSUM_STRUCT {
      WriteChecked(crc, s, h, data);
      HeaderRoundTrip(Header(DATA_PREAMBLE, h, 0, Crc(crc, data)));
      x := Round(crc, Round(crc, s1));
    } else {
      WriteSelfManaged(crc, s, h, data);
      x := Round(crc, Round(crc, s1));
    }
    WriteTakesTwo(crc, s, h, data);
    SettlesIn2(crc, s1, Round(crc, s1), x);
    TouchedKeepsOthers(crc, s, x, h);
    FromKept(crc, s, x, h);
  }

  lemma WriteTakesTwo(crc: seq<Byte> -> nat, s: State, h: nat, data: seq<Byte>)
    requires Formatted(crc, s) && h < MAX_HANDLES && |data| < 0x1_0000 && RequestWrite(s, h, data).1
    requires Ready(RequestWrite(s, h, data).0)
    ensures var s1 := RequestWrite(s, h, data).0; s1.status != Waiting && Round(crc, s1).status != Waiting
  {
    hide Directory;
    Accepted(crc, s, h, data);
    EntryFacts(crc, s, h);
  }

  lemma FromKept(crc: seq<Byte> -> nat, s: State, x: State, h: nat)
    requires Formatted(crc, s) && h < MAX_HANDLES && OthersKept(crc, s, x, h)
    ensures Formatted(crc, x) && x.table == s.table && |x.nv| == NV_SIZE
    ensures forall g: nat :: g < MAX_HANDLES && g != h ==> ContentOf(crc, x, g) == ContentOf(crc, s, g)
  {
  }

  /** A read changes nothing stored; it succeeds exactly when there is content, and delivers it. */
  lemma ReadReports(crc: seq<Byte> -> nat, s: State, h: nat, area: seq<Byte>)
    requires Formatted(crc, s) && h < MAX_HANDLES && |area| < 0x1_0000 && RequestRead(s, h, area).1
    ensures var x := Settle(crc, RequestRead(s, h, area).0, 3);
      && x.nv == s.nv && x.table == s.table && Formatted(crc, x)
      && x.replies == s.replies + [ContentOf(crc, s, h).Bytes?]
      && (ContentOf(crc, s, h).Bytes? ==> x.buffer == ContentOf(crc, s, h).data)
  {
    hide Directory;
    hide HeaderOf;
    hide HeaderValid;
    hide Settle;
    Accepted(crc, s, h, area);
    EntryFacts(crc, s, h);
    var e, s1 := s.table[h], RequestRead(s, h, area).0;
    var s2 := Round(crc, s1);
    if e.kind == CHECKSUM_STRUCT {
      ReadChecked(crc, s, h, area);
    } else {
      SettlesIn2(crc, s1, s2, Round(crc, s2));
    }
  }

  lemma ReadChecked(crc: seq<Byte> -> nat, s: State, h: nat, area: seq<Byte>)
    requires Formatted(crc, s) && h < MAX_HANDLES && |area| < 0x1_0000 && RequestRead(s, h, area).1
    requires s.table[h].kind == CHECKSUM_STRUCT
    ensures var x, e := Settle(crc, RequestRead(s, h, area).0, 3), s.table[h];
      && x.nv == s.nv && x.table == s.table && Formatted(crc, x)
      && x.buffer == s.nv[e.address + HEADER_SIZE..e.address + e.size]
      && x.replies == s.replies + [HeaderValid(crc, HeaderOf(s.nv[e.address..e.address + HEADER_SIZE]), h, x.buffer)]
  {
    hide Directory;
    hide HeaderValid;
    hide HeaderOf;
    hide Settle;
    hide RequestRead;
    EntryFacts(crc, s, h);
    ReadHeader(crc, s, h, area);
    var s1 := RequestRead(s, h, area).0;
    var s2 := Round(crc, s1);
    var s3 := Round(crc, s2);
    SettlesIn3(crc, s1, s2, s3, Round(crc, s3));
  }

  lemma ReadHeader(crc: seq<Byte> -> nat, s: State, h: nat, area: seq<Byte>)
    requires Formatted(crc, s) && h < MAX_HANDLES && |area| < 0x1_0000 && RequestRead(s, h, area).1
    requires s.table[h].kind == CHECKSUM_STRUCT
    ensures var s1, e := RequestRead(s, h, area).0, s.table[h];
      && |area| == e.size - HEADER_SIZE && e.address + e.size < NV_SIZE && |s.nv| == NV_SIZE && Ready(s1) && s1.status == Read
      && Round(crc, s1) == s.(status := ReadHeaderComplete, buffer := area, handle := h, dataSize := |area|, size := e.size,
                              kind := CHECKSUM_STRUCT, header := HeaderOf(s.nv[e.address..e.address + HEADER_SIZE]))
  {
    hide Directory;
    hide HeaderOf;
    Accepted(crc, s, h, area);
    EntryFacts(crc, s, h);
  }

  /** What clearing leaves of a content: nothing if checksummed, else the bytes with the first four overwritten. */
  function Cleared(e: Entry, c: Content): Content
    requires c.Bytes? && e.kind != CHECKSUM_STRUCT ==> |c.data| == e.size
  {
    if e.kind == CHECKSUM_STRUCT || c.Missing? then Missing
    else var n := Min(4, e.size); Bytes(INVALID_PREAMBLE[..n] + c.data[n..])
  }

  lemma ClearTouches(crc: seq<Byte> -> nat, s: State, h: nat)
    requires Formatted(crc, s) && h < MAX_HANDLES && Live(s.table[h])
    ensures var x, e := Settle(crc, RequestClear(s, h).0, 3), s.table[h];
      && OnlyAreaTouched(crc, s, x, h) && x.replies == s.replies + [true]
      && x.nv == Patch(s.nv, e.address, INVALID_PREAMBLE[..Min(4, e.size)])
  {
    hide Directory;
    hide Settle;
    EntryFacts(crc, s, h);
    var s1, e := RequestClear(s, h).0, s.table[h];
    assert HeaderImage(CLEARED)[..Min(4, e.size)] == INVALID_PREAMBLE[..Min(4, e.size)];
    SettlesIn1(crc, s1, Round(crc, s1));
  }

  /**
   Clearing an area.  A read of a checksummed area then fails until the next write; a
   self-managed area has no header, so it stays readable, its first four bytes overwritten.
   */
  lemma ClearErases(crc: seq<Byte> -> nat, s: State, h: nat)
    requires Formatted(crc, s) && h < MAX_HANDLES && Live(s.table[h])
    ensures var x := Settle(crc, RequestClear(s, h).0, 3);
      && OthersKept(crc, s, x, h) && x.replies == s.replies + [true]
      && (ContentOf(crc, s, h).Bytes? && s.table[h].kind != CHECKSUM_STRUCT ==> |ContentOf(crc, s, h).data| == s.table[h].size)
      && ContentOf(crc, x, h) == Cleared(s.table[h], ContentOf(crc, s, h))
      && (ContentOf(crc, x, h).Missing? <==> s.table[h].kind == CHECKSUM_STRUCT)
  {
    hide Directory;
    hide Settle;
    hide OthersKept;
    EntryFacts(crc, s, h);
    ClearTouches(crc, s, h);
    var x, e := Settle(crc, RequestClear(s, h).0, 3), s.table[h];
    TouchedKeepsOthers(crc, s, x, h);
    FromKept(crc, s, x, h);
    PatchHead(s.nv, e.address, INVALID_PREAMBLE[..Min(4, e.size)], e.size);
    if e.kind == CHECKSUM_STRUCT {
      InvalidHead(s.nv, e.address);
    }
  }

  lemma InvalidHead(nv: seq<Byte>, a: nat)
    requires a + HEADER_SIZE <= |nv|
    ensures Patch(nv, a, INVALID_PREAMBLE[..4])[a..a + HEADER_SIZE][..4] == INVALID_PREAMBLE != DATA_PREAMBLE
  {
    hide Patch;
    PatchHead(nv, a, INVALID_PREAMBLE[..4], HEADER_SIZE);
    assert INVALID_PREAMBLE[0] != DATA_PREAMBLE[0];
  }

  lemma PatchHead(nv: seq<Byte>, a: nat, d: seq<Byte>, size: nat)
    requires |d| <= size && a + size <= |nv|
    ensures Patch(nv, a, d)[a..a + size] == d + nv[a..a + size][|d|..]
  {
    var r := Patch(nv, a, d);
    assert r[a..a + size] == r[a..a + |d|] + r[a + |d|..a + size];
  }
}
