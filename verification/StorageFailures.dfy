/** What becomes of each request when the EEPROM is busy or a transfer fails. */
module StorageFailures {
  import opened FixedWidth
  import opened StorageAllocator
  import opened StorageMachine
  import opened StorageContents
  import opened StorageRuns

  /** The EEPROM in one service turn: does it accept a transfer, and does the transfer succeed? */
  datatype Outcome = Outcome(ready: bool, success: bool)

  predicate Good(o: Outcome) {
    o.ready && o.success
  }

  /** A service turn, and the transfer it may have started; nothing once the service waits. */
  ghost function Try(crc: seq<Byte> -> nat, s: State, o: Outcome): State {
    if s.status == Waiting || !Ready(s) then s
    else
      var x := Service(crc, s, o.ready);
      if TransferOk(x) then Complete(x, o.success) else x
  }

  ghost function Tries(crc: seq<Byte> -> nat, s: State, a: Outcome, b: Outcome, c: Outcome): State {
    Try(crc, Try(crc, Try(crc, s, a), b), c)
  }

  lemma WaitingStays(crc: seq<Byte> -> nat, s: State, o: Outcome)
    requires s.status == Waiting
    ensures Try(crc, s, o) == s
  {
  }

  // ---------------------------------------------------------------- refusing

  /** Until the service waits no request is accepted, and none leaves a trace. */
  lemma BusyRefuses(s: State, h: nat, data: seq<Byte>, size: nat, kind: nat)
    requires s.status != Waiting
    ensures RequestWrite(s, h, data) == (s, false) == RequestRead(s, h, data)
    ensures RequestCreate(s, h, size, kind) == (s, false) == RequestClear(s, h)
  {
  }

  /** What a refused request leaves as it was: all that is stored, and the service waiting. */
  predicate Untouched(s: State, x: State) {
    x.status == s.status && x.nv == s.nv && x.table == s.table && x.transfer == s.transfer && x.replies == s.replies
  }

  /** Waiting, it creates areas of the kinds 1 and 4 only, and reads and writes only areas of these kinds. */
  lemma OtherKindsRefused(s: State, h: nat, data: seq<Byte>, size: nat, kind: nat)
    requires s.status == Waiting
    ensures RequestCreate(s, h, size, kind).1 <==> kind == 1 || kind == 4
    ensures !RequestCreate(s, h, size, kind).1 ==> Untouched(s, RequestCreate(s, h, size, kind).0)
    ensures RequestWrite(s, h, data).1 ==> h < |s.table| && (s.table[h].kind == 1 || s.table[h].kind == 4)
    ensures RequestRead(s, h, data).1 ==> h < |s.table| && (s.table[h].kind == 1 || s.table[h].kind == 4)
    ensures !RequestWrite(s, h, data).1 ==> Untouched(s, RequestWrite(s, h, data).0)
    ensures !RequestRead(s, h, data).1 ==> Untouched(s, RequestRead(s, h, data).0)
    ensures RequestClear(s, h) == (s.(handle := h, status := AreaClear), true)
  {
  }

  // ---------------------------------------------------------------- reading

  /** What a read always keeps. */
  predicate NothingStored(crc: seq<Byte> -> nat, s: State, x: State) {
    x.nv == s.nv && x.table == s.table && Formatted(crc, x)
  }

  /** The transfers a read needs: the header and the data of a checksummed area, the data of a self-managed one. */
  predicate ReadsWell(e: Entry, a: Outcome, b: Outcome) {
    Good(a) && (e.kind == CHECKSUM_STRUCT ==> Good(b))
  }

  lemma ReadSelfManagedUnder(crc: seq<Byte> -> nat, s: State, h: nat, area: seq<Byte>, a: Outcome, b: Outcome)
    requires Formatted(crc, s) && h < MAX_HANDLES && |area| < 0x1_0000 && RequestRead(s, h, area).1
    requires s.table[h].kind == SELF_MANAGED
    ensures var x := Try(crc, Try(crc, RequestRead(s, h, area).0, a), b);
      && NothingStored(crc, s, x) && x.replies == s.replies + [Good(a)]
      && (Good(a) ==> ContentOf(crc, s, h) == Bytes(x.buffer))
  {
    hide Directory;
    Accepted(crc, s, h, area);
    EntryFacts(crc, s, h);
  }

  lemma ReadHeaderUnder(crc: seq<Byte> -> nat, s: State, h: nat, area: seq<Byte>, a: Outcome)
    requires Formatted(crc, s) && h < MAX_HANDLES && |area| < 0x1_0000 && RequestRead(s, h, area).1
    requires s.table[h].kind == CHECKSUM_STRUCT
    ensures var x := Try(crc, RequestRead(s, h, area).0, a);
      if Good(a) then x == Round(crc, RequestRead(s, h, area).0)
      else NothingStored(crc, s, x) && x.replies == s.replies + [false]
  {
    hide Directory, HeaderOf;
    Accepted(crc, s, h, area);
    EntryFacts(crc, s, h);
  }

  /** The read of a checksummed area with its header read. */
  predicate HeaderIsRead(s: State, s2: State, h: nat, area: seq<Byte>)
    requires h < |s.table|
  {
    var e := s.table[h];
    && |area| == e.size - HEADER_SIZE && e.address + e.size < NV_SIZE == |s.nv|
    && s2 == s.(status := ReadHeaderComplete, buffer := area, handle := h, dataSize := |area|, size := e.size,
                kind := CHECKSUM_STRUCT, header := HeaderOf(s.nv[e.address..e.address + HEADER_SIZE]))
  }

  /** ... and then its data, if that goes well. */
  lemma DataTurn(crc: seq<Byte> -> nat, s: State, s2: State, h: nat, area: seq<Byte>, b: Outcome)
    requires Formatted(crc, s) && h < MAX_HANDLES && h < |s.table| && s.table[h].kind == CHECKSUM_STRUCT
    requires HeaderIsRead(s, s2, h, area)
    ensures var (x, e) := (Try(crc, s2, b), s.table[h]);
      if Good(b) then x == s2.(status := ReadDataComplete, buffer := s.nv[e.address + HEADER_SIZE..e.address + e.size]) && Ready(x)
      else NothingStored(crc, s, x) && x.replies == s.replies + [false]
  {
    hide Directory, HeaderOf, HeaderValid;
    EntryFacts(crc, s, h);
  }

  lemma ReadDataUnder(crc: seq<Byte> -> nat, s: State, s2: State, h: nat, area: seq<Byte>, b: Outcome, c: Outcome)
    requires Formatted(crc, s) && h < MAX_HANDLES && h < |s.table| && s.table[h].kind == CHECKSUM_STRUCT
    requires HeaderIsRead(s, s2, h, area)
    ensures var (x, e) := (Try(crc, Try(crc, s2, b), c), s.table[h]);
      && NothingStored(crc, s, x)
      && (!Good(b) ==> x.replies == s.replies + [false])
      && (Good(b) ==>
            && x.buffer == s.nv[e.address + HEADER_SIZE..e.address + e.size]
            && x.replies == s.replies + [HeaderValid(crc, HeaderOf(s.nv[e.address..e.address + HEADER_SIZE]), h, x.buffer)])
  {
    hide Directory, HeaderOf, HeaderValid, Ready;
    EntryFacts(crc, s, h);
    DataTurn(crc, s, s2, h, area, b);
  }

  lemma ReadCheckedUnder(crc: seq<Byte> -> nat, s: State, h: nat, area: seq<Byte>, a: Outcome, b: Outcome, c: Outcome)
    requires Formatted(crc, s) && h < MAX_HANDLES && |area| < 0x1_0000 && RequestRead(s, h, area).1
    requires s.table[h].kind == CHECKSUM_STRUCT
    ensures var (x, e) := (Tries(crc, RequestRead(s, h, area).0, a, b, c), s.table[h]);
      && e.address + e.size < NV_SIZE == |s.nv| && e.size >= HEADER_SIZE
      && NothingStored(crc, s, x)
      && (!(Good(a) && Good(b)) ==> x.replies == s.replies + [false])
      && (Good(a) && Good(b) ==>
            && x.buffer == s.nv[e.address + HEADER_SIZE..e.address + e.size]
            && x.replies == s.replies + [HeaderValid(crc, HeaderOf(s.nv[e.address..e.address + HEADER_SIZE]), h, x.buffer)])
  {
    hide Formatted, HeaderOf, HeaderValid, Try, RequestRead, Round;
    EntryFacts(crc, s, h);
    ReadHeader(crc, s, h, area);
    ReadHeaderUnder(crc, s, h, area, a);
    var s1 := RequestRead(s, h, area).0;
    if Good(a) {
      ReadDataUnder(crc, s, Round(crc, s1), h, area, b, c);
    } else {
      IsWaiting(crc, Try(crc, s1, a));
      WaitingStays(crc, Try(crc, s1, a), b);
      WaitingStays(crc, Try(crc, s1, a), c);
    }
  }

  lemma IsWaiting(crc: seq<Byte> -> nat, s: State)
    requires Formatted(crc, s)
    ensures s.status == Waiting
  {
  }

  /**
   Whatever the EEPROM does, a read is over within three turns with exactly one answer, and changes nothing stored.
   The answer is positive exactly if its transfers succeeded and the area has content, which is then delivered.
   */
  lemma ReadUnder(crc: seq<Byte> -> nat, s: State, h: nat, area: seq<Byte>, a: Outcome, b: Outcome, c: Outcome)
    requires Formatted(crc, s) && h < MAX_HANDLES && |area| < 0x1_0000 && RequestRead(s, h, area).1
    ensures var x := Tries(crc, RequestRead(s, h, area).0, a, b, c);
      && NothingStored(crc, s, x)
      && x.replies == s.replies + [ReadsWell(s.table[h], a, b) && ContentOf(crc, s, h).Bytes?]
      && (ReadsWell(s.table[h], a, b) && ContentOf(crc, s, h).Bytes? ==> x.buffer == ContentOf(crc, s, h).data)
  {
    hide Directory, Try, HeaderOf, HeaderValid;
    Accepted(crc, s, h, area);
    EntryFacts(crc, s, h);
    var s1 := RequestRead(s, h, area).0;
    if s.table[h].kind == CHECKSUM_STRUCT {
      ReadCheckedUnder(crc, s, h, area, a, b, c);
    } else {
      ReadSelfManagedUnder(crc, s, h, area, a, b);
      WaitingStays(crc, Try(crc, Try(crc, s1, a), b), c);
    }
  }

  // ---------------------------------------------------------------- writing

  /** A write whose data are not accepted: one negative answer, nothing stored. */
  lemma WriteBusy(crc: seq<Byte> -> nat, s: State, h: nat, data: seq<Byte>, a: Outcome)
    requires Formatted(crc, s) && h < MAX_HANDLES && |data| < 0x1_0000 && RequestWrite(s, h, data).1 && !a.ready
    ensures var x := Try(crc, RequestWrite(s, h, data).0, a);
      NothingStored(crc, s, x) && x.replies == s.replies + [false]
  {
    hide Directory;
    Accepted(crc, s, h, data);
    EntryFacts(crc, s, h);
  }

  /** Data written, of a checksummed area: one answer, positive exactly if the header is written too. */
  lemma WriteHeaderUnder(crc: seq<Byte> -> nat, s: State, h: nat, data: seq<Byte>, a: Outcome, b: Outcome)
    requires Formatted(crc, s) && h < MAX_HANDLES && |data| < 0x1_0000 && RequestWrite(s, h, data).1
    requires Good(a) && s.table[h].kind == CHECKSUM_STRUCT
    ensures var x := Try(crc, Try(crc, RequestWrite(s, h, data).0, a), b);
      x.status == Waiting && x.replies == s.replies + [Good(b)] && OthersKept(crc, s, x, h)
  {
    hide Directory, OthersKept, Round, RequestWrite, HeaderImage;
    EntryFacts(crc, s, h);
    HeaderRoundTrip(Header(DATA_PREAMBLE, h, 0, Crc(crc, data)));
    WriteData(crc, s, h, data);
    var s1 := RequestWrite(s, h, data).0;
    var s2 := Round(crc, s1);
    Accepts(s, h, data);
    RoundIsTry(crc, s1, a);
    HeaderUnder(crc, s, s2, h, data, b);
    TouchedKeepsOthers(crc, s, Try(crc, s2, b), h);
  }

  lemma Accepts(s: State, h: nat, data: seq<Byte>)
    requires RequestWrite(s, h, data).1
    ensures RequestWrite(s, h, data).0.status == Write && h < |s.table| && Used(s.table[h])
  {
  }

  lemma RoundIsTry(crc: seq<Byte> -> nat, s: State, o: Outcome)
    requires Ready(s) && s.status != Waiting && Good(o)
    ensures Try(crc, s, o) == Round(crc, s)
  {
  }

  lemma HeaderUnder(crc: seq<Byte> -> nat, s: State, s2: State, h: nat, data: seq<Byte>, b: Outcome)
    requires Formatted(crc, s) && h < MAX_HANDLES
    requires h < |s.table| && var e := s.table[h];
      && |data| < 0x1_0000 && |data| == e.size - HEADER_SIZE && e.address + e.size < NV_SIZE && |s.nv| == NV_SIZE
      && e.kind == CHECKSUM_STRUCT
      && s2 == s.(status := WritingDataComplete, buffer := data, handle := h, dataSize := |data|,
                  kind := CHECKSUM_STRUCT, size := e.size, nv := Patch(s.nv, e.address + HEADER_SIZE, data))
    requires |HeaderImage(Header(DATA_PREAMBLE, h, 0, Crc(crc, data)))| == HEADER_SIZE
    ensures var x := Try(crc, s2, b);
      OnlyAreaTouched(crc, s, x, h) && x.replies == s.replies + [Good(b)]
  {
    hide Directory, HeaderImage, Crc;
    EntryFacts(crc, s, h);
  }

  // ---------------------------------------------------------------- creating and clearing

  /**
   A creation that the EEPROM does not take, or fails to store, gives one negative answer and leaves the EEPROM as it was.
   In RAM the handle then has no area, or the new one; the other handles keep theirs.  The checksum is that of the new
   area, also where the entry is emptied again: that matters for handle 0, the only entry it covers.
   */
  lemma CreateFails(crc: seq<Byte> -> nat, s: State, h: nat, size: nat, kind: nat, o: Outcome)
    requires Formatted(crc, s) && h < MAX_HANDLES && RequestCreate(s, h, size, kind).1 && !Good(o)
    requires Ends(s.table, StoredSize(kind, size))
    ensures var x := Try(crc, RequestCreate(s, h, size, kind).0, o);
      && x.status == Waiting && x.replies == s.replies + [false] && x.nv == s.nv && |x.table| == MAX_HANDLES
      && x.checksum == TableChecksum(crc, s.table[h := Entry(Search(s.table, StoredSize(kind, size)), kind, StoredSize(kind, size))])
      && (o.ready || h > 0 ==> TableValid(crc, x.table, x.checksum, x.preamble))
      && (forall g :: 0 <= g < MAX_HANDLES && g != h ==> x.table[g] == s.table[g])
      && x.table[h] == if o.ready then Entry(Search(s.table, StoredSize(kind, size)), kind, StoredSize(kind, size)) else EMPTY
  {
    hide Layout, Kinds, TableChecksum, TableImage;
    EntryFacts(crc, s, h);
    if !o.ready { FirstEntryOnly(crc, s.table, h, Entry(Search(s.table, StoredSize(kind, size)), kind, StoredSize(kind, size))); }
  }

  lemma FirstEntryOnly(crc: seq<Byte> -> nat, table: seq<Entry>, h: nat, e: Entry)
    requires h < |table|
    ensures h > 0 ==> TableChecksum(crc, table[h := e][h := EMPTY]) == TableChecksum(crc, table[h := e])
  {
  }

  /** After the next power cycle such a creation is forgotten: directory and contents are those before it. */
  lemma FailedCreateForgotten(crc: seq<Byte> -> nat, s: State, h: nat, size: nat, kind: nat, o: Outcome, ram: State, g: nat)
    requires Formatted(crc, s) && h < MAX_HANDLES && RequestCreate(s, h, size, kind).1 && !Good(o)
    requires Ends(s.table, StoredSize(kind, size)) && g < MAX_HANDLES
    requires Rebooted(Try(crc, RequestCreate(s, h, size, kind).0, o), ram)
    ensures var x := Settle(crc, ram, 3);
      Formatted(crc, x) && x.table == s.table && ContentOf(crc, x, g) == ContentOf(crc, s, g)
  {
    hide Formatted, Try, Settle, ContentOf, RequestCreate;
    CreateFails(crc, s, h, size, kind, o);
    RebootKeeps(crc, s, ram, g);
  }

  /** A clearing that the EEPROM does not take, or fails to store: one negative answer, nothing stored. */
  lemma ClearFails(crc: seq<Byte> -> nat, s: State, h: nat, o: Outcome)
    requires Formatted(crc, s) && h < MAX_HANDLES && Live(s.table[h]) && !Good(o)
    ensures var x := Try(crc, RequestClear(s, h).0, o);
      NothingStored(crc, s, x) && x.replies == s.replies + [false]
  {
    hide Directory;
    EntryFacts(crc, s, h);
  }

  // ---------------------------------------------------------------- starting

  /** A failed or refused start is tried again: back to the start, nothing stored, nobody answered. */
  lemma StartFails(crc: seq<Byte> -> nat, s: State, o: Outcome)
    requires Ready(s) && |s.header.preamble| == 4 && !Good(o) && s.transfer == Idle
    requires s.status == Start || (s.status == CheckTable && !TableValid(crc, s.table, s.checksum, s.preamble))
    ensures var x := Try(crc, s, o);
      && x.status == Start && x.transfer == Idle && x.nv == s.nv && x.replies == s.replies && Ready(x)
      && (s.status == Start ==> !TableValid(crc, x.table, x.checksum, x.preamble))
  {
    hide TableChecksum;
    ChecksumIs16Bit(crc, seq(MAX_HANDLES, _ => EMPTY));
    assert TABLE_PREAMBLE[0] == 0x55;
    assert s.status == Start ==> Try(crc, s, o).preamble[0] == 0;
  }
}
