/**
 The non-volatile storage service as a state machine on values: user requests, the
 background service routine and the completion callbacks of EEPROM transfers.
 */
module StorageMachine {
  import opened FixedWidth
  import opened ByteOrder
  import opened StorageAllocator

  const NULL_AREA := 0
  const CHECKSUM_STRUCT := 1
  const SELF_MANAGED := 4
  const HEADER_SIZE := 10
  const NV_SIZE := 0x1_0000

  const DATA_PREAMBLE: seq<Byte> := [0xAA, 0x5A, 0xA5, 0x55]
  const TABLE_PREAMBLE: seq<Byte> := [0x55, 0xA5, 0x5A, 0xAA]
  const INVALID_PREAMBLE: seq<Byte> := [0x01, 0x10, 0x01, 0x10]

  datatype Status =
    | Start | Reading0 | CheckTable | Waiting
    | Read | ReadingHeader | ReadHeaderComplete | ReadingData | ReadDataComplete
    | Write | WritingData | WritingDataComplete | WritingHeader
    | AreaCreate | AreaCreating | AreaClear | AreaClearing

  datatype Header = Header(preamble: seq<Byte>, handle: nat, version: nat, checksum: nat)

  /** An EEPROM transfer in progress, named by the callback that ends it. */
  datatype Transfer =
    | Idle
    | TableRead | FormatWrite | TableWrite
    | HeaderRead(address: nat) | DataRead(address: nat, size: nat)
    | DataWrite(address: nat, size: nat) | HeaderWrite(address: nat) | ClearWrite(address: nat, size: nat)

  /** `buffer` is the caller's data area, `replies` the results reported to users so far. */
  datatype State = State(
    status: Status, table: seq<Entry>, checksum: nat, preamble: seq<Byte>,
    header: Header, kind: nat, size: nat, dataSize: nat, handle: nat, buffer: seq<Byte>,
    nv: seq<Byte>, transfer: Transfer, replies: seq<bool>)

  // ---------------------------------------------------------------- memory images

  function HeaderImage(h: Header): seq<Byte> {
    h.preamble + Word(h.handle) + Word(h.version) + Word(h.checksum)
  }

  function HeaderOf(s: seq<Byte>): (h: Header)
    requires |s| == HEADER_SIZE
    ensures |h.preamble| == 4
  {
    Header(s[..4], WordAt(s, 4), WordAt(s, 6), WordAt(s, 8))
  }

  lemma HeaderRoundTrip(h: Header)
    requires |h.preamble| == 4 && h.handle < 0x1_0000 && h.version < 0x1_0000 && h.checksum < 0x1_0000
    ensures |HeaderImage(h)| == HEADER_SIZE && HeaderOf(HeaderImage(h)) == h
  {
    var s := HeaderImage(h);
    assert s[..4] == h.preamble;
    assert s[4..6] == Word(h.handle) && s[6..8] == Word(h.version) && s[8..10] == Word(h.checksum);
    WordRoundTrip(h.handle);
    WordRoundTrip(h.version);
    WordRoundTrip(h.checksum);
  }

  function EntryImage(e: Entry): seq<Byte> {
    Word(e.address) + Word(e.kind) + Word(e.size)
  }

  function EntriesImage(table: seq<Entry>): (r: seq<Byte>)
    ensures |r| == 6 * |table|
  {
    if table == [] then [] else EntryImage(table[0]) + EntriesImage(table[1..])
  }

  function EntriesOf(s: seq<Byte>): (r: seq<Entry>)
    requires |s| % 6 == 0
    ensures |r| == |s| / 6
    decreases |s|
  {
    if s == [] then [] else [Entry(WordAt(s, 0), WordAt(s, 2), WordAt(s, 4))] + EntriesOf(s[6..])
  }

  lemma {:induction false} EntriesRoundTrip(table: seq<Entry>)
    requires forall k :: 0 <= k < |table| ==> table[k].address < 0x1_0000 && table[k].kind < 0x1_0000 && table[k].size < 0x1_0000
    ensures EntriesOf(EntriesImage(table)) == table
    decreases |table|
  {
    hide WordAt;
    if table != [] {
      var s := EntriesImage(table);
      EntryRoundTrip(table[0], EntriesImage(table[1..]));
      assert s[6..] == EntriesImage(table[1..]);
      EntriesRoundTrip(table[1..]);
    }
  }

  lemma EntryRoundTrip(e: Entry, rest: seq<Byte>)
    requires e.address < 0x1_0000 && e.kind < 0x1_0000 && e.size < 0x1_0000
    ensures var s := EntryImage(e) + rest; Entry(WordAt(s, 0), WordAt(s, 2), WordAt(s, 4)) == e
  {
    WordRoundTrip(e.address);
    WordRoundTrip(e.kind);
    WordRoundTrip(e.size);
  }

  function TableImage(table: seq<Entry>, checksum: nat, preamble: seq<Byte>): seq<Byte> {
    preamble + EntriesImage(table) + Word(checksum)
  }

  function Patch(nv: seq<Byte>, a: nat, data: seq<Byte>): (r: seq<Byte>)
    requires a + |data| <= |nv|
    ensures |r| == |nv|
    ensures r[a..a + |data|] == data
    ensures forall i :: 0 <= i < |nv| && !(a <= i < a + |data|) ==> r[i] == nv[i]
  {
    nv[..a] + data + nv[a + |data|..]
  }

  // ---------------------------------------------------------------- requests

  /** `storage_test_handle`. */
  predicate Allocated(table: seq<Entry>, h: nat) {
    h < |table| && h < MAX_HANDLES && table[h].address != 0 && table[h].kind != NULL_AREA && table[h].size != 0
  }

  /** The stored size of `size` bytes of data; none for kinds the service does not manage. */
  function StoredSize(kind: nat, size: nat): nat {
    if kind == CHECKSUM_STRUCT then U16(size + HEADER_SIZE) else size
  }

  predicate Managed(kind: nat) {
    kind == CHECKSUM_STRUCT || kind == SELF_MANAGED
  }

  /** `storage_write`. */
  function RequestWrite(s: State, h: nat, data: seq<Byte>): (State, bool) {
    if s.status != Waiting || !Allocated(s.table, h) then (s, false)
    else
      var s1 := s.(buffer := data, handle := h, dataSize := U16(|data|), kind := s.table[h].kind);
      if !Managed(s1.kind) then (s1, false)
      else
        var s2 := s1.(size := StoredSize(s1.kind, s1.dataSize));
        if s.table[h].size != s2.size then (s2, false) else (s2.(status := Write), true)
  }

  /** `storage_read` into a caller's area that now holds `area`. */
  function RequestRead(s: State, h: nat, area: seq<Byte>): (State, bool) {
    if s.status != Waiting || !Allocated(s.table, h) then (s, false)
    else
      var s1 := s.(buffer := area, dataSize := U16(|area|), handle := h);
      if !Managed(s.table[h].kind) then (s1, false)
      else
        var s2 := s1.(size := StoredSize(s.table[h].kind, s1.dataSize));
        if s.table[h].size != s2.size then (s2, false) else (s2.(status := Read), true)
  }

  /** `storage_create_area`. */
  function RequestCreate(s: State, h: nat, size: nat, kind: nat): (State, bool) {
    if s.status != Waiting then (s, false)
    else
      var s1 := s.(buffer := [], kind := kind, handle := h);
      if !Managed(kind) then (s1, false)
      else (s1.(size := StoredSize(kind, size), status := AreaCreate), true)
  }

  /** `storage_clear_area`. */
  function RequestClear(s: State, h: nat): (State, bool) {
    if s.status != Waiting then (s, false) else (s.(handle := h, status := AreaClear), true)
  }

  // ---------------------------------------------------------------- the background service

  /** What a service turn needs: the handle is a directory slot, and the caller's area and size fit. */
  ghost predicate Ready(s: State) {
    && |s.table| == MAX_HANDLES && |s.nv| == NV_SIZE && |s.preamble| == 4 && s.checksum < 0x1_0000
    && (s.status !in {Start, Reading0, CheckTable, Waiting, AreaClear} ==> s.handle < MAX_HANDLES)
    && (s.status == AreaClear && s.handle < MAX_HANDLES ==> EntryFits(s.table[s.handle]))
    && (s.status in {Read, ReadHeaderComplete, ReadDataComplete, Write, WritingDataComplete} ==>
          && EntryFits(s.table[s.handle]) && s.dataSize == |s.buffer|
          && s.size == s.table[s.handle].size
          && s.size == s.dataSize + (if s.table[s.handle].kind == CHECKSUM_STRUCT then HEADER_SIZE else 0)
          && (s.status != Read ==> s.kind == s.table[s.handle].kind))
    && (s.status == AreaCreate ==> Ends(s.table, s.size))
  }

  predicate EntryFits(e: Entry) {
    e.address + e.size < 0x1_0000
  }

  function Fail(s: State): State {
    s.(status := Waiting, replies := s.replies + [false])
  }

  function Crc(crc: seq<Byte> -> nat, data: seq<Byte>): nat {
    U16(crc(data))
  }

  /** The table checksum covers the first entry only. */
  function TableChecksum(crc: seq<Byte> -> nat, table: seq<Entry>): nat
    requires |table| > 0
  {
    Crc(crc, EntryImage(table[0]))
  }

  /** `data_storage_check_table`. */
  predicate TableValid(crc: seq<Byte> -> nat, table: seq<Entry>, checksum: nat, preamble: seq<Byte>)
    requires |table| > 0
  {
    preamble == TABLE_PREAMBLE && TableChecksum(crc, table) == checksum
  }

  function DataHeader(crc: seq<Byte> -> nat, s: State): Header {
    Header(DATA_PREAMBLE, s.handle, 0, Crc(crc, s.buffer))
  }

  const CLEARED := Header(INVALID_PREAMBLE, 0, 0, 0)

  /** Does the header read back match the handle and the data read behind it? */
  predicate HeaderValid(crc: seq<Byte> -> nat, hdr: Header, h: nat, data: seq<Byte>) {
    hdr.handle == h && hdr.preamble == DATA_PREAMBLE && hdr.checksum == Crc(crc, data)
  }

  ghost function ServiceCreate(crc: seq<Byte> -> nat, s: State, ready: bool): State
    requires Ready(s) && s.status == AreaCreate
  {
    var t := s.table[s.handle := Entry(Search(s.table, s.size), s.kind, s.size)];
    if ready then s.(table := t, checksum := TableChecksum(crc, t), status := AreaCreating, transfer := TableWrite)
    else Fail(s.(table := t[s.handle := EMPTY], checksum := TableChecksum(crc, t)))
  }

  function ServiceClear(s: State, ready: bool): State
    requires Ready(s) && s.status == AreaClear
  {
    if !Allocated(s.table, s.handle) then Fail(s)
    else
      var e := s.table[s.handle];
      var s1 := s.(header := CLEARED);
      if ready then s1.(status := AreaClearing, transfer := ClearWrite(e.address, Min(4, e.size))) else Fail(s1)
  }

  function ServiceWritten(crc: seq<Byte> -> nat, s: State, ready: bool): State
    requires Ready(s) && s.status == WritingDataComplete
  {
    if s.kind == CHECKSUM_STRUCT then
      var s1 := s.(header := DataHeader(crc, s));
      if ready then s1.(status := WritingHeader, transfer := HeaderWrite(s.table[s.handle].address)) else Fail(s1)
    else if s.kind == SELF_MANAGED then s.(status := Waiting, replies := s.replies + [true])
    else s
  }

  /** One turn of `data_storage_service`; `ready` tells whether the EEPROM accepts a transfer now. */
  ghost function Service(crc: seq<Byte> -> nat, s: State, ready: bool): State
    requires Ready(s)
  {
    match s.status
    case Start =>
      var s1 := s.(preamble := s.preamble[0 := 0], checksum := 0);
      if ready then s1.(status := Reading0, transfer := TableRead) else s1
    case CheckTable =>
      if TableValid(crc, s.table, s.checksum, s.preamble) then s.(status := Waiting)
      else
        var t := seq(MAX_HANDLES, _ => EMPTY);
        var s1 := s.(table := t, preamble := TABLE_PREAMBLE, checksum := TableChecksum(crc, t));
        if ready then s1.(transfer := FormatWrite) else s1.(status := Start)
    case Write =>
      var e := s.table[s.handle];
      if !Managed(s.kind) then s.(status := WritingData)
      else if !ready then Fail(s)
      else if s.kind == CHECKSUM_STRUCT then
        s.(status := WritingData, transfer := DataWrite(e.address + HEADER_SIZE, s.dataSize))
      else s.(status := WritingData, transfer := DataWrite(e.address, s.size))
    case WritingDataComplete => ServiceWritten(crc, s, ready)
    case Read =>
      var e := s.table[s.handle];
      var s1 := s.(kind := e.kind);
      if !Managed(s1.kind) then s1
      else if !ready then Fail(s1)
      else if s1.kind == CHECKSUM_STRUCT then s1.(status := ReadingHeader, transfer := HeaderRead(e.address))
      else s1.(status := ReadingData, transfer := DataRead(e.address, s.size))
    case ReadHeaderComplete =>
      if ready then s.(status := ReadingData, transfer := DataRead(s.table[s.handle].address + HEADER_SIZE, s.dataSize))
      else Fail(s)
    case ReadDataComplete =>
      var ok := s.kind == CHECKSUM_STRUCT ==> HeaderValid(crc, s.header, s.handle, s.buffer);
      s.(status := Waiting, replies := s.replies + [ok])
    case AreaCreate => ServiceCreate(crc, s, ready)
    case AreaClear => ServiceClear(s, ready)
    case _ => s
  }

  // ---------------------------------------------------------------- transfer completion

  /** The transfer in progress fits the memory and the areas it moves. */
  predicate TransferOk(s: State) {
    && |s.nv| == NV_SIZE && |s.header.preamble| == 4
    && match s.transfer
       case DataRead(a, n) => a + n <= NV_SIZE && |s.buffer| == n
       case DataWrite(a, n) => a + n <= NV_SIZE && |s.buffer| == n
       case HeaderRead(a) => a + HEADER_SIZE <= NV_SIZE
       case HeaderWrite(a) => a + HEADER_SIZE <= NV_SIZE
       case ClearWrite(a, n) => a + n <= NV_SIZE && n <= 4
       case TableWrite => |s.table| == MAX_HANDLES && |s.preamble| == 4
       case FormatWrite => |s.table| == MAX_HANDLES && |s.preamble| == 4
       case _ => true
  }

  function Reply(s: State, success: bool): State {
    s.(status := Waiting, replies := s.replies + [success])
  }

  /** The EEPROM finished the transfer and calls back. */
  function Complete(s: State, success: bool): State
    requires TransferOk(s)
  {
    var s1 := s.(transfer := Idle);
    match s.transfer
    case Idle => s
    case TableRead =>
      if !success then s1.(status := Start)
      else s1.(status := CheckTable, preamble := s.nv[..4], table := EntriesOf(s.nv[4..184]), checksum := WordAt(s.nv[184..186], 0))
    case FormatWrite =>
      if !success then s1.(status := Start)
      else s1.(status := Waiting, nv := Patch(s.nv, 0, TableImage(s.table, s.checksum, s.preamble)))
    case TableWrite =>
      if !success then Reply(s1, false)
      else Reply(s1.(nv := Patch(s.nv, 0, TableImage(s.table, s.checksum, s.preamble))), true)
    case HeaderRead(a) =>
      if !success then Reply(s1, false)
      else s1.(header := HeaderOf(s.nv[a..a + HEADER_SIZE]), status := ReadHeaderComplete)
    case DataRead(a, n) =>
      if !success then Reply(s1, false) else s1.(buffer := s.nv[a..a + n], status := ReadDataComplete)
    case DataWrite(a, n) =>
      // a failure is reported, and then handled as if the data had been written
      if !success then Reply(s1, false).(status := WritingDataComplete)
      else s1.(nv := Patch(s.nv, a, s.buffer), status := WritingDataComplete)
    case HeaderWrite(a) =>
      if !success then Reply(s1, false) else Reply(s1.(nv := Patch(s.nv, a, HeaderImage(s.header))), true)
    case ClearWrite(a, n) =>
      if !success then Reply(s1, false) else Reply(s1.(nv := Patch(s.nv, a, HeaderImage(s.header)[..n])), true)
  }
}
