/** The storage service as it is written: static variables and a directory array, refining the state machine. */
module DataStorage {
  import opened FixedWidth
  import opened ByteOrder
  import opened StorageAllocator
  import opened StorageMachine

  class Storage {
    const crc: seq<Byte> -> nat
    var status: Status
    const table: array<Entry>
    var tablePreamble: seq<Byte>
    var tableChecksum: nat
    var header: Header
    var kind: nat
    var size: nat
    var dataSize: nat
    var handle: nat
    var pdata: array?<Byte>           // the caller's data area
    var nv: seq<Byte>                 // the EEPROM
    var transfer: Transfer
    var replies: seq<bool>            // the calls of the user callback

    function Buffer(): seq<Byte>
      reads this, pdata
    {
      if pdata == null || dataSize > pdata.Length then [] else pdata[..dataSize]
    }

    ghost function State(): StorageMachine.State
      reads this, table, pdata
    {
      StorageMachine.State(status, table[..], tableChecksum, tablePreamble, header, kind, size, dataSize, handle,
                           Buffer(), nv, transfer, replies)
    }

    /** The power-on state: only the EEPROM content is given. */
    constructor (crc: seq<Byte> -> nat, nv: seq<Byte>)
      requires |nv| == NV_SIZE
      ensures fresh(table) && this.crc == crc && Ready(State()) && status == Start && transfer == Idle
      ensures this.nv == nv && replies == []
    {
      this.crc, this.nv := crc, nv;
      status, transfer, replies := Start, Idle, [];
      table := new Entry[MAX_HANDLES](_ => EMPTY);
      tablePreamble, tableChecksum := [0, 0, 0, 0], 0;
      header, kind, size, dataSize, handle, pdata := Header([0, 0, 0, 0], 0, 0, 0), NULL_AREA, 0, 0, 0, null;
    }

    predicate TestHandle(h: nat)
      requires table.Length == MAX_HANDLES
      reads table
      ensures TestHandle(h) == Allocated(table[..], h)
    {
      h < MAX_HANDLES && table[h].address != 0 && table[h].kind != NULL_AREA && table[h].size != 0
    }

    method StorageWrite(h: nat, data: array<Byte>, n: nat) returns (ok: bool)
      requires table.Length == MAX_HANDLES && n <= data.Length && n < 0x1_0000
      modifies this
      ensures (State(), ok) == RequestWrite(old(State()), h, data[..n])
    {
      if status != Waiting { return false; }
      if !TestHandle(h) { return false; }
      pdata, handle, dataSize := data, h, U16(n);
      kind := table[h].kind;
      if !Managed(kind) { return false; }
      size := StoredSize(kind, dataSize);
      if table[h].size != size { return false; }
      status := Write;
      return true;
    }

    method StorageRead(h: nat, area: array<Byte>, n: nat) returns (ok: bool)
      requires table.Length == MAX_HANDLES && n <= area.Length && n < 0x1_0000
      modifies this
      ensures (State(), ok) == RequestRead(old(State()), h, area[..n])
    {
      if status != Waiting { return false; }
      if !TestHandle(h) { return false; }
      pdata, dataSize, handle := area, U16(n), h;
      if !Managed(table[h].kind) { return false; }
      size := StoredSize(table[h].kind, dataSize);
      if table[h].size != size { return false; }
      status := Read;
      return true;
    }

    method StorageCreateArea(h: nat, n: nat, areaKind: nat) returns (ok: bool)
      modifies this
      ensures (State(), ok) == RequestCreate(old(State()), h, n, areaKind)
    {
      if status != Waiting { return false; }
      pdata, kind, handle := null, areaKind, h;
      if !Managed(kind) { return false; }
      size := StoredSize(kind, n);
      status := AreaCreate;
      return true;
    }

    method StorageClearArea(h: nat) returns (ok: bool)
      modifies this
      ensures (State(), ok) == RequestClear(old(State()), h)
    {
      if status != Waiting { return false; }
      handle := h;
      status := AreaClear;
      return true;
    }

    // -------------------------------------------------------------- service

    method UserCallback(success: bool)
      modifies this`replies
      ensures replies == old(replies) + [success]
    {
      replies := replies + [success];
    }

    method FormatTable()
      requires table.Length == MAX_HANDLES
      modifies table, this`tablePreamble, this`tableChecksum
      ensures table[..] == seq(MAX_HANDLES, _ => EMPTY)
      ensures tablePreamble == TABLE_PREAMBLE && tableChecksum == TableChecksum(crc, table[..])
    {
      tablePreamble := TABLE_PREAMBLE;
      var i := 0;
      while i < MAX_HANDLES
        invariant 0 <= i <= MAX_HANDLES
        invariant forall j :: 0 <= j < i ==> table[j] == EMPTY
        invariant tablePreamble == TABLE_PREAMBLE
      {
        table[i] := Entry(0, NULL_AREA, 0);
        i := i + 1;
      }
      assert table[..] == seq(MAX_HANDLES, _ => EMPTY);
      tableChecksum := Crc(crc, EntryImage(table[0]));
    }

    method ServeCreate(ready: bool)
      requires Ready(State()) && status == AreaCreate
      modifies this`status, this`transfer, this`replies, this`tableChecksum, table
      ensures State() == ServiceCreate(crc, old(State()), ready)
    {
      ghost var t := table[..];
      var address := FindHole(table[..], size);
      table[handle] := Entry(address, kind, size);
      assert table[..] == t[handle := Entry(address, kind, size)];
      tableChecksum := Crc(crc, EntryImage(table[0]));
      if ready {
        transfer := TableWrite;
        status := AreaCreating;
      } else {
        table[handle] := EMPTY;
        assert table[..] == t[handle := Entry(address, kind, size)][handle := EMPTY];
        UserCallback(false);
        status := Waiting;
      }
    }

    method ServeClear(ready: bool)
      requires Ready(State()) && status == AreaClear
      modifies this`status, this`transfer, this`replies, this`header
      ensures State() == ServiceClear(old(State()), ready)
    {
      if !TestHandle(handle) {
        UserCallback(false);
        status := Waiting;
        return;
      }
      header := Header(INVALID_PREAMBLE, 0, 0, 0);
      var n := 4;
      if 4 > table[handle].size { n := table[handle].size; }
      if ready {
        transfer := ClearWrite(table[handle].address, n);
        status := AreaClearing;
      } else {
        UserCallback(false);
        status := Waiting;
      }
    }

    method ServeWritten(ready: bool)
      requires Ready(State()) && status == WritingDataComplete
      modifies this`status, this`transfer, this`replies, this`header
      ensures State() == ServiceWritten(crc, old(State()), ready)
    {
      if kind == CHECKSUM_STRUCT {
        header := Header(DATA_PREAMBLE, handle, 0, Crc(crc, Buffer()));
        if ready {
          transfer := HeaderWrite(table[handle].address);
          status := WritingHeader;
        } else {
          UserCallback(false);
          status := Waiting;
        }
      } else if kind == SELF_MANAGED {
        UserCallback(true);
        status := Waiting;
      }
    }

    method ServeWrite(ready: bool)
      requires Ready(State()) && status == Write
      modifies this`status, this`transfer, this`replies
      ensures State() == StorageMachine.Service(crc, old(State()), ready)
    {
      if Managed(kind) {
        if !ready {
          UserCallback(false);
          status := Waiting;
          return;
        }
        if kind == CHECKSUM_STRUCT {
          transfer := DataWrite(table[handle].address + HEADER_SIZE, dataSize);
        } else {
          transfer := DataWrite(table[handle].address, size);
        }
      }
      status := WritingData;
    }

    method ServeRead(ready: bool)
      requires Ready(State()) && status == Read
      modifies this`status, this`transfer, this`replies, this`kind
      ensures State() == StorageMachine.Service(crc, old(State()), ready)
    {
      kind := table[handle].kind;
      if Managed(kind) {
        if !ready {
          UserCallback(false);
          status := Waiting;
        } else if kind == CHECKSUM_STRUCT {
          transfer := HeaderRead(table[handle].address);
          status := ReadingHeader;
        } else {
          transfer := DataRead(table[handle].address, size);
          status := ReadingData;
        }
      }
    }

    method ServeReadComplete()
      requires Ready(State()) && status == ReadDataComplete
      modifies this`status, this`replies
      ensures forall ready: bool :: State() == StorageMachine.Service(crc, old(State()), ready)
    {
      var success := true;
      if kind == CHECKSUM_STRUCT {
        if header.handle != handle { success := false; }
        if header.preamble != DATA_PREAMBLE { success := false; }
        if header.checksum != Crc(crc, Buffer()) { success := false; }
      }
      status := Waiting;
      UserCallback(success);
    }

    /** `data_storage_service`. */
    method Service(ready: bool)
      requires Ready(State())
      modifies this`status, this`transfer, this`replies, this`header, this`kind, this`tablePreamble, this`tableChecksum, table
      ensures State() == StorageMachine.Service(crc, old(State()), ready)
    {
      hide Ends, Search, EntryImage, ServiceCreate, ServiceClear, ServiceWritten;
      match status {
        case Start =>
          tablePreamble := tablePreamble[0 := 0];
          tableChecksum := 0;
          if ready {
            transfer := TableRead;
            status := Reading0;
          }
        case CheckTable =>
          if tablePreamble == TABLE_PREAMBLE && Crc(crc, EntryImage(table[0])) == tableChecksum {
            status := Waiting;
          } else {
            FormatTable();
            if ready { transfer := FormatWrite; } else { status := Start; }
          }
        case Write => ServeWrite(ready);
        case WritingDataComplete => ServeWritten(ready);
        case Read => ServeRead(ready);
        case ReadHeaderComplete =>
          if ready {
            transfer := DataRead(table[handle].address + HEADER_SIZE, dataSize);
            status := ReadingData;
          } else {
            UserCallback(false);
            status := Waiting;
          }
        case ReadDataComplete => ServeReadComplete();
        case AreaCreate => ServeCreate(ready);
        case AreaClear => ServeClear(ready);
        case _ =>
      }
    }

    // -------------------------------------------------------------- transfer callbacks

    method CopyIn(data: seq<Byte>)
      requires pdata != null && dataSize <= pdata.Length && dataSize == |data|
      modifies pdata
      ensures Buffer() == data
    {
      var i := 0;
      while i < |data|
        invariant 0 <= i <= |data| && pdata[..i] == data[..i]
      {
        pdata[i] := data[i];
        i := i + 1;
      }
    }

    method LoadTable(entries: seq<Entry>)
      requires table.Length == |entries|
      modifies table
      ensures table[..] == entries
    {
      var i := 0;
      while i < |entries|
        invariant 0 <= i <= |entries| && table[..i] == entries[..i]
      {
        table[i] := entries[i];
        i := i + 1;
      }
    }

    /** A read from the EEPROM has ended: the bytes arrive, then the callback runs. */
    method ReadDone(success: bool)
      requires table.Length == MAX_HANDLES && TransferOk(State())
      requires transfer.TableRead? || transfer.HeaderRead? || transfer.DataRead?
      modifies this`status, this`transfer, this`replies, this`header, this`tablePreamble, this`tableChecksum, table, pdata
      ensures State() == Complete(old(State()), success)
    {
      hide EntriesOf;
      hide Patch;
      hide TableImage;
      hide HeaderImage;
      var done := transfer;
      transfer := Idle;
      if !success {
        if done.TableRead? {
          status := Start;
        } else {
          UserCallback(false);
          status := Waiting;
        }
      } else {
        match done {
          case TableRead =>
            tablePreamble, tableChecksum := nv[..4], WordAt(nv[184..186], 0);
            LoadTable(EntriesOf(nv[4..184]));
            status := CheckTable;
          case HeaderRead(a) =>
            header := HeaderOf(nv[a..a + HEADER_SIZE]);
            status := ReadHeaderComplete;
          case DataRead(a, n) =>
            if pdata != null && dataSize <= pdata.Length { CopyIn(nv[a..a + n]); }
            status := ReadDataComplete;
        }
      }
    }

    method StoreTable()
      requires table.Length == MAX_HANDLES && |nv| == NV_SIZE && |tablePreamble| == 4
      modifies this`nv
      ensures |TableImage(table[..], tableChecksum, tablePreamble)| <= |old(nv)|
      ensures nv == Patch(old(nv), 0, TableImage(table[..], tableChecksum, tablePreamble))
    {
      nv := Patch(nv, 0, TableImage(table[..], tableChecksum, tablePreamble));
    }

    /** A write to the EEPROM has ended: the bytes are stored, then the callback runs. */
    method WriteDone(success: bool)
      requires table.Length == MAX_HANDLES && TransferOk(State())
      requires !transfer.TableRead? && !transfer.HeaderRead? && !transfer.DataRead?
      modifies this`status, this`transfer, this`replies, this`nv
      ensures State() == Complete(old(State()), success)
    {
      hide TableImage;
      hide HeaderImage;
      hide Patch;
      HeaderImageSize(header);
      var done := transfer;
      transfer := Idle;
      match done {
        case Idle =>
        case FormatWrite =>
          if success {
            StoreTable();
            status := Waiting;
          } else {
            status := Start;
          }
        case TableWrite =>
          if success { StoreTable(); }
          UserCallback(success);
          status := Waiting;
        case DataWrite(a, n) =>
          if success {
            nv := Patch(nv, a, Buffer());
          } else {
            UserCallback(false);
          }
          status := WritingDataComplete;
        case HeaderWrite(a) =>
          if success { nv := Patch(nv, a, HeaderImage(header)); }
          status := Waiting;
          UserCallback(success);
        case ClearWrite(a, n) =>
          if success { nv := Patch(nv, a, HeaderImage(header)[..n]); }
          UserCallback(success);
          status := Waiting;
      }
    }

    /** The EEPROM driver calls back. */
    method TransferDone(success: bool)
      requires table.Length == MAX_HANDLES && TransferOk(State())
      modifies this`status, this`transfer, this`replies, this`header, this`tablePreamble, this`tableChecksum, this`nv, table, pdata
      ensures State() == Complete(old(State()), success)
    {
      hide Complete;
      if transfer.TableRead? || transfer.HeaderRead? || transfer.DataRead? {
        ReadDone(success);
      } else {
        WriteDone(success);
      }
    }
  }

  lemma HeaderImageSize(h: Header)
    ensures |HeaderImage(h)| == |h.preamble| + 6
  {
  }
}
