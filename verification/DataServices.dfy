/** Data services as they are written: a static buffer, the variables in RAM, and event routines. */
module DataServices {
  import opened FixedWidth
  import opened StorageAllocator
  import opened StorageMachine
  import opened ServicesMachine
  import opened Runs = ServicesRuns
  import opened ServicesStartUp

  class DataServices {
    const blocks: seq<Block>
    const buffer: array<Byte>
    const ram: array<Byte>            // all parameter variables
    var phase: Phase
    var index: nat
    var doAll: bool
    var flags: bv16
    var callback: bool
    var replies: seq<bool>
    var requests: seq<nat>
    var loaded: seq<nat>

    ghost function Value(): Services
      reads this, buffer, ram
    {
      Services(phase, index, doAll, flags, buffer[..], ram[..], callback, replies, requests, loaded)
    }

    ghost predicate Valid()
      reads this, buffer, ram
    {
      buffer != ram && InShape(blocks, Value())
    }

    constructor (blocks: seq<Block>, ram: array<Byte>)
      requires forall k :: 0 <= k < |blocks| ==> ItemsIn(blocks[k].items, ram[..])
      ensures Valid() && fresh(buffer) && this.blocks == blocks && this.ram == ram && phase == Resting
    {
      this.blocks, this.ram := blocks, ram;
      buffer := new Byte[BUFFER_SIZE](_ => 0);
      phase, index, doAll, flags, callback := Resting, 0, false, 0, false;
      replies, requests, loaded := [], [], [];
    }

    // -------------------------------------------------------------- serialisation

    method CopyToBuffer(at: nat, a: nat, n: nat)
      requires buffer != ram && at + n <= buffer.Length && a + n <= ram.Length
      modifies buffer
      ensures buffer[..] == Patch(old(buffer[..]), at, ram[a..a + n])
    {
      ghost var before := buffer[..];
      var i := 0;
      while i < n
        invariant 0 <= i <= n
        invariant forall j :: 0 <= j < buffer.Length ==> buffer[j] == if at <= j < at + i then ram[a + j - at] else before[j]
      {
        buffer[at + i] := ram[a + i];
        i := i + 1;
      }
      assert buffer[..] == Patch(before, at, ram[a..a + n]);
    }

    method CopyToRam(a: nat, at: nat, n: nat)
      requires buffer != ram && at + n <= buffer.Length && a + n <= ram.Length
      modifies ram
      ensures ram[..] == Patch(old(ram[..]), a, buffer[at..at + n])
    {
      ghost var before := ram[..];
      var i := 0;
      while i < n
        invariant 0 <= i <= n
        invariant forall j :: 0 <= j < ram.Length ==> ram[j] == if a <= j < a + i then buffer[at + j - a] else before[j]
      {
        ram[a + i] := buffer[at + i];
        i := i + 1;
      }
      assert ram[..] == Patch(before, a, buffer[at..at + n]);
    }

    method SerialiseItemsToBuffer(items: seq<Item>) returns (size: nat)
      requires buffer != ram && buffer.Length == BUFFER_SIZE && ItemsIn(items, ram[..])
      modifies buffer
      ensures (buffer[..], size) == Serialise(items, ram[..], old(buffer[..]), 0)
    {
      hide Patch;
      var at, k := 0, 0;
      ghost var image := ram[..];
      assert items[0..] == items;
      while k < |items|
        invariant 0 <= k <= |items| && 0 <= at <= BUFFER_SIZE && ram[..] == image
        invariant Serialise(items, image, old(buffer[..]), 0) == Serialise(items[k..], image, buffer[..], at)
      {
        assert items[k..][1..] == items[k + 1..];
        if at + items[k].size > BUFFER_SIZE { return 0; }
        assert image[items[k].address..items[k].address + items[k].size] == ram[items[k].address..items[k].address + items[k].size];
        CopyToBuffer(at, items[k].address, items[k].size);
        at := at + items[k].size;
        k := k + 1;
      }
      return at;
    }

    method SerialiseBufferToItems(items: seq<Item>)
      requires buffer != ram && buffer.Length == BUFFER_SIZE && ItemsIn(items, ram[..])
      modifies ram
      ensures ram[..] == Deserialise(items, old(ram[..]), buffer[..], 0)
    {
      hide Patch;
      var at, k := 0, 0;
      ghost var data := buffer[..];
      assert items[0..] == items;
      while k < |items|
        invariant 0 <= k <= |items| && 0 <= at <= BUFFER_SIZE && buffer[..] == data
        invariant Deserialise(items, old(ram[..]), data, 0) == Deserialise(items[k..], ram[..], data, at)
      {
        assert items[k..][1..] == items[k + 1..];
        if at + items[k].size > BUFFER_SIZE { return; }
        assert data[at..at + items[k].size] == buffer[at..at + items[k].size];
        CopyToRam(items[k].address, at, items[k].size);
        at := at + items[k].size;
        k := k + 1;
      }
    }

    method CalcItemSize(items: seq<Item>) returns (size: nat)
      ensures size == Total(items)
    {
      size := 0;
      var k := 0;
      assert items[0..] == items;
      while k < |items|
        invariant 0 <= k <= |items|
        invariant size + Total(items[k..]) == Total(items)
      {
        assert items[k..][1..] == items[k + 1..];
        size := size + items[k].size;
        k := k + 1;
      }
    }

    // -------------------------------------------------------------- requests

    method SaveAll(f: bv16, withCallback: bool) returns (ok: bool)
      modifies this
      ensures Value() == Runs.SaveAll(old(Value()), f, withCallback) && ok == (old(phase) == Resting)
    {
      if phase != Resting { return false; }
      flags, callback, index, doAll, phase := f, withCallback, 0, true, Saving;
      return true;
    }

    method LoadAll(f: bv16, withCallback: bool)
      modifies this
      ensures Value() == Runs.LoadAll(old(Value()), f, withCallback)
    {
      if phase != Resting { return; }
      flags, callback, index, doAll, phase := f, withCallback, 0, true, Loading;
    }

    method FindTableIndex(area: nat) returns (r: nat)
      requires |blocks| < INVALID_HANDLE
      ensures r == TableIndex(blocks, area)
    {
      r := 0;
      while r < |blocks|
        invariant 0 <= r <= |blocks|
        invariant FirstWith(blocks, area, r) == FirstWith(blocks, area, 0)
      {
        if blocks[r].area == area { return; }
        r := r + 1;
      }
      r := INVALID_HANDLE;
    }

    /** Saving one block: accepted or not, the answer to the caller is always negative. */
    method SaveSpecific(area: nat, withCallback: bool) returns (ok: bool)
      requires |blocks| < INVALID_HANDLE
      modifies this
      ensures Value() == Runs.SaveSpecific(blocks, old(Value()), area, withCallback) && !ok
    {
      if phase != Resting { return false; }
      index := FindTableIndex(area);
      if index == INVALID_HANDLE { return false; }
      callback, doAll, flags, phase := withCallback, false, STORAGE_FLAG_ALL, Saving;
      return false;
    }

    method LoadSpecific(area: nat, withCallback: bool) returns (ok: bool)
      requires |blocks| < INVALID_HANDLE
      modifies this
      ensures Value() == Runs.LoadSpecific(blocks, old(Value()), area, withCallback) && !ok
    {
      if phase != Resting { return false; }
      index := FindTableIndex(area);
      if index == INVALID_HANDLE { return false; }
      callback, doAll, flags, phase := withCallback, false, STORAGE_FLAG_ALL, Loading;
      return false;
    }

    // -------------------------------------------------------------- event routines

    method UserCallback(success: bool)
      modifies this`replies
      ensures replies == if callback then old(replies) + [success] else old(replies)
    {
      if callback { replies := replies + [success]; }
    }

    method End(success: bool)
      modifies this`replies, this`callback, this`phase
      ensures Value() == Finish(old(Value()), success)
    {
      UserCallback(success);
      callback := false;
      phase := Resting;
    }

    /** `data_services_init_table_index`; `table` is the storage directory as `storage_check_area_exists` sees it. */
    method InitTableIndex(table: seq<Entry>, started: bool, startFlags: bv16) returns (demand: Demand)
      requires OwnAreas(blocks) && |table| == MAX_HANDLES && index <= |blocks|
      modifies this`index, this`doAll, this`callback, this`flags, this`phase
      ensures (Value(), demand) == StartTurn(blocks, table, started, startFlags, old(Value()))
    {
      hide Total, AreaExists;
      while index < |blocks|
        invariant index <= |blocks| && (old(index) < |blocks| && !started ==> index == old(index))
        invariant FirstMissing(blocks, table, old(index)) == FirstMissing(blocks, table, index)
        invariant Value() == old(Value()).(index := index)
        decreases |blocks| - index
      {
        if !started { return Nothing; }
        if AreaExists(table, blocks[index]) {
          index := index + 1;
        } else {
          var size := CalcItemSize(blocks[index].items);
          return Create(blocks[index].area, size);
        }
      }
      index, doAll, callback, flags := 0, true, false, startFlags;
      phase := Loading;
      return Nothing;
    }

    /** Storage accepted the request a routine made. */
    method RequestAccepted()
      modifies this`phase, this`requests
      ensures Value() == Await(old(Value()))
    {
      match phase {
        case Starting =>
          phase := StartWaiting;
        case Saving =>
          requests := requests + [index];
          phase := SaveWaiting;
        case Loading =>
          requests := requests + [index];
          phase := LoadWaiting;
        case _ =>
      }
    }

    /** `data_services_init_all_callback`. */
    method AreaCreated(success: bool)
      modifies this`index, this`phase
      ensures Value() == StartCallback(old(Value()), success)
    {
      if success { index := index + 1; }
      phase := Starting;
    }

    /** `data_services_write`: at most one storage request, which `demand` names. */
    method Write() returns (demand: Demand)
      requires Valid()
      modifies this`replies, this`callback, this`phase, this`index, buffer
      ensures (Value(), demand) == WriteTurn(blocks, old(Value()))
    {
      hide Serialise;
      hide Matches;
      if index >= |blocks| {
        End(true);
        return Nothing;
      }
      var b := blocks[index];
      var size := SerialiseItemsToBuffer(b.items);
      if size == 0 {
        End(false);
        return Nothing;
      }
      if Matches(b, flags) { return Store(b.area, buffer[..size]); }
      if doAll {
        index := index + 1;
      } else {
        End(false);
      }
      return Nothing;
    }

    /** `data_services_write_callback`. */
    method StorageWritten(success: bool)
      modifies this`replies, this`phase, this`index
      ensures Value() == WriteCallback(old(Value()), success)
    {
      if success {
        if doAll {
          index := index + 1;
          phase := Saving;
        } else {
          UserCallback(true);
          phase := Resting;
        }
      } else {
        UserCallback(false);
        phase := Resting;
      }
    }

    /** `data_services_read_index`. */
    method ReadIndex() returns (demand: Demand)
      requires Valid()
      modifies this`replies, this`callback, this`phase, this`index
      ensures (Value(), demand) == ReadTurn(blocks, old(Value()))
    {
      hide Total;
      hide Matches;
      if index >= |blocks| {
        End(true);
        return Nothing;
      }
      var b := blocks[index];
      if Matches(b, flags) {
        var size := CalcItemSize(b.items);
        return Fetch(b.area, size);
      }
      if doAll {
        index := index + 1;
      } else {
        End(false);
      }
      return Nothing;
    }

    /** `data_services_read_callback`. */
    method StorageRead(success: bool)
      modifies this`replies, this`callback, this`phase, this`index
      ensures Value() == ReadCallback(old(Value()), success)
    {
      if success {
        phase := LoadDone;
      } else if doAll {
        index := index + 1;
        phase := Loading;
      } else {
        End(false);
      }
    }

    /** `data_services_read_done`. */
    method CommitRead()
      requires Valid() && index < |blocks|
      modifies this`replies, this`callback, this`phase, this`index, this`loaded, ram
      ensures Value() == ReadDone(blocks, old(Value()))
    {
      hide Deserialise;
      SerialiseBufferToItems(blocks[index].items);
      loaded := loaded + [index];
      if !doAll {
        End(true);
        return;
      }
      index := index + 1;
      phase := Loading;
    }
  }
}
