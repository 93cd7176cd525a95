/** Saving all blocks and loading them back, over the storage service. */
module ServicesRuns {
  import opened FixedWidth
  import opened StorageAllocator
  import opened StorageMachine
  import opened StorageContents
  import opened StorageRuns
  import opened ServicesMachine

  datatype Phase = Starting | StartWaiting | Resting | Saving | SaveWaiting | Loading | LoadWaiting | LoadDone

  /** `requests` are the blocks for which storage accepted a request, `loaded` those whose load callback ran. */
  datatype Services = Services(
    phase: Phase, index: nat, doAll: bool, flags: bv16, buffer: seq<Byte>, ram: seq<Byte>,
    callback: bool, replies: seq<bool>, requests: seq<nat>, loaded: seq<nat>)

  // ---------------------------------------------------------------- the services routine

  /** `data_services_save_all` and `data_services_load_all`. */
  function SaveAll(v: Services, flags: bv16, callback: bool): Services {
    if v.phase != Resting then v
    else v.(flags := flags, callback := callback, index := 0, doAll := true, phase := Saving)
  }

  function LoadAll(v: Services, flags: bv16, callback: bool): Services {
    if v.phase != Resting then v
    else v.(flags := flags, callback := callback, index := 0, doAll := true, phase := Loading)
  }

  const INVALID_HANDLE := 0xFFFF

  /** The first block from `from` on with this area, or the number of blocks. */
  function FirstWith(blocks: seq<Block>, area: nat, from: nat): (r: nat)
    requires from <= |blocks|
    ensures from <= r <= |blocks| && (r < |blocks| ==> blocks[r].area == area)
    ensures forall j :: from <= j < r ==> blocks[j].area != area
    decreases |blocks| - from
  {
    if from == |blocks| || blocks[from].area == area then from else FirstWith(blocks, area, from + 1)
  }

  /** `data_services_get_table_index`. */
  function TableIndex(blocks: seq<Block>, area: nat): nat {
    var r := FirstWith(blocks, area, 0);
    if r == |blocks| then INVALID_HANDLE else r
  }

  /** `data_services_save_specific` and `data_services_load_specific`: the block of one area, whatever its flags. */
  function SaveSpecific(blocks: seq<Block>, v: Services, area: nat, callback: bool): Services {
    var i := TableIndex(blocks, area);
    if v.phase != Resting then v
    else if i == INVALID_HANDLE then v.(index := i)
    else v.(index := i, callback := callback, doAll := false, flags := STORAGE_FLAG_ALL, phase := Saving)
  }

  function LoadSpecific(blocks: seq<Block>, v: Services, area: nat, callback: bool): Services {
    var i := TableIndex(blocks, area);
    if v.phase != Resting then v
    else if i == INVALID_HANDLE then v.(index := i)
    else v.(index := i, callback := callback, doAll := false, flags := STORAGE_FLAG_ALL, phase := Loading)
  }

  function Tell(v: Services, success: bool): Services {
    if v.callback then v.(replies := v.replies + [success]) else v
  }

  /** The request is over: tell the user and forget the callback. */
  function Finish(v: Services, success: bool): Services {
    Tell(v, success).(phase := Resting, callback := false)
  }

  predicate InShape(blocks: seq<Block>, v: Services) {
    |v.buffer| == BUFFER_SIZE && forall k :: 0 <= k < |blocks| ==> ItemsIn(blocks[k].items, v.ram)
  }

  /** Loading reads each block it asks for into the buffer without a size check, so there it must fit. */
  predicate Loadable(blocks: seq<Block>, v: Services) {
    && (v.phase in {Loading, LoadDone} ==>
          forall k :: 0 <= k < |blocks| && (v.doAll || k == v.index) ==> Total(blocks[k].items) <= BUFFER_SIZE)
    && (v.phase == LoadDone ==> v.index < |blocks|)
  }

  /** Storage accepted the request of this turn: wait for its callback. */
  function Await(v: Services): Services {
    match v.phase
    case Starting => v.(phase := StartWaiting)
    case Saving => v.(phase := SaveWaiting, requests := v.requests + [v.index])
    case Loading => v.(phase := LoadWaiting, requests := v.requests + [v.index])
    case _ => v
  }

  /** What a turn asks of storage. */
  datatype Demand = Nothing | Store(area: nat, data: seq<Byte>) | Fetch(area: nat, size: nat) | Create(area: nat, size: nat)

  /** `data_services_write`. */
  function WriteTurn(blocks: seq<Block>, v: Services): (r: (Services, Demand))
    requires InShape(blocks, v)
    ensures |r.0.buffer| == BUFFER_SIZE && |r.0.ram| == |v.ram|
  {
    if v.index >= |blocks| then (Finish(v, true), Nothing)
    else
      var b := blocks[v.index];
      var (buffer, n) := Serialise(b.items, v.ram, v.buffer, 0);
      var v1 := v.(buffer := buffer);
      if n == 0 then (Finish(v1, false), Nothing)
      else if Matches(b, v.flags) then (v1, Store(b.area, buffer[..n]))
      else if v.doAll then (v1.(index := v.index + 1), Nothing)
      else (Finish(v1, false), Nothing)
  }

  function WriteCallback(v: Services, success: bool): Services {
    if success && v.doAll then v.(index := v.index + 1, phase := Saving)
    else Tell(v, success).(phase := Resting)
  }

  /** `data_services_read_index`. */
  function ReadTurn(blocks: seq<Block>, v: Services): (r: (Services, Demand))
    requires InShape(blocks, v)
    ensures |r.0.buffer| == BUFFER_SIZE && |r.0.ram| == |v.ram|
  {
    if v.index >= |blocks| then (Finish(v, true), Nothing)
    else
      var b := blocks[v.index];
      if Matches(b, v.flags) then (v, Fetch(b.area, Total(b.items)))
      else if v.doAll then (v.(index := v.index + 1), Nothing)
      else (Finish(v, false), Nothing)
  }

  function ReadCallback(v: Services, success: bool): Services {
    if success then v.(phase := LoadDone)
    else if v.doAll then v.(index := v.index + 1, phase := Loading)
    else Finish(v, false)
  }

  /** `data_services_read_done`. */
  function ReadDone(blocks: seq<Block>, v: Services): (r: Services)
    requires InShape(blocks, v) && v.index < |blocks|
    ensures |r.buffer| == BUFFER_SIZE && |r.ram| == |v.ram|
  {
    var v1 := v.(ram := Deserialise(blocks[v.index].items, v.ram, v.buffer, 0), loaded := v.loaded + [v.index]);
    if v.doAll then v1.(index := v.index + 1, phase := Loading) else Finish(v1, true)
  }

  // ---------------------------------------------------------------- together with storage

  datatype System = System(v: Services, store: State)

  /** Storage, asked for what a turn demands, and the services called back with its answer. */
  ghost function StoreRequest(crc: seq<Byte> -> nat, v: Services, store: State, d: Demand): (z: System)
    requires d.Store?
    ensures z.v.buffer == v.buffer && z.v.ram == v.ram
    ensures z.v.phase == v.phase || z.v.phase == Saving || z.v.phase == Resting
  {
    var (s1, accepted) := RequestWrite(store, d.area, d.data);
    if !accepted then System(v, s1)
    else
      var s2 := Settle(crc, s1, 3);
      System(WriteCallback(Await(v), Answer(s2)), s2)
  }

  /** The services after storage ended the read they waited for. */
  function FetchEnds(v: Services, store: State): (w: Services)
    requires v.phase == Loading
    ensures |w.buffer| == |v.buffer| && w.ram == v.ram && w.doAll == v.doAll
    ensures w.phase in {Loading, LoadDone, Resting} && (w.phase == LoadDone || !v.doAll ==> w.index == v.index)
  {
    ReadCallback(Await(v).(buffer := Filled(v.buffer, store.buffer)), Answer(store))
  }

  ghost function FetchRequest(crc: seq<Byte> -> nat, v: Services, store: State, d: Demand): (z: System)
    requires d.Fetch? && d.size <= |v.buffer| && v.phase == Loading
    ensures |z.v.buffer| == |v.buffer| && z.v.ram == v.ram && z.v.doAll == v.doAll
    ensures z.v.phase in {Loading, LoadDone, Resting} && (z.v.phase == LoadDone || !v.doAll ==> z.v.index == v.index)
  {
    var (s1, accepted) := RequestRead(store, d.area, v.buffer[..d.size]);
    if !accepted then System(v, s1)
    else
      var s2 := Settle(crc, s1, 3);
      System(FetchEnds(v, s2), s2)
  }

  /** A turn of a save and, if it made a request, that request completed and called back. */
  ghost function StoreStep(blocks: seq<Block>, crc: seq<Byte> -> nat, y: System): (z: System)
    requires InShape(blocks, y.v) && y.v.phase == Saving
    ensures InShape(blocks, z.v) && |z.v.ram| == |y.v.ram| && (z.v.phase == Saving || z.v.phase == Resting)
  {
    var (v1, d) := WriteTurn(blocks, y.v);
    if d.Nothing? then System(v1, y.store) else StoreRequest(crc, v1, y.store, d)
  }

  /** The same of a load. */
  ghost function FetchStep(blocks: seq<Block>, crc: seq<Byte> -> nat, y: System): (z: System)
    requires InShape(blocks, y.v) && Loadable(blocks, y.v) && y.v.phase == Loading
    ensures InShape(blocks, z.v) && |z.v.ram| == |y.v.ram| && Loadable(blocks, z.v)
  {
    var (v1, d) := ReadTurn(blocks, y.v);
    if d.Nothing? then System(v1, y.store) else FetchRequest(crc, v1, y.store, d)
  }

  /** A turn of the services, with the request it may make. */
  ghost function Turn(blocks: seq<Block>, crc: seq<Byte> -> nat, y: System): (z: System)
    requires InShape(blocks, y.v) && Loadable(blocks, y.v)
    ensures InShape(blocks, z.v) && |z.v.ram| == |y.v.ram| && Loadable(blocks, z.v)
  {
    match y.v.phase
    case Saving => StoreStep(blocks, crc, y)
    case Loading => FetchStep(blocks, crc, y)
    case LoadDone => System(ReadDone(blocks, y.v), y.store)
    case _ => y
  }

  /** The last answer storage gave. */
  function Answer(s: State): bool {
    s.replies != [] && s.replies[|s.replies| - 1]
  }

  /** The services' buffer after storage read `data` into its front. */
  function Filled(buffer: seq<Byte>, data: seq<Byte>): seq<Byte> {
    if |data| <= |buffer| then data + buffer[|data|..] else buffer
  }

  ghost function Turns(blocks: seq<Block>, crc: seq<Byte> -> nat, y: System, k: nat): (z: System)
    requires InShape(blocks, y.v) && Loadable(blocks, y.v)
    ensures InShape(blocks, z.v) && |z.v.ram| == |y.v.ram| && Loadable(blocks, z.v)
    decreases k
  {
    if k == 0 || y.v.phase == Resting then y else Turns(blocks, crc, Turn(blocks, crc, y), k - 1)
  }

  // ---------------------------------------------------------------- saving

  /** Every block, matching or not, has between 1 and 256 bytes. */
  predicate AllFit(blocks: seq<Block>) {
    forall k :: 0 <= k < |blocks| ==> 0 < Total(blocks[k].items) <= BUFFER_SIZE
  }

  /** The matching blocks have areas of their own, of their size. */
  predicate HasAreas(blocks: seq<Block>, flags: bv16, table: seq<Entry>)
    requires |table| == MAX_HANDLES
  {
    && (forall k :: 0 <= k < |blocks| ==> blocks[k].area < MAX_HANDLES)
    && (forall k :: 0 <= k < |blocks| && Matches(blocks[k], flags) ==>
          var e := table[blocks[k].area];
          Used(e) && e.kind == CHECKSUM_STRUCT && DataSize(e) == Total(blocks[k].items))
    && (forall j, k :: 0 <= j < k < |blocks| ==> blocks[j].area != blocks[k].area)
  }

  /** The matching blocks from `from` on, in table order. */
  function Matching(blocks: seq<Block>, flags: bv16, from: nat): seq<nat>
    decreases |blocks| - from
  {
    if from >= |blocks| then []
    else (if Matches(blocks[from], flags) then [from] else []) + Matching(blocks, flags, from + 1)
  }

  /** In the middle of saving or loading all blocks, over storage at rest. */
  predicate Running(blocks: seq<Block>, crc: seq<Byte> -> nat, y: System, phase: Phase) {
    && InShape(blocks, y.v) && Loadable(blocks, y.v) && y.v.phase == phase && y.v.index <= |blocks| && y.v.doAll
    && Formatted(crc, y.store) && |y.store.table| == MAX_HANDLES
  }

  predicate Busy(blocks: seq<Block>, crc: seq<Byte> -> nat, y: System, phase: Phase) {
    Running(blocks, crc, y, phase) && HasAreas(blocks, y.v.flags, y.store.table)
  }

  lemma SaveMatching(blocks: seq<Block>, crc: seq<Byte> -> nat, y: System)
    requires Busy(blocks, crc, y, Saving) && y.v.index < |blocks| && Matches(blocks[y.v.index], y.v.flags)
    requires 0 < Total(blocks[y.v.index].items) <= BUFFER_SIZE
    ensures var z, b := Turn(blocks, crc, y), blocks[y.v.index];
      && z.v == y.v.(index := y.v.index + 1, buffer := z.v.buffer, requests := y.v.requests + [y.v.index])
      && OthersKept(crc, y.store, z.store, b.area)
      && ContentOf(crc, z.store, b.area) == Bytes(Image(b.items, y.v.ram))
  {
    hide OthersKept;
    hide Formatted;
    hide ContentOf;
    hide Settle;
    hide Serialise;
    hide RequestWrite;
    var b := blocks[y.v.index];
    SerialiseIsImage(b.items, y.v.ram, y.v.buffer, 0);
    var (buffer, n) := Serialise(b.items, y.v.ram, y.v.buffer, 0);
    assert buffer[..n] == Image(b.items, y.v.ram);
    Accepted(crc, y.store, b.area, buffer[..n]);
    WriteStores(crc, y.store, b.area, buffer[..n]);
  }

  lemma SaveOther(blocks: seq<Block>, crc: seq<Byte> -> nat, y: System)
    requires Running(blocks, crc, y, Saving) && y.v.index < |blocks| && !Matches(blocks[y.v.index], y.v.flags)
    requires 0 < Total(blocks[y.v.index].items) <= BUFFER_SIZE
    ensures var z := Turn(blocks, crc, y);
      z.v == y.v.(index := y.v.index + 1, buffer := z.v.buffer) && z.store == y.store
  {
    hide Formatted;
    hide Serialise;
    SerialiseIsImage(blocks[y.v.index].items, y.v.ram, y.v.buffer, 0);
  }

  /** Block `k` is stored as it is in `ram`. */
  predicate Saved(blocks: seq<Block>, crc: seq<Byte> -> nat, store: State, ram: seq<Byte>, k: nat)
    requires k < |blocks| && blocks[k].area < MAX_HANDLES && ItemsIn(blocks[k].items, ram) && Formatted(crc, store)
  {
    ContentOf(crc, store, blocks[k].area) == Bytes(Image(blocks[k].items, ram))
  }

  /** Only areas of matching blocks at or after `from` may differ. */
  predicate KeptExcept(blocks: seq<Block>, crc: seq<Byte> -> nat, y: System, store: State, from: nat)
    requires Formatted(crc, y.store) && Formatted(crc, store)
  {
    forall h: nat :: h < MAX_HANDLES && !Touched(blocks, y.v.flags, from, h) ==> ContentOf(crc, store, h) == ContentOf(crc, y.store, h)
  }

  predicate Touched(blocks: seq<Block>, flags: bv16, from: nat, h: nat) {
    exists j :: from <= j < |blocks| && Matches(blocks[j], flags) && blocks[j].area == h
  }

  predicate SavedFrom(blocks: seq<Block>, crc: seq<Byte> -> nat, store: State, flags: bv16, ram: seq<Byte>, from: nat)
    requires Formatted(crc, store)
    requires forall k :: 0 <= k < |blocks| ==> blocks[k].area < MAX_HANDLES && ItemsIn(blocks[k].items, ram)
  {
    forall j :: from <= j < |blocks| && Matches(blocks[j], flags) ==> Saved(blocks, crc, store, ram, j)
  }

  lemma SaveStep(blocks: seq<Block>, crc: seq<Byte> -> nat, y: System)
    requires Busy(blocks, crc, y, Saving) && y.v.index < |blocks| && AllFit(blocks)
    ensures var z, i := Turn(blocks, crc, y), y.v.index;
      && z.v == y.v.(index := i + 1, buffer := z.v.buffer,
                     requests := y.v.requests + (if Matches(blocks[i], y.v.flags) then [i] else []))
      && Busy(blocks, crc, z, Saving) && z.store.table == y.store.table
      && (Matches(blocks[i], y.v.flags) ==> Saved(blocks, crc, z.store, y.v.ram, i))
      && (forall h: nat :: h < MAX_HANDLES && !(Matches(blocks[i], y.v.flags) && h == blocks[i].area)
            ==> ContentOf(crc, z.store, h) == ContentOf(crc, y.store, h))
  {
    hide Turn;
    hide OthersKept;
    hide Formatted;
    hide ContentOf;
    hide Total;
    hide Image;
    var b := blocks[y.v.index];
    if Matches(b, y.v.flags) {
      SaveMatching(blocks, crc, y);
      FromKept(crc, y.store, Turn(blocks, crc, y).store, b.area);
    } else {
      SaveOther(blocks, crc, y);
      assert y.v.requests + [] == y.v.requests;
    }
  }

  /**
   Saving from block `y.v.index` on, all blocks fitting: matching blocks are stored as they
   are in RAM, in table order, one request each; every other area keeps its content; one
   positive answer ends it.
   */
  lemma {:induction false} SaveRun(blocks: seq<Block>, crc: seq<Byte> -> nat, y: System, k: nat)
    requires Busy(blocks, crc, y, Saving) && AllFit(blocks) && k == |blocks| - y.v.index
    ensures var z := Turns(blocks, crc, y, k + 1);
      && z.v.phase == Resting && z.v.ram == y.v.ram && z.v.loaded == y.v.loaded
      && z.v.replies == y.v.replies + (if y.v.callback then [true] else [])
      && z.v.requests == y.v.requests + Matching(blocks, y.v.flags, y.v.index)
      && Formatted(crc, z.store) && z.store.table == y.store.table
      && SavedFrom(blocks, crc, z.store, y.v.flags, y.v.ram, y.v.index)
      && KeptExcept(blocks, crc, y, z.store, y.v.index)
    decreases k
  {
    hide Turn;
    hide Formatted;
    hide ContentOf;
    hide Total;
    hide Image;
    hide SavedFrom;
    hide KeptExcept;
    hide Matches;
    hide InShape;
    hide Loadable;
    if k == 0 {
      SaveEnds(blocks, crc, y);
      SavedNone(blocks, crc, y);
    } else {
      var z := Turn(blocks, crc, y);
      SaveStep(blocks, crc, y);
      SaveRun(blocks, crc, z, k - 1);
      SavedMore(blocks, crc, y, z, Turns(blocks, crc, z, k).store);
    }
  }

  lemma SavedNone(blocks: seq<Block>, crc: seq<Byte> -> nat, y: System)
    requires Busy(blocks, crc, y, Saving) && y.v.index == |blocks|
    ensures SavedFrom(blocks, crc, y.store, y.v.flags, y.v.ram, y.v.index) && KeptExcept(blocks, crc, y, y.store, y.v.index)
  {
    hide Formatted;
    hide ContentOf;
  }

  /** One saved block more, knowing what happened to the later ones. */
  lemma SavedMore(blocks: seq<Block>, crc: seq<Byte> -> nat, y: System, z: System, last: State)
    requires Busy(blocks, crc, y, Saving) && Busy(blocks, crc, z, Saving) && y.v.index < |blocks|
    requires z.v.index == y.v.index + 1 && z.v.flags == y.v.flags && z.v.ram == y.v.ram && Formatted(crc, last)
    requires Matches(blocks[y.v.index], y.v.flags) ==> Saved(blocks, crc, z.store, y.v.ram, y.v.index)
    requires forall h: nat :: h < MAX_HANDLES && !(Matches(blocks[y.v.index], y.v.flags) && h == blocks[y.v.index].area)
               ==> ContentOf(crc, z.store, h) == ContentOf(crc, y.store, h)
    requires SavedFrom(blocks, crc, last, z.v.flags, z.v.ram, z.v.index) && KeptExcept(blocks, crc, z, last, z.v.index)
    ensures SavedFrom(blocks, crc, last, y.v.flags, y.v.ram, y.v.index) && KeptExcept(blocks, crc, y, last, y.v.index)
  {
    hide Formatted;
    hide ContentOf;
    hide Matches;
    hide Image;
    hide Touched;
    var i := y.v.index;
    if Matches(blocks[i], y.v.flags) {
      NotTouchedLater(blocks, y.v.flags, i);
    }
    forall h: nat | h < MAX_HANDLES && !Touched(blocks, y.v.flags, i, h)
      ensures ContentOf(crc, last, h) == ContentOf(crc, y.store, h)
    {
      TouchedFrom(blocks, y.v.flags, i, h);
    }
  }

  lemma NotTouchedLater(blocks: seq<Block>, flags: bv16, i: nat)
    requires i < |blocks| && forall j, k :: 0 <= j < k < |blocks| ==> blocks[j].area != blocks[k].area
    ensures !Touched(blocks, flags, i + 1, blocks[i].area)
  {
  }

  lemma TouchedFrom(blocks: seq<Block>, flags: bv16, i: nat, h: nat)
    requires i < |blocks|
    ensures Touched(blocks, flags, i, h) <==> (Matches(blocks[i], flags) && blocks[i].area == h) || Touched(blocks, flags, i + 1, h)
  {
    hide Matches;
  }

  lemma SaveEnds(blocks: seq<Block>, crc: seq<Byte> -> nat, y: System)
    requires Running(blocks, crc, y, Saving) && y.v.index == |blocks|
    ensures Turns(blocks, crc, y, 1) == System(Finish(y.v, true), y.store)
  {
    hide Formatted;
    var z := Turn(blocks, crc, y);
    assert Turns(blocks, crc, y, 1) == Turns(blocks, crc, z, 0);
  }

  predicate FitsFrom(blocks: seq<Block>, from: nat) {
    forall k :: from <= k < |blocks| ==> 0 < Total(blocks[k].items) <= BUFFER_SIZE
  }

  lemma SaveRefuses(blocks: seq<Block>, crc: seq<Byte> -> nat, y: System)
    requires Running(blocks, crc, y, Saving) && y.v.index < |blocks|
    requires !(0 < Total(blocks[y.v.index].items) <= BUFFER_SIZE)
    ensures var z := Turn(blocks, crc, y);
      z.v.phase == Resting && z.v.replies == y.v.replies + (if y.v.callback then [false] else [])
  {
    hide Formatted;
    hide Serialise;
    SerialiseIsImage(blocks[y.v.index].items, y.v.ram, y.v.buffer, 0);
  }

  // ---------------------------------------------------------------- loading

  /** Every matching block from `from` on is stored as it was in `saved`, or has no valid content. */
  predicate Loads(blocks: seq<Block>, crc: seq<Byte> -> nat, store: State, flags: bv16, saved: seq<Byte>, from: nat)
    requires Formatted(crc, store)
    requires forall k :: 0 <= k < |blocks| ==> blocks[k].area < MAX_HANDLES && ItemsIn(blocks[k].items, saved)
  {
    forall j :: from <= j < |blocks| && Matches(blocks[j], flags) ==>
      ContentOf(crc, store, blocks[j].area).Missing? || Saved(blocks, crc, store, saved, j)
  }

  /** RAM address `k` belongs to a parameter of a matching block from `from` on that has valid content. */
  predicate Restored(blocks: seq<Block>, crc: seq<Byte> -> nat, store: State, flags: bv16, from: nat, k: int)
    requires Formatted(crc, store) && forall k :: 0 <= k < |blocks| ==> blocks[k].area < MAX_HANDLES
  {
    exists j :: from <= j < |blocks| && Matches(blocks[j], flags)
      && ContentOf(crc, store, blocks[j].area).Bytes? && Covers(blocks[j].items, k)
  }

  /** One block of a load: skipped, unreadable, or read and copied to RAM; storage keeps all contents. */
  lemma LoadBlock(blocks: seq<Block>, crc: seq<Byte> -> nat, y: System, saved: seq<Byte>)
    requires Busy(blocks, crc, y, Loading) && y.v.index < |blocks| && |saved| == |y.v.ram| && InShape(blocks, y.v.(ram := saved))
    requires Loads(blocks, crc, y.store, y.v.flags, saved, y.v.index)
    ensures var b := blocks[y.v.index];
      var loads := Matches(b, y.v.flags) && ContentOf(crc, y.store, b.area).Bytes?;
      var k := if loads then 2 else 1;
      var z := Turns(blocks, crc, y, k);
      && Busy(blocks, crc, z, Loading)
      && z.v == y.v.(index := y.v.index + 1, buffer := z.v.buffer, ram := z.v.ram,
                     requests := y.v.requests + (if Matches(b, y.v.flags) then [y.v.index] else []),
                     loaded := y.v.loaded + (if loads then [y.v.index] else []))
      && (forall a :: 0 <= a < |saved| ==> z.v.ram[a] == if loads && Covers(b.items, a) then saved[a] else y.v.ram[a])
      && z.store.table == y.store.table && z.store.nv == y.store.nv && Formatted(crc, z.store)
  {
    hide Formatted;
    hide ContentOf;
    hide Covers;
    hide Image;
    hide HasAreas;
    hide Total;
    var b := blocks[y.v.index];
    if !Matches(b, y.v.flags) {
      SkipBlock(blocks, crc, y);
    } else {
      FetchBlock(blocks, crc, y);
      var y1 := Turn(blocks, crc, y);
      if ContentOf(crc, y.store, b.area).Bytes? {
        CopyBlock(blocks, crc, y, y1, saved);
      } else {
        OneTurn(blocks, crc, y);
      }
    }
  }

  lemma OneTurn(blocks: seq<Block>, crc: seq<Byte> -> nat, y: System)
    requires InShape(blocks, y.v) && Loadable(blocks, y.v) && y.v.phase != Resting
    ensures Turns(blocks, crc, y, 1) == Turn(blocks, crc, y)
  {
    hide Turn;
    assert Turns(blocks, crc, y, 1) == Turns(blocks, crc, Turn(blocks, crc, y), 0);
  }

  lemma SkipBlock(blocks: seq<Block>, crc: seq<Byte> -> nat, y: System)
    requires Busy(blocks, crc, y, Loading) && y.v.index < |blocks| && !Matches(blocks[y.v.index], y.v.flags)
    ensures Turns(blocks, crc, y, 1) == System(y.v.(index := y.v.index + 1), y.store)
    ensures Busy(blocks, crc, Turns(blocks, crc, y, 1), Loading)
  {
    hide Formatted;
    hide HasAreas;
    OneTurn(blocks, crc, y);
  }

  /** A matching block is requested; the answer is positive exactly when it has content, which is then in the buffer. */
  lemma FetchBlock(blocks: seq<Block>, crc: seq<Byte> -> nat, y: System)
    requires Busy(blocks, crc, y, Loading) && y.v.index < |blocks| && Matches(blocks[y.v.index], y.v.flags)
    ensures var z, b := Turn(blocks, crc, y), blocks[y.v.index];
      var c := ContentOf(crc, y.store, b.area);
      && z.store.table == y.store.table && z.store.nv == y.store.nv && Formatted(crc, z.store)
      && |z.v.buffer| == BUFFER_SIZE
      && (if c.Bytes? then
            z.v == y.v.(phase := LoadDone, buffer := z.v.buffer, requests := y.v.requests + [y.v.index])
            && |c.data| <= BUFFER_SIZE && z.v.buffer[..|c.data|] == c.data && |c.data| == Total(b.items)
          else
            z.v == y.v.(index := y.v.index + 1, buffer := z.v.buffer, requests := y.v.requests + [y.v.index])
            && Busy(blocks, crc, z, Loading))
  {
    hide Formatted;
    hide ContentOf;
    hide Settle;
    hide RequestRead;
    var b := blocks[y.v.index];
    var area := y.v.buffer[..Total(b.items)];
    Accepted(crc, y.store, b.area, area);
    ReadReports(crc, y.store, b.area, area);
    ContentSize(crc, y.store, b.area);
  }

  lemma ContentSize(crc: seq<Byte> -> nat, s: State, h: nat)
    requires Formatted(crc, s) && h < MAX_HANDLES && Used(s.table[h]) && s.table[h].kind == CHECKSUM_STRUCT
    ensures ContentOf(crc, s, h).Bytes? ==> |ContentOf(crc, s, h).data| == DataSize(s.table[h])
  {
    hide HeaderValid;
    EntryFacts(crc, s, h);
  }

  lemma CopyBlock(blocks: seq<Block>, crc: seq<Byte> -> nat, y: System, y1: System, saved: seq<Byte>)
    requires Busy(blocks, crc, y, Loading) && y.v.index < |blocks| && |saved| == |y.v.ram| && InShape(blocks, y.v.(ram := saved))
    requires y1 == Turn(blocks, crc, y) && |y1.v.buffer| == BUFFER_SIZE
    requires y1.v == y.v.(phase := LoadDone, buffer := y1.v.buffer, requests := y.v.requests + [y.v.index])
    requires y1.store.table == y.store.table && Formatted(crc, y1.store)
    requires var items := blocks[y.v.index].items;
      Total(items) <= BUFFER_SIZE && y1.v.buffer[..Total(items)] == Image(items, saved)
    ensures var z := Turns(blocks, crc, y, 2);
      && Busy(blocks, crc, z, Loading) && z.store == y1.store
      && z.v == y1.v.(index := y.v.index + 1, phase := Loading, ram := z.v.ram, loaded := y.v.loaded + [y.v.index])
      && forall a :: 0 <= a < |saved| ==> z.v.ram[a] == if Covers(blocks[y.v.index].items, a) then saved[a] else y.v.ram[a]
  {
    hide Formatted;
    hide Covers;
    hide Image;
    hide HasAreas;
    hide Turn;
    CommitBlock(blocks, crc, y1, saved);
    OneTurn(blocks, crc, y1);
    assert Turns(blocks, crc, y, 2) == Turns(blocks, crc, y1, 1);
  }

  /** The turn that copies a block from the buffer to RAM. */
  lemma CommitBlock(blocks: seq<Block>, crc: seq<Byte> -> nat, y: System, saved: seq<Byte>)
    requires InShape(blocks, y.v) && Loadable(blocks, y.v) && y.v.phase == LoadDone && y.v.doAll && y.v.index < |blocks|
    requires |saved| == |y.v.ram| && InShape(blocks, y.v.(ram := saved))
    requires var items := blocks[y.v.index].items;
      Total(items) <= BUFFER_SIZE && y.v.buffer[..Total(items)] == Image(items, saved)
    ensures var z := Turn(blocks, crc, y);
      && z.store == y.store
      && z.v == y.v.(index := y.v.index + 1, phase := Loading, ram := z.v.ram, loaded := y.v.loaded + [y.v.index])
      && forall a :: 0 <= a < |saved| ==> z.v.ram[a] == if Covers(blocks[y.v.index].items, a) then saved[a] else y.v.ram[a]
  {
    hide Covers;
    hide Image;
    hide Deserialise;
    assert y.v.buffer[0..0 + Total(blocks[y.v.index].items)] == y.v.buffer[..Total(blocks[y.v.index].items)];
    DeserialiseRestores(blocks[y.v.index].items, saved, y.v.ram, y.v.buffer, 0);
  }

  lemma {:induction false} TurnsAdd(blocks: seq<Block>, crc: seq<Byte> -> nat, y: System, a: nat, b: nat)
    requires InShape(blocks, y.v) && Loadable(blocks, y.v)
    ensures Turns(blocks, crc, y, a + b) == Turns(blocks, crc, Turns(blocks, crc, y, a), b)
    decreases a
  {
    hide Turn;
    if a > 0 && y.v.phase != Resting {
      TurnsAdd(blocks, crc, Turn(blocks, crc, y), a - 1, b);
    }
  }

  lemma ContentStays(crc: seq<Byte> -> nat, s: State, x: State, h: nat)
    requires Formatted(crc, s) && Formatted(crc, x) && x.table == s.table && x.nv == s.nv && h < MAX_HANDLES
    ensures ContentOf(crc, x, h) == ContentOf(crc, s, h)
  {
  }

  /** The matching blocks from `from` on that have valid content. */
  function Valid(blocks: seq<Block>, crc: seq<Byte> -> nat, store: State, flags: bv16, from: nat): seq<nat>
    requires Formatted(crc, store) && forall k :: 0 <= k < |blocks| ==> blocks[k].area < MAX_HANDLES
    decreases |blocks| - from
  {
    if from >= |blocks| then []
    else (if Matches(blocks[from], flags) && ContentOf(crc, store, blocks[from].area).Bytes? then [from] else [])
         + Valid(blocks, crc, store, flags, from + 1)
  }

  /**
   Loading from block `y.v.index` on restores exactly the parameters of matching blocks
   with valid content, visits each block once in table order, and answers once.
   */
  lemma {:induction false} LoadRun(blocks: seq<Block>, crc: seq<Byte> -> nat, y: System, saved: seq<Byte>) returns (k: nat)
    requires Busy(blocks, crc, y, Loading) && |saved| == |y.v.ram| && InShape(blocks, y.v.(ram := saved))
    requires Loads(blocks, crc, y.store, y.v.flags, saved, y.v.index)
    ensures var z := Turns(blocks, crc, y, k);
      && z.v.phase == Resting
      && (forall a :: 0 <= a < |saved| ==>
            z.v.ram[a] == if Restored(blocks, crc, y.store, y.v.flags, y.v.index, a) then saved[a] else y.v.ram[a])
      && z.v.replies == y.v.replies + (if y.v.callback then [true] else [])
      && z.v.requests == y.v.requests + Matching(blocks, y.v.flags, y.v.index)
      && z.v.loaded == y.v.loaded + Valid(blocks, crc, y.store, y.v.flags, y.v.index)
      && z.store.nv == y.store.nv && z.store.table == y.store.table
    decreases |blocks| - y.v.index
  {
    hide Turn;
    hide Formatted;
    hide ContentOf;
    hide Total;
    hide Image;
    hide Covers;
    hide Restored;
    hide HasAreas;
    hide Loads;
    hide Valid;
    hide Matching;
    hide Turns;
    if y.v.index == |blocks| {
      LoadEnds(blocks, crc, y);
      NothingRestored(blocks, crc, y);
      k := 1;
    } else {
      AreasInRange(blocks, y.v.flags, y.store.table);
      var b := blocks[y.v.index];
      var loads := Matches(b, y.v.flags) && ContentOf(crc, y.store, b.area).Bytes?;
      LoadBlock(blocks, crc, y, saved);
      var k1 := if loads then 2 else 1;
      var y1 := Turns(blocks, crc, y, k1);
      LoadsLater(blocks, crc, y.store, y1.store, y.v.flags, saved, y.v.index);
      var k2 := LoadRun(blocks, crc, y1, saved);
      TurnsAdd(blocks, crc, y, k1, k2);
      k := k1 + k2;
    }
  }

  lemma LoadEnds(blocks: seq<Block>, crc: seq<Byte> -> nat, y: System)
    requires Running(blocks, crc, y, Loading) && y.v.index == |blocks|
    ensures Turns(blocks, crc, y, 1) == System(Finish(y.v, true), y.store)
  {
    hide Formatted;
    OneTurn(blocks, crc, y);
  }

  lemma NothingRestored(blocks: seq<Block>, crc: seq<Byte> -> nat, y: System)
    requires Busy(blocks, crc, y, Loading) && y.v.index == |blocks|
    ensures forall a :: !Restored(blocks, crc, y.store, y.v.flags, y.v.index, a)
    ensures Matching(blocks, y.v.flags, y.v.index) == [] && Valid(blocks, crc, y.store, y.v.flags, y.v.index) == []
  {
    hide Formatted;
    hide ContentOf;
  }

  /** What the rest of a load sees after one block. */
  lemma LoadsLater(blocks: seq<Block>, crc: seq<Byte> -> nat, s: State, x: State, flags: bv16, saved: seq<Byte>, i: nat)
    requires Formatted(crc, s) && Formatted(crc, x) && x.table == s.table && x.nv == s.nv && i < |blocks|
    requires forall k :: 0 <= k < |blocks| ==> blocks[k].area < MAX_HANDLES && ItemsIn(blocks[k].items, saved)
    requires Loads(blocks, crc, s, flags, saved, i)
    ensures Loads(blocks, crc, x, flags, saved, i + 1)
    ensures Valid(blocks, crc, s, flags, i) ==
      (if Matches(blocks[i], flags) && ContentOf(crc, s, blocks[i].area).Bytes? then [i] else []) + Valid(blocks, crc, x, flags, i + 1)
    ensures Matching(blocks, flags, i) == (if Matches(blocks[i], flags) then [i] else []) + Matching(blocks, flags, i + 1)
    ensures forall a :: Restored(blocks, crc, s, flags, i, a) <==>
      (Matches(blocks[i], flags) && ContentOf(crc, s, blocks[i].area).Bytes? && Covers(blocks[i].items, a))
      || Restored(blocks, crc, x, flags, i + 1, a)
  {
    hide Formatted;
    hide ContentOf;
    hide Covers;
    hide Image;
    hide Matches;
    SameContents(crc, s, x);
    SameValid(blocks, crc, s, x, flags, i + 1);
  }

  lemma SameContents(crc: seq<Byte> -> nat, s: State, x: State)
    requires Formatted(crc, s) && Formatted(crc, x) && x.table == s.table && x.nv == s.nv
    ensures forall h: nat :: h < MAX_HANDLES ==> ContentOf(crc, x, h) == ContentOf(crc, s, h)
  {
    hide Formatted;
    hide ContentOf;
    forall h: nat | h < MAX_HANDLES
      ensures ContentOf(crc, x, h) == ContentOf(crc, s, h)
    {
      ContentStays(crc, s, x, h);
    }
  }

  lemma {:induction false} SameValid(blocks: seq<Block>, crc: seq<Byte> -> nat, s: State, x: State, flags: bv16, from: nat)
    requires Formatted(crc, s) && Formatted(crc, x) && x.table == s.table && x.nv == s.nv
    requires forall k :: 0 <= k < |blocks| ==> blocks[k].area < MAX_HANDLES
    ensures Valid(blocks, crc, x, flags, from) == Valid(blocks, crc, s, flags, from)
    decreases |blocks| - from
  {
    hide Formatted;
    hide ContentOf;
    hide Matches;
    if from < |blocks| {
      ContentStays(crc, s, x, blocks[from].area);
      SameValid(blocks, crc, s, x, flags, from + 1);
    }
  }

  // ---------------------------------------------------------------- the round trip

  /** RAM address `k` belongs to a parameter of a block matching `flags`. */
  predicate Selected(blocks: seq<Block>, flags: bv16, k: int) {
    exists j :: 0 <= j < |blocks| && Matches(blocks[j], flags) && Covers(blocks[j].items, k)
  }

  /**
   Save all, let every variable change in any way, load all with the same flags: every
   parameter of every matching block has its saved value again -- also where parameters
   share variables -- no other byte of RAM is touched, each matching block is stored and
   fetched once in table order, and each of the two requests is answered once.
   */
  lemma SaveThenLoad(blocks: seq<Block>, crc: seq<Byte> -> nat, y: System, flags: bv16, changed: seq<Byte>)
    returns (k: nat, l: nat)
    requires y.v.phase == Resting && InShape(blocks, y.v) && AllFit(blocks) && |changed| == |y.v.ram|
    requires Formatted(crc, y.store) && |y.store.table| == MAX_HANDLES && HasAreas(blocks, flags, y.store.table)
    ensures InShape(blocks, SaveAll(y.v, flags, true)) && Loadable(blocks, SaveAll(y.v, flags, true))
    ensures var s := Turns(blocks, crc, System(SaveAll(y.v, flags, true), y.store), k);
      && s.v.phase == Resting
      && var start := LoadAll(s.v.(ram := changed), flags, true);
      && InShape(blocks, start) && Loadable(blocks, start)
      && var z := Turns(blocks, crc, System(start, s.store), l);
      && z.v.phase == Resting
      && (forall a :: 0 <= a < |changed| ==> z.v.ram[a] == if Selected(blocks, flags, a) then y.v.ram[a] else changed[a])
      && z.v.replies == y.v.replies + [true, true]
      && z.v.requests == y.v.requests + Matching(blocks, flags, 0) + Matching(blocks, flags, 0)
  {
    hide Turn;
    hide Turns;
    hide Formatted;
    hide ContentOf;
    hide Image;
    hide Covers;
    hide Matches;
    hide Valid;
    hide HasAreas;
    hide KeptExcept;
    var y0 := System(SaveAll(y.v, flags, true), y.store);
    k := |blocks| + 1;
    SaveRun(blocks, crc, y0, |blocks|);
    var s := Turns(blocks, crc, y0, k);
    var start := LoadAll(s.v.(ram := changed), flags, true);
    AreasInRange(blocks, flags, y.store.table);
    assert Loads(blocks, crc, s.store, flags, y.v.ram, 0);
    l := LoadRun(blocks, crc, System(start, s.store), y.v.ram);
    forall a | 0 <= a < |changed|
      ensures Restored(blocks, crc, s.store, flags, 0, a) <==> Selected(blocks, flags, a)
    {
      SelectedIsRestored(blocks, crc, s.store, flags, y.v.ram, a);
    }
  }

  lemma AreasInRange(blocks: seq<Block>, flags: bv16, table: seq<Entry>)
    requires |table| == MAX_HANDLES && HasAreas(blocks, flags, table)
    ensures forall k :: 0 <= k < |blocks| ==> blocks[k].area < MAX_HANDLES
  {
  }

  lemma SelectedIsRestored(blocks: seq<Block>, crc: seq<Byte> -> nat, store: State, flags: bv16, ram: seq<Byte>, a: int)
    requires Formatted(crc, store)
    requires forall k :: 0 <= k < |blocks| ==> blocks[k].area < MAX_HANDLES && ItemsIn(blocks[k].items, ram)
    requires SavedFrom(blocks, crc, store, flags, ram, 0)
    ensures Restored(blocks, crc, store, flags, 0, a) <==> Selected(blocks, flags, a)
  {
    hide Formatted;
    hide ContentOf;
    hide Image;
    hide Covers;
    hide Matches;
    if Selected(blocks, flags, a) {
      var j :| 0 <= j < |blocks| && Matches(blocks[j], flags) && Covers(blocks[j].items, a);
      assert Saved(blocks, crc, store, ram, j);
    }
  }
}
