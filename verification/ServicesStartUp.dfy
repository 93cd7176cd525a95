/** Starting data services: areas are created for blocks that have none, then the start-up blocks are loaded. */
module ServicesStartUp {
  import opened FixedWidth
  import opened StorageAllocator
  import opened StorageSearch
  import opened StorageMachine
  import opened StorageContents
  import opened StorageRuns
  import opened ServicesMachine
  import opened ServicesRuns

  // ---------------------------------------------------------------- the start-up routine

  /** Every block has a handle of its own. */
  predicate OwnAreas(blocks: seq<Block>) {
    (forall k :: 0 <= k < |blocks| ==> blocks[k].area < MAX_HANDLES) &&
    (forall j, k :: 0 <= j < k < |blocks| ==> blocks[j].area != blocks[k].area)
  }

  /** `storage_check_area_exists` for a block, which is stored as a checksummed structure. */
  predicate AreaExists(table: seq<Entry>, b: Block)
    requires b.area < |table|
  {
    table[b.area].address != 0 && table[b.area].kind == CHECKSUM_STRUCT &&
    table[b.area].size == U16(Total(b.items) + HEADER_SIZE)
  }

  /** The first block from `from` on without its area, or the number of blocks. */
  function FirstMissing(blocks: seq<Block>, table: seq<Entry>, from: nat): (k: nat)
    requires OwnAreas(blocks) && |table| == MAX_HANDLES && from <= |blocks|
    ensures from <= k <= |blocks| && (forall j :: from <= j < k ==> AreaExists(table, blocks[j]))
    ensures k < |blocks| ==> !AreaExists(table, blocks[k])
    decreases |blocks| - from
  {
    if from == |blocks| || !AreaExists(table, blocks[from]) then from else FirstMissing(blocks, table, from + 1)
  }

  /** `data_services_init_table_index`. */
  function StartTurn(blocks: seq<Block>, table: seq<Entry>, started: bool, flags: bv16, v: Services): (Services, Demand)
    requires OwnAreas(blocks) && |table| == MAX_HANDLES && v.index <= |blocks|
  {
    if v.index < |blocks| && !started then (v, Nothing)
    else
      var k := FirstMissing(blocks, table, v.index);
      if k < |blocks| then (v.(index := k), Create(blocks[k].area, Total(blocks[k].items)))
      else (v.(index := 0, doAll := true, callback := false, flags := flags, phase := Loading), Nothing)
  }

  /** Only with a block still to be looked at does the start-up wait for storage; with none left it loads at once. */
  lemma WaitsForStorage(blocks: seq<Block>, table: seq<Entry>, started: bool, flags: bv16, v: Services)
    requires OwnAreas(blocks) && |table| == MAX_HANDLES && v.index <= |blocks|
    ensures v.index < |blocks| && !started ==> StartTurn(blocks, table, started, flags, v) == (v, Nothing)
    ensures v.index == |blocks| ==>
      var (w, d) := StartTurn(blocks, table, started, flags, v);
      d == Nothing && w.phase == Loading && w.index == 0 && w.doAll && w.flags == flags && !w.callback
  {
  }

  /** `data_services_init_all_callback`. */
  function StartCallback(v: Services, success: bool): Services {
    v.(index := if success then v.index + 1 else v.index, phase := Starting)
  }

  /** A creation that failed is asked for again, one that succeeded is not: the next turn looks at the block behind it. */
  lemma FailedCreationRepeats(blocks: seq<Block>, table: seq<Entry>, flags: bv16, v: Services)
    requires OwnAreas(blocks) && |table| == MAX_HANDLES && v.index <= |blocks| && v.phase == Starting
    requires StartTurn(blocks, table, true, flags, v).1.Create?
    ensures var (v1, d) := StartTurn(blocks, table, true, flags, v);
      && StartTurn(blocks, table, true, flags, StartCallback(Await(v1), false)) == (v1, d)
      && StartCallback(Await(v1), true) == v1.(index := v1.index + 1)
  {
    hide AreaExists;
  }

  /** `storage_services_started`. */
  predicate Started(s: State) {
    s.status != Start && s.status != CheckTable && s.status != Reading0
  }

  predicate CanStart(blocks: seq<Block>, y: System) {
    OwnAreas(blocks) && |y.store.table| == MAX_HANDLES && y.v.index <= |blocks|
  }

  /** A turn of the start-up and, if it made a request, that request completed and called back. */
  ghost function StartStep(blocks: seq<Block>, crc: seq<Byte> -> nat, flags: bv16, y: System): System
    requires CanStart(blocks, y)
  {
    var (v1, d) := StartTurn(blocks, y.store.table, Started(y.store), flags, y.v);
    if !d.Create? then System(v1, y.store)
    else
      var (s1, accepted) := RequestCreate(y.store, d.area, d.size, CHECKSUM_STRUCT);
      if !accepted then System(v1, s1)
      else
        var s2 := Settle(crc, s1, 3);
        System(StartCallback(Await(v1), Answer(s2)), s2)
  }

  ghost function StartSteps(blocks: seq<Block>, crc: seq<Byte> -> nat, flags: bv16, y: System, k: nat): System
    decreases k
  {
    if k == 0 || y.v.phase != Starting || !CanStart(blocks, y) then y
    else StartSteps(blocks, crc, flags, StartStep(blocks, crc, flags, y), k - 1)
  }

  // ---------------------------------------------------------------- every block gets its area

  function Stored(b: Block): nat {
    StoredSize(CHECKSUM_STRUCT, Total(b.items))
  }

  ghost function WithArea(table: seq<Entry>, b: Block): seq<Entry>
    requires b.area < |table| && Ends(table, Stored(b))
  {
    table[b.area := Entry(Search(table, Stored(b)), CHECKSUM_STRUCT, Stored(b))]
  }

  /** The block's area fits somewhere, and the search does not get stuck before it. */
  ghost predicate Fits(table: seq<Entry>, b: Block) {
    (exists a: nat :: IsHole(table, a, Stored(b))) && Ends(table, Stored(b))
  }

  /** There is room for the areas still missing, one after the other. */
  ghost predicate RoomFor(blocks: seq<Block>, table: seq<Entry>, from: nat)
    requires OwnAreas(blocks) && |table| == MAX_HANDLES && from <= |blocks|
    decreases |blocks| - from
  {
    var k := FirstMissing(blocks, table, from);
    k < |blocks| ==>
      Fits(table, blocks[k]) && RoomFor(blocks, WithArea(table, blocks[k]), k + 1)
  }

  predicate AllExist(blocks: seq<Block>, table: seq<Entry>, n: nat)
    requires OwnAreas(blocks) && |table| == MAX_HANDLES && n <= |blocks|
  {
    forall j :: 0 <= j < n ==> AreaExists(table, blocks[j])
  }

  /** A handle whose area start-up has no reason to create. */
  predicate Undisturbed(blocks: seq<Block>, table: seq<Entry>, h: nat)
    requires OwnAreas(blocks) && |table| == MAX_HANDLES
  {
    forall j :: 0 <= j < |blocks| && blocks[j].area == h ==> AreaExists(table, blocks[j])
  }

  lemma ExistingFits(blocks: seq<Block>, flags: bv16, table: seq<Entry>)
    requires OwnAreas(blocks) && |table| == MAX_HANDLES && AllFit(blocks) && AllExist(blocks, table, |blocks|)
    ensures HasAreas(blocks, flags, table)
  {
    hide Total, Matches;
    forall k | 0 <= k < |blocks|
      ensures var e := table[blocks[k].area];
        Used(e) && e.kind == CHECKSUM_STRUCT && DataSize(e) == Total(blocks[k].items)
    {
      assert AreaExists(table, blocks[k]);
    }
  }

  /** One area created: that block has it, all others keep theirs and all other handles their content. */
  lemma CreatesArea(blocks: seq<Block>, crc: seq<Byte> -> nat, s: State, k: nat)
    requires OwnAreas(blocks) && k < |blocks| && 0 < Total(blocks[k].items) <= BUFFER_SIZE
    requires Formatted(crc, s) && |s.table| == MAX_HANDLES && Fits(s.table, blocks[k])
    ensures var b := blocks[k];
      var (s1, accepted) := RequestCreate(s, b.area, Total(b.items), CHECKSUM_STRUCT);
      var x := Settle(crc, s1, 3);
      && accepted && Formatted(crc, x) && x.table == WithArea(s.table, b) && Answer(x)
      && AreaExists(x.table, b)
      && (forall h: nat :: h < MAX_HANDLES && h != b.area ==> ContentOf(crc, x, h) == ContentOf(crc, s, h))
  {
    hide Settle, Formatted, ContentOf, Total, IsHole, Ends, Search;
    var b := blocks[k];
    Waits(crc, s);
    CreateAllocates(crc, s, b.area, Total(b.items), CHECKSUM_STRUCT);
    HoleSmall(s.table, Stored(b), Search(s.table, Stored(b)));
  }

  lemma Waits(crc: seq<Byte> -> nat, s: State)
    requires Formatted(crc, s)
    ensures s.status == Waiting && Started(s)
  {
    hide Directory;
  }

  lemma StillExist(blocks: seq<Block>, table: seq<Entry>, t: seq<Entry>, k: nat, n: nat)
    requires OwnAreas(blocks) && |table| == |t| == MAX_HANDLES && n <= k < |blocks|
    requires forall h :: 0 <= h < MAX_HANDLES && h != blocks[k].area ==> t[h] == table[h]
    requires AllExist(blocks, table, n) && (forall j :: n <= j < k ==> AreaExists(table, blocks[j])) && AreaExists(t, blocks[k])
    ensures AllExist(blocks, t, k + 1)
    ensures forall h: nat :: h < MAX_HANDLES && Undisturbed(blocks, table, h) && !AreaExists(table, blocks[k]) ==>
      h != blocks[k].area && Undisturbed(blocks, t, h)
  {
    hide Total;
    forall j | 0 <= j < k + 1 ensures AreaExists(t, blocks[j]) {
      if j < n { assert AreaExists(table, blocks[j]); }
    }
  }

  lemma StartsLoading(blocks: seq<Block>, crc: seq<Byte> -> nat, flags: bv16, y: System)
    requires y.v.phase == Starting && CanStart(blocks, y) && Formatted(crc, y.store)
    requires FirstMissing(blocks, y.store.table, y.v.index) == |blocks|
    ensures StartStep(blocks, crc, flags, y) ==
      System(y.v.(index := 0, doAll := true, callback := false, flags := flags, phase := Loading), y.store)
  {
    hide Formatted, AreaExists, FirstMissing, Settle;
    Waits(crc, y.store);
  }

  lemma WithAreaElsewhere(table: seq<Entry>, b: Block)
    requires b.area < |table| && Ends(table, Stored(b))
    ensures forall h :: 0 <= h < |table| && h != b.area ==> WithArea(table, b)[h] == table[h]
  {
    hide Ends, Search, Total;
  }

  /** A turn that finds an area missing creates it and goes on behind it. */
  lemma StartCreates(blocks: seq<Block>, crc: seq<Byte> -> nat, flags: bv16, y: System)
    requires y.v.phase == Starting && CanStart(blocks, y) && AllFit(blocks) && Formatted(crc, y.store)
    requires var i := FirstMissing(blocks, y.store.table, y.v.index); i < |blocks| && Fits(y.store.table, blocks[i])
    ensures var z, i := StartStep(blocks, crc, flags, y), FirstMissing(blocks, y.store.table, y.v.index);
      && z.v == y.v.(index := i + 1)
      && Formatted(crc, z.store) && |z.store.table| == MAX_HANDLES && z.store.table == WithArea(y.store.table, blocks[i])
      && AreaExists(z.store.table, blocks[i])
      && (forall h: nat :: h < MAX_HANDLES && h != blocks[i].area ==> ContentOf(crc, z.store, h) == ContentOf(crc, y.store, h))
  {
    hide Settle, Formatted, ContentOf, Total, AreaExists, Fits, Started, FirstMissing;
    Waits(crc, y.store);
    CreatesArea(blocks, crc, y.store, FirstMissing(blocks, y.store.table, y.v.index));
  }

  /**
   Start-up ends with an area for every block, created where it was missing, leaves the content
   of every other handle alone, and goes on to load the blocks marked for it.
   */
  lemma {:induction false} StartUp(blocks: seq<Block>, crc: seq<Byte> -> nat, flags: bv16, y: System) returns (k: nat)
    requires y.v.phase == Starting && CanStart(blocks, y) && AllFit(blocks)
    requires Formatted(crc, y.store) && AllExist(blocks, y.store.table, y.v.index) && RoomFor(blocks, y.store.table, y.v.index)
    ensures var z := StartSteps(blocks, crc, flags, y, k);
      && z.v == y.v.(index := 0, doAll := true, callback := false, flags := flags, phase := Loading)
      && Formatted(crc, z.store) && |z.store.table| == MAX_HANDLES && AllExist(blocks, z.store.table, |blocks|)
      && (forall h: nat :: h < MAX_HANDLES && Undisturbed(blocks, y.store.table, h) ==>
            ContentOf(crc, z.store, h) == ContentOf(crc, y.store, h))
    decreases |blocks| - y.v.index
  {
    hide Settle, Formatted, ContentOf, Total, AreaExists, IsHole, Ends, Undisturbed, StartStep, FirstMissing, WithArea;
    var i := FirstMissing(blocks, y.store.table, y.v.index);
    var z := StartStep(blocks, crc, flags, y);
    if i == |blocks| {
      StartsLoading(blocks, crc, flags, y);
      k := 1;
      assert StartSteps(blocks, crc, flags, y, 1) == StartSteps(blocks, crc, flags, z, 0);
    } else {
      StartCreates(blocks, crc, flags, y);
      WithAreaElsewhere(y.store.table, blocks[i]);
      StillExist(blocks, y.store.table, z.store.table, i, y.v.index);
      var l := StartUp(blocks, crc, flags, z);
      k := l + 1;
      assert StartSteps(blocks, crc, flags, y, k) == StartSteps(blocks, crc, flags, z, l);
    }
  }

  // ---------------------------------------------------------------- a power cycle

  /** Services before start-up: nothing in RAM is to be relied on. */
  predicate PoweredOn(blocks: seq<Block>, v: Services) {
    v.phase == Starting && v.index == 0 && InShape(blocks, v)
  }

  /** Without missing areas start-up goes straight on to loading. */
  lemma NothingMissing(blocks: seq<Block>, crc: seq<Byte> -> nat, flags: bv16, y: System)
    requires y.v.phase == Starting && CanStart(blocks, y) && Formatted(crc, y.store) && AllExist(blocks, y.store.table, |blocks|)
    ensures StartSteps(blocks, crc, flags, y, 1) ==
      System(y.v.(index := 0, doAll := true, callback := false, flags := flags, phase := Loading), y.store)
  {
    hide Formatted, AreaExists;
    Waits(crc, y.store);
    var z := StartStep(blocks, crc, flags, y);
    assert StartSteps(blocks, crc, flags, y, 1) == StartSteps(blocks, crc, flags, z, 0);
  }

  /** The contents of all handles are the same in both storages. */
  predicate SameContent(crc: seq<Byte> -> nat, s: State, x: State)
    requires Formatted(crc, s)
  {
    Formatted(crc, x) && x.table == s.table && forall h: nat :: h < MAX_HANDLES ==> ContentOf(crc, x, h) == ContentOf(crc, s, h)
  }

  lemma Reboots(crc: seq<Byte> -> nat, s: State, memory: State)
    requires Formatted(crc, s) && Rebooted(s, memory)
    ensures Formatted(crc, s) && SameContent(crc, s, Settle(crc, memory, 3))
  {
    hide Settle, Formatted, ContentOf, Rebooted;
    RebootKeeps(crc, s, memory, 0);
    forall h: nat | h < MAX_HANDLES ensures ContentOf(crc, Settle(crc, memory, 3), h) == ContentOf(crc, s, h) {
      RebootKeeps(crc, s, memory, h);
    }
  }

  lemma StillSaved(blocks: seq<Block>, crc: seq<Byte> -> nat, s: State, x: State, saving: bv16, loading: bv16, ram: seq<Byte>)
    requires Formatted(crc, s) && SameContent(crc, s, x)
    requires forall k :: 0 <= k < |blocks| ==> blocks[k].area < MAX_HANDLES && ItemsIn(blocks[k].items, ram)
    requires SavedFrom(blocks, crc, s, saving, ram, 0)
    requires forall k :: 0 <= k < |blocks| && Matches(blocks[k], loading) ==> Matches(blocks[k], saving)
    ensures Formatted(crc, x) && SavedFrom(blocks, crc, x, loading, ram, 0) && Loads(blocks, crc, x, loading, ram, 0)
  {
    hide Formatted, ContentOf, Image, Matches;
    forall j | 0 <= j < |blocks| && Matches(blocks[j], loading) ensures Saved(blocks, crc, x, ram, j) {
      assert Saved(blocks, crc, s, ram, j);
    }
  }

  /** `now` has the saved value of every parameter of a selected block, and is as `before` elsewhere. */
  ghost predicate SelectedRestored(blocks: seq<Block>, flags: bv16, saved: seq<Byte>, before: seq<Byte>, now: seq<Byte>) {
    |saved| == |before| == |now| &&
    forall a :: 0 <= a < |now| ==> now[a] == if Selected(blocks, flags, a) then saved[a] else before[a]
  }

  /**
   Parameters survive a power cycle: saved, then power off and on with anything in RAM, then storage
   and services started, every parameter of every block loaded at start-up has its saved value, and no
   other byte of RAM is touched.
   */
  lemma PowerCycle(blocks: seq<Block>, crc: seq<Byte> -> nat, y: System, saving: bv16, loading: bv16,
                                      off: System, memory: State, v: Services, on: System) returns (k: nat)
    requires y.v.phase == Resting && InShape(blocks, y.v) && AllFit(blocks) && Formatted(crc, y.store)
    requires OwnAreas(blocks) && |y.store.table| == MAX_HANDLES && AllExist(blocks, y.store.table, |blocks|)
    requires forall j :: 0 <= j < |blocks| && Matches(blocks[j], loading) ==> Matches(blocks[j], saving)
    requires InShape(blocks, SaveAll(y.v, saving, true)) && Loadable(blocks, SaveAll(y.v, saving, true))
    requires off == Turns(blocks, crc, System(SaveAll(y.v, saving, true), y.store), |blocks| + 1)
    requires Rebooted(off.store, memory) && PoweredOn(blocks, v) && |v.ram| == |y.v.ram|
    requires on == StartSteps(blocks, crc, loading, System(v, Settle(crc, memory, 3)), 1)
    ensures InShape(blocks, on.v) && Loadable(blocks, on.v)
    ensures var z := Turns(blocks, crc, on, k);
      z.v.phase == Resting && SelectedRestored(blocks, loading, y.v.ram, v.ram, z.v.ram)
  {
    hide Turns, Formatted, ContentOf, Image, Covers, Matches, Valid, KeptExcept, Settle, Rebooted, Total, SavedFrom, Loads, Restored, StartSteps;
    ExistingFits(blocks, saving, y.store.table);
    SaveRun(blocks, crc, System(SaveAll(y.v, saving, true), y.store), |blocks|);
    Reboots(crc, off.store, memory);
    var x := Settle(crc, memory, 3);
    StillSaved(blocks, crc, off.store, x, saving, loading, y.v.ram);
    NothingMissing(blocks, crc, loading, System(v, x));
    ExistingFits(blocks, loading, x.table);
    k := LoadRun(blocks, crc, on, y.v.ram);
    forall a | 0 <= a < |v.ram| ensures Restored(blocks, crc, x, loading, 0, a) <==> Selected(blocks, loading, a) {
      SelectedIsRestored(blocks, crc, x, loading, y.v.ram, a);
    }
  }
}
