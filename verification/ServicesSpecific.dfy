/** Saving and loading the block of one area, and what a failed EEPROM write makes of a save. */
module ServicesSpecific {
  import opened FixedWidth
  import opened StorageAllocator
  import opened StorageMachine
  import opened StorageContents
  import opened StorageRuns
  import opened ServicesMachine
  import opened ServicesRuns
  import opened ServicesAnswers

  /** Nothing going on, storage formatted, and fewer blocks than the invalid handle. */
  predicate Rests(blocks: seq<Block>, crc: seq<Byte> -> nat, y: System) {
    && InShape(blocks, y.v) && y.v.phase == Resting && |blocks| < 0xFFFF
    && Formatted(crc, y.store) && |y.store.table| == MAX_HANDLES
  }

  function AfterSave(blocks: seq<Block>, y: System, area: nat, callback: bool): System {
    System(SaveSpecific(blocks, y.v, area, callback), y.store)
  }

  function AfterLoad(blocks: seq<Block>, y: System, area: nat, callback: bool): System {
    System(LoadSpecific(blocks, y.v, area, callback), y.store)
  }

  /** In the middle of saving or loading the one block `v.index`. */
  predicate Alone(blocks: seq<Block>, crc: seq<Byte> -> nat, y: System, phase: Phase) {
    && InShape(blocks, y.v) && Loadable(blocks, y.v) && y.v.phase == phase && y.v.index < |blocks| && !y.v.doAll
    && y.v.flags == STORAGE_FLAG_ALL && Formatted(crc, y.store) && |y.store.table| == MAX_HANDLES
  }

  /** A block is selected by a flag of its own, or by bit 0. */
  lemma AllMatch(b: Block)
    ensures Matches(b, STORAGE_FLAG_ALL)
    ensures forall flags: bv16 :: Matches(b, flags) <==> (flags & 1) | (b.flags & flags) != 0
  {
  }

  /** While something is going on no other request is accepted. */
  lemma BusyRefuses(blocks: seq<Block>, v: Services, flags: bv16, area: nat, callback: bool)
    requires v.phase != Resting
    ensures SaveAll(v, flags, callback) == v == LoadAll(v, flags, callback)
    ensures SaveSpecific(blocks, v, area, callback) == v == LoadSpecific(blocks, v, area, callback)
  {
  }

  lemma StaysResting(blocks: seq<Block>, crc: seq<Byte> -> nat, y: System, n: nat)
    requires InShape(blocks, y.v) && y.v.phase == Resting
    ensures Turns(blocks, crc, y, n) == y
  {
  }

  /** The request accepted turns a resting system into one that is saving the first block with this area. */
  lemma SaveBegins(blocks: seq<Block>, crc: seq<Byte> -> nat, y: System, area: nat, callback: bool)
    requires Rests(blocks, crc, y)
    ensures var (x, i) := (AfterSave(blocks, y, area, callback), FirstWith(blocks, area, 0));
      && InShape(blocks, x.v) && Loadable(blocks, x.v) && x.store == y.store
      && (i == |blocks| ==> x.v == y.v.(index := 0xFFFF))
      && (i < |blocks| ==> Alone(blocks, crc, x, Saving) && x.v.index == i && x.v.callback == callback
                           && x.v == y.v.(index := i, callback := callback, doAll := false, flags := STORAGE_FLAG_ALL, phase := Saving))
  {
    hide Formatted;
  }

  lemma LoadBegins(blocks: seq<Block>, crc: seq<Byte> -> nat, y: System, area: nat, callback: bool)
    requires Rests(blocks, crc, y)
    requires var i := FirstWith(blocks, area, 0); i < |blocks| ==> Total(blocks[i].items) <= BUFFER_SIZE
    ensures var (x, i) := (AfterLoad(blocks, y, area, callback), FirstWith(blocks, area, 0));
      && InShape(blocks, x.v) && Loadable(blocks, x.v) && x.store == y.store
      && (i == |blocks| ==> x.v == y.v.(index := 0xFFFF))
      && (i < |blocks| ==> Alone(blocks, crc, x, Loading) && x.v.index == i && x.v.callback == callback
                           && x.v == y.v.(index := i, callback := callback, doAll := false, flags := STORAGE_FLAG_ALL, phase := Loading))
  {
    hide Formatted;
  }

  // ---------------------------------------------------------------- saving

  /** What saving one block leaves: it is stored, everything else is as it was, and there was one request and one answer. */
  predicate StoredAlone(blocks: seq<Block>, crc: seq<Byte> -> nat, y: System, z: System, i: nat, callback: bool)
    requires Formatted(crc, y.store) && i < |blocks| && ItemsIn(blocks[i].items, y.v.ram) && blocks[i].area < MAX_HANDLES
  {
    && z.v.phase == Resting && z.v.ram == y.v.ram && z.v.loaded == y.v.loaded
    && z.v.requests == y.v.requests + [i]
    && z.v.replies == y.v.replies + (if callback then [true] else [])
    && Formatted(crc, z.store) && z.store.table == y.store.table
    && ContentOf(crc, z.store, blocks[i].area) == Bytes(Image(blocks[i].items, y.v.ram))
    && forall h: nat :: h < MAX_HANDLES && h != blocks[i].area ==> ContentOf(crc, z.store, h) == ContentOf(crc, y.store, h)
  }

  lemma StoreTurn(blocks: seq<Block>, crc: seq<Byte> -> nat, y: System)
    requires Alone(blocks, crc, y, Saving) && FitsBuffer(blocks[y.v.index]) && HasArea(y.store.table, blocks[y.v.index])
    ensures StoredAlone(blocks, crc, y, Turn(blocks, crc, y), y.v.index, y.v.callback)
    ensures var (b, z) := (blocks[y.v.index], Turn(blocks, crc, y)); z.v.buffer[..Total(b.items)] == Image(b.items, y.v.ram)
  {
    hide OthersKept, Formatted, ContentOf, Settle, Serialise, RequestWrite, Total, Image;
    var b := blocks[y.v.index];
    AllMatch(b);
    SerialiseIsImage(b.items, y.v.ram, y.v.buffer, 0);
    var (buffer, n) := Serialise(b.items, y.v.ram, y.v.buffer, 0);
    assert buffer[..n] == Image(b.items, y.v.ram);
    Accepted(crc, y.store, b.area, buffer[..n]);
    WriteStores(crc, y.store, b.area, buffer[..n]);
    FromKept(crc, y.store, Settle(crc, RequestWrite(y.store, b.area, buffer[..n]).0, 3), b.area);
  }

  /** A block that does not fit the buffer, or has no byte, is answered negatively; nothing is asked of storage. */
  lemma UnfitTurn(blocks: seq<Block>, crc: seq<Byte> -> nat, y: System)
    requires Alone(blocks, crc, y, Saving) && !FitsBuffer(blocks[y.v.index])
    ensures var z := Turn(blocks, crc, y);
      z.store == y.store && z.v == Finish(y.v, false).(buffer := z.v.buffer)
  {
    hide Formatted, Serialise, Total;
    SerialiseIsImage(blocks[y.v.index].items, y.v.ram, y.v.buffer, 0);
  }

  /** A block without an area of its size: storage refuses the request, and it is made again. */
  lemma RefusedTurn(blocks: seq<Block>, crc: seq<Byte> -> nat, y: System)
    requires Alone(blocks, crc, y, Saving) && FitsBuffer(blocks[y.v.index]) && !HasArea(y.store.table, blocks[y.v.index])
    ensures var z := Turn(blocks, crc, y);
      && Alone(blocks, crc, z, Saving) && z.store.table == y.store.table
      && z.v == y.v.(buffer := z.v.buffer)
  {
    hide Formatted, Serialise, RequestWrite, Total, Settle;
    var b := blocks[y.v.index];
    AllMatch(b);
    SerialiseIsImage(b.items, y.v.ram, y.v.buffer, 0);
    var (buffer, n) := Serialise(b.items, y.v.ram, y.v.buffer, 0);
    RefusedWrite(crc, y.store, b.area, buffer[..n]);
  }

  lemma {:induction false} RefusedForEver(blocks: seq<Block>, crc: seq<Byte> -> nat, y: System, n: nat)
    requires Alone(blocks, crc, y, Saving) && FitsBuffer(blocks[y.v.index]) && !HasArea(y.store.table, blocks[y.v.index])
    ensures var z := Turns(blocks, crc, y, n).v; z.phase == Saving && z.replies == y.v.replies
    decreases n
  {
    hide Turn, Alone, HasArea, FitsBuffer;
    AloneFacts(blocks, crc, y, Saving);
    if n > 0 {
      RefusedTurn(blocks, crc, y);
      AloneFacts(blocks, crc, Turn(blocks, crc, y), Saving);
      RefusedForEver(blocks, crc, Turn(blocks, crc, y), n - 1);
    }
  }

  lemma AloneFacts(blocks: seq<Block>, crc: seq<Byte> -> nat, y: System, phase: Phase)
    requires Alone(blocks, crc, y, phase)
    ensures InShape(blocks, y.v) && Loadable(blocks, y.v) && y.v.phase == phase && y.v.index < |blocks|
  {
  }

  /**
   The save of one area: with a block that fits the buffer and has an area of its size, one turn stores that block and
   nothing else, asks storage once and answers once, positively.
   */
  lemma SpecificSave(blocks: seq<Block>, crc: seq<Byte> -> nat, y: System, area: nat, callback: bool, n: nat)
    requires Rests(blocks, crc, y) && FirstWith(blocks, area, 0) < |blocks| && n > 0
    requires var b := blocks[FirstWith(blocks, area, 0)]; FitsBuffer(b) && HasArea(y.store.table, b)
    ensures var (x, i) := (AfterSave(blocks, y, area, callback), FirstWith(blocks, area, 0));
      && InShape(blocks, x.v) && Loadable(blocks, x.v) && area < MAX_HANDLES && blocks[i].area == area
      && StoredAlone(blocks, crc, y, Turns(blocks, crc, x, n), i, callback)
  {
    hide Turn, Formatted, Total, ContentOf, Image;
    SaveBegins(blocks, crc, y, area, callback);
    var x := AfterSave(blocks, y, area, callback);
    StoreTurn(blocks, crc, x);
    MoreTurns(blocks, crc, x, n - 1);
    StaysResting(blocks, crc, Turn(blocks, crc, x), n - 1);
    SameStore(blocks, crc, y, x, Turn(blocks, crc, x), FirstWith(blocks, area, 0), callback);
  }

  lemma SameStore(blocks: seq<Block>, crc: seq<Byte> -> nat, y: System, x: System, z: System, i: nat, callback: bool)
    requires Formatted(crc, y.store) && i < |blocks| && ItemsIn(blocks[i].items, y.v.ram) && blocks[i].area < MAX_HANDLES
    requires x.store == y.store && x.v.ram == y.v.ram && x.v.loaded == y.v.loaded && x.v.requests == y.v.requests && x.v.replies == y.v.replies
    requires StoredAlone(blocks, crc, x, z, i, callback)
    ensures StoredAlone(blocks, crc, y, z, i, callback)
  {
    hide Formatted, ContentOf, Image;
  }

  /** There is a block for the area, it fits, and there is no area of its size to store it in. */
  predicate SpecificStuck(blocks: seq<Block>, table: seq<Entry>, area: nat) {
    var i := FirstWith(blocks, area, 0);
    i < |blocks| && FitsBuffer(blocks[i]) && !HasArea(table, blocks[i])
  }

  /**
   It ends exactly unless its block fits and has no area of its size.  If it ends, the answer is positive exactly for a
   block with an area; without a block for the area there is none.
   */
  lemma SpecificSaveIff(blocks: seq<Block>, crc: seq<Byte> -> nat, y: System, area: nat)
    requires Rests(blocks, crc, y)
    ensures var (x, i) := (AfterSave(blocks, y, area, true), FirstWith(blocks, area, 0));
      && InShape(blocks, x.v) && Loadable(blocks, x.v)
      && (SpecificStuck(blocks, y.store.table, area) ==>
            forall n: nat :: Turns(blocks, crc, x, n).v.phase == Saving && Turns(blocks, crc, x, n).v.replies == y.v.replies)
      && (!SpecificStuck(blocks, y.store.table, area) ==>
            && Turns(blocks, crc, x, 1).v.phase == Resting
            && Turns(blocks, crc, x, 1).v.replies == y.v.replies + if i == |blocks| then [] else [FitsBuffer(blocks[i])])
  {
    hide Turn, Turns, Formatted, Total, StoredAlone;
    SaveBegins(blocks, crc, y, area, true);
    var (x, i) := (AfterSave(blocks, y, area, true), FirstWith(blocks, area, 0));
    if i == |blocks| {
      StaysResting(blocks, crc, x, 1);
    } else if !FitsBuffer(blocks[i]) {
      UnfitTurn(blocks, crc, x);
      MoreTurns(blocks, crc, x, 0);
      StaysResting(blocks, crc, Turn(blocks, crc, x), 0);
    } else if HasArea(y.store.table, blocks[i]) {
      SpecificSave(blocks, crc, y, area, true, 1);
      StoredFacts(blocks, crc, y, Turns(blocks, crc, x, 1), i);
    } else {
      forall n: nat ensures Turns(blocks, crc, x, n).v.phase == Saving && Turns(blocks, crc, x, n).v.replies == y.v.replies {
        RefusedForEver(blocks, crc, x, n);
      }
    }
  }

  lemma StoredFacts(blocks: seq<Block>, crc: seq<Byte> -> nat, y: System, z: System, i: nat)
    requires Formatted(crc, y.store) && i < |blocks| && ItemsIn(blocks[i].items, y.v.ram) && blocks[i].area < MAX_HANDLES
    requires StoredAlone(blocks, crc, y, z, i, true)
    ensures z.v.phase == Resting && z.v.replies == y.v.replies + [true]
  {
    hide Formatted, ContentOf, Image;
  }

  // ---------------------------------------------------------------- storage answers

  /** The services after storage called back with these answers. */
  function Heard(v: Services, answers: seq<bool>): Services {
    if answers == [] then v else WriteCallback(Heard(v, answers[..|answers| - 1]), answers[|answers| - 1])
  }

  /** The phase in which the services wait for storage to call back; the accepted request is counted once. */
  lemma AwaitsOnce(v: Services)
    ensures var w := Await(v);
      && w.phase == (match v.phase
           case Starting => StartWaiting
           case Saving => SaveWaiting
           case Loading => LoadWaiting
           case p => p)
      && w.requests == v.requests + (if v.phase in {Saving, Loading} then [v.index] else [])
      && Await(w) == w
  {
    assert v.requests + [] == v.requests;
  }

  /** In it further turns do nothing. */
  lemma WaitsForAnswer(blocks: seq<Block>, crc: seq<Byte> -> nat, y: System, n: nat)
    requires InShape(blocks, y.v) && Loadable(blocks, y.v) && y.v.phase in {StartWaiting, SaveWaiting, LoadWaiting}
    ensures Turns(blocks, crc, y, n) == y
    decreases n
  {
    hide InShape, StoreStep, FetchStep, ReadDone;
    if n > 0 {
      MoreTurns(blocks, crc, y, n - 1);
      WaitsForAnswer(blocks, crc, y, n - 1);
    }
  }

  /** Once a routine has told its user the end of a request it tells him no more, whatever storage answers later. */
  lemma FinishedTellsNobody(v: Services, ok: bool, late: bool)
    ensures var w := Finish(v, ok);
      && w.phase == Resting && w.replies == v.replies + (if v.callback then [ok] else [])
      && WriteCallback(w, late).replies == w.replies && ReadCallback(w, late).replies == w.replies
  {
  }

  /** A single block that the flags do not select is answered negatively, with nothing asked of storage. */
  lemma UnselectedFails(blocks: seq<Block>, v: Services)
    requires InShape(blocks, v) && v.index < |blocks| && !v.doAll && !Matches(blocks[v.index], v.flags)
    ensures ReadTurn(blocks, v) == (Finish(v, false), Nothing)
    ensures var (w, d) := WriteTurn(blocks, v);
      d == Nothing && w == Finish(v, false).(buffer := w.buffer)
  {
    hide Serialise, Matches;
  }

  /** A negative answer ends a save of all blocks and of one alike: one negative answer to the user, and nothing more is done. */
  lemma NegativeAnswerEnds(blocks: seq<Block>, crc: seq<Byte> -> nat, v: Services, store: State, n: nat)
    requires InShape(blocks, v)
    ensures var w := WriteCallback(v, false);
      && InShape(blocks, w) && Loadable(blocks, w)
      && w == v.(phase := Resting, replies := v.replies + if v.callback then [false] else [])
      && Turns(blocks, crc, System(w, store), n) == System(w, store)
  {
    StaysResting(blocks, crc, System(WriteCallback(v, false), store), n);
  }

  /**
   When the EEPROM fails to write the data of a block, storage calls back twice.  The user of the save hears a
   negative answer; a save of one block then answers a second time, and a save of all blocks, if the second call is
   positive, goes on with the next block as if nothing had happened.
   */
  lemma FailedSave(crc: seq<Byte> -> nat, s: State, v: Services, h: nat, data: seq<Byte>, ready: bool, success: bool)
    requires Formatted(crc, s) && h < MAX_HANDLES && |data| < 0x1_0000 && RequestWrite(s, h, data).1 && v.callback
    ensures var s1 := RequestWrite(s, h, data).0;
      && Ready(s1) && TransferOk(Service(crc, s1, true))
      && var failed := Complete(Service(crc, s1, true), false);
      && Ready(failed) && TransferOk(Service(crc, failed, ready))
      && var x := Complete(Service(crc, failed, ready), success);
      && |s.replies| <= |x.replies|
      && var (ok, w) := (s.table[h].kind == SELF_MANAGED || (ready && success), Heard(v, x.replies[|s.replies|..]));
      w == if v.doAll && ok then v.(index := v.index + 1, phase := Saving, replies := v.replies + [false])
           else v.(phase := Resting, replies := v.replies + [false, ok])
  {
    hide Formatted, Ready, TransferOk, Service, Complete, RequestWrite;
    FailedWriteAnswersTwice(crc, s, h, data, ready, success);
    var x := Complete(Service(crc, Complete(Service(crc, RequestWrite(s, h, data).0, true), false), ready), success);
    TableOf(crc, s);
    var ok := s.table[h].kind == SELF_MANAGED || (ready && success);
    assert x.replies[|s.replies|..] == [false, ok];
    HeardTwice(v, ok);
  }

  lemma TableOf(crc: seq<Byte> -> nat, s: State)
    requires Formatted(crc, s)
    ensures |s.table| == MAX_HANDLES
  {
  }

  lemma HeardTwice(v: Services, ok: bool)
    requires v.callback
    ensures Heard(v, [false, ok]) == if v.doAll && ok then v.(index := v.index + 1, phase := Saving, replies := v.replies + [false])
      else v.(phase := Resting, replies := v.replies + [false, ok])
  {
    assert [false, ok][..1] == [false] && [false][..0] == [];
    assert Heard(v, [false]) == WriteCallback(Heard(v, []), false);
    assert Heard(v, [false, ok]) == WriteCallback(Heard(v, [false]), ok);
    assert (v.replies + [false]) + [ok] == v.replies + [false, ok];
  }

  // ---------------------------------------------------------------- loading

  /** A load at a block without an area of its size. */
  lemma RefusedLoadTurn(blocks: seq<Block>, crc: seq<Byte> -> nat, y: System)
    requires Alone(blocks, crc, y, Loading) && !HasArea(y.store.table, blocks[y.v.index])
    ensures var z := Turn(blocks, crc, y);
      && Alone(blocks, crc, z, Loading) && z.store.table == y.store.table && z.v == y.v
  {
    hide Formatted, RequestRead, Total, Settle;
    var b := blocks[y.v.index];
    AllMatch(b);
    RefusedRead(crc, y.store, b.area, y.v.buffer[..Total(b.items)]);
  }

  lemma {:induction false} RefusedLoadForEver(blocks: seq<Block>, crc: seq<Byte> -> nat, y: System, n: nat)
    requires Alone(blocks, crc, y, Loading) && !HasArea(y.store.table, blocks[y.v.index])
    ensures Turns(blocks, crc, y, n).v == y.v
    decreases n
  {
    hide Turn, Alone, HasArea;
    AloneFacts(blocks, crc, y, Loading);
    if n > 0 {
      RefusedLoadTurn(blocks, crc, y);
      RefusedLoadForEver(blocks, crc, Turn(blocks, crc, y), n - 1);
    }
  }

  /** The block is asked for once: its content is in the buffer, or it has none and that is the answer. */
  lemma FetchTurn(blocks: seq<Block>, crc: seq<Byte> -> nat, y: System)
    requires Alone(blocks, crc, y, Loading) && HasArea(y.store.table, blocks[y.v.index])
    ensures var (z, b) := (Turn(blocks, crc, y), blocks[y.v.index]);
      var c := ContentOf(crc, y.store, b.area);
      && z.store.table == y.store.table && z.store.nv == y.store.nv && Formatted(crc, z.store)
      && (if c.Bytes? then
            && z.v == y.v.(phase := LoadDone, buffer := z.v.buffer, requests := y.v.requests + [y.v.index])
            && |c.data| == Total(b.items) <= BUFFER_SIZE == |z.v.buffer| && z.v.buffer[..|c.data|] == c.data
          else
            z.v == Finish(y.v, false).(buffer := z.v.buffer, requests := y.v.requests + [y.v.index]))
  {
    hide Formatted, ContentOf, Settle, RequestRead;
    var b := blocks[y.v.index];
    AllMatch(b);
    var area := y.v.buffer[..Total(b.items)];
    Accepted(crc, y.store, b.area, area);
    ReadReports(crc, y.store, b.area, area);
    SizeOfContent(crc, y.store, b.area);
  }

  lemma SizeOfContent(crc: seq<Byte> -> nat, s: State, h: nat)
    requires Formatted(crc, s) && h < MAX_HANDLES && Live(s.table[h])
    ensures ContentOf(crc, s, h).Bytes? ==> |ContentOf(crc, s, h).data| == DataSize(s.table[h])
  {
    hide HeaderValid;
    EntryFacts(crc, s, h);
  }

  /** What loading one block from the content `Image(items, saved)` leaves. */
  predicate LoadedAlone(blocks: seq<Block>, y: System, z: System, i: nat, saved: seq<Byte>, callback: bool)
    requires i < |blocks| && |saved| == |y.v.ram|
  {
    && z.v.phase == Resting && |z.v.ram| == |saved|
    && (forall a :: 0 <= a < |saved| ==> z.v.ram[a] == if Covers(blocks[i].items, a) then saved[a] else y.v.ram[a])
    && z.v.requests == y.v.requests + [i] && z.v.loaded == y.v.loaded + [i]
    && z.v.replies == y.v.replies + (if callback then [true] else [])
    && z.store.nv == y.store.nv && z.store.table == y.store.table
  }

  lemma CommitTurn(blocks: seq<Block>, crc: seq<Byte> -> nat, y: System, saved: seq<Byte>)
    requires InShape(blocks, y.v) && Loadable(blocks, y.v) && y.v.phase == LoadDone && !y.v.doAll
    requires |saved| == |y.v.ram| && ItemsIn(blocks[y.v.index].items, saved)
    requires var items := blocks[y.v.index].items;
      Total(items) <= BUFFER_SIZE && y.v.buffer[..Total(items)] == Image(items, saved)
    ensures var z := Turn(blocks, crc, y);
      && z.store == y.store && |z.v.ram| == |saved|
      && z.v == Finish(y.v, true).(ram := z.v.ram, loaded := y.v.loaded + [y.v.index])
      && forall a :: 0 <= a < |saved| ==> z.v.ram[a] == if Covers(blocks[y.v.index].items, a) then saved[a] else y.v.ram[a]
  {
    hide Covers, Image, Deserialise;
    assert y.v.buffer[0..0 + Total(blocks[y.v.index].items)] == y.v.buffer[..Total(blocks[y.v.index].items)];
    DeserialiseRestores(blocks[y.v.index].items, saved, y.v.ram, y.v.buffer, 0);
  }

  /**
   The load of one area whose content was saved from `saved`: two turns restore the parameters of its block, change no
   other byte, ask storage once and answer once, positively.
   */
  lemma SpecificLoad(blocks: seq<Block>, crc: seq<Byte> -> nat, y: System, area: nat, callback: bool, saved: seq<Byte>, n: nat)
    requires Rests(blocks, crc, y) && FirstWith(blocks, area, 0) < |blocks| && |saved| == |y.v.ram| && n > 1
    requires var b := blocks[FirstWith(blocks, area, 0)];
      && FitsBuffer(b) && HasArea(y.store.table, b) && ItemsIn(b.items, saved)
      && ContentOf(crc, y.store, area) == Bytes(Image(b.items, saved))
    ensures var (x, i) := (AfterLoad(blocks, y, area, callback), FirstWith(blocks, area, 0));
      && InShape(blocks, x.v) && Loadable(blocks, x.v)
      && LoadedAlone(blocks, y, Turns(blocks, crc, x, n), i, saved, callback)
  {
    hide Turn, Turns, Formatted, Total, ContentOf, Image, Covers;
    LoadBegins(blocks, crc, y, area, callback);
    var x := AfterLoad(blocks, y, area, callback);
    FetchTurn(blocks, crc, x);
    var x1 := Turn(blocks, crc, x);
    CommitTurn(blocks, crc, x1, saved);
    MoreTurns(blocks, crc, x, n - 1);
    MoreTurns(blocks, crc, x1, n - 2);
    StaysResting(blocks, crc, Turn(blocks, crc, x1), n - 2);
  }

  /** Without valid content the load of one area is answered negatively and changes no variable; without an area it never ends. */
  lemma SpecificLoadFails(blocks: seq<Block>, crc: seq<Byte> -> nat, y: System, area: nat)
    requires Rests(blocks, crc, y)
    requires var i := FirstWith(blocks, area, 0); i < |blocks| ==> Total(blocks[i].items) <= BUFFER_SIZE
    ensures var (x, i) := (AfterLoad(blocks, y, area, true), FirstWith(blocks, area, 0));
      && InShape(blocks, x.v) && Loadable(blocks, x.v)
      && (i == |blocks| ==> forall n: nat :: Turns(blocks, crc, x, n).v == y.v.(index := 0xFFFF))
      && (i < |blocks| && !HasArea(y.store.table, blocks[i]) ==> forall n: nat :: Turns(blocks, crc, x, n).v == x.v && x.v.phase == Loading)
      && (i < |blocks| && HasArea(y.store.table, blocks[i]) && ContentOf(crc, y.store, area).Missing? ==>
            var z := Turns(blocks, crc, x, 1);
            z.v.phase == Resting && z.v.ram == y.v.ram && z.v.replies == y.v.replies + [false] && z.v.loaded == y.v.loaded)
  {
    hide Turn, Turns, Formatted, Total, ContentOf;
    LoadBegins(blocks, crc, y, area, true);
    var (x, i) := (AfterLoad(blocks, y, area, true), FirstWith(blocks, area, 0));
    if i == |blocks| {
      forall n: nat ensures Turns(blocks, crc, x, n).v == y.v.(index := 0xFFFF) { StaysResting(blocks, crc, x, n); }
    } else if !HasArea(y.store.table, blocks[i]) {
      forall n: nat ensures Turns(blocks, crc, x, n).v == x.v { RefusedLoadForEver(blocks, crc, x, n); }
    } else if ContentOf(crc, y.store, area).Missing? {
      FetchTurn(blocks, crc, x);
      MoreTurns(blocks, crc, x, 0);
      StaysResting(blocks, crc, Turn(blocks, crc, x), 0);
    }
  }

  /** Save one area, change the variables in any way, load it: its parameters are back, and no other byte changed. */
  lemma SpecificRoundTrip(blocks: seq<Block>, crc: seq<Byte> -> nat, y: System, area: nat, changed: seq<Byte>)
    requires Rests(blocks, crc, y) && FirstWith(blocks, area, 0) < |blocks| && |changed| == |y.v.ram|
    requires var b := blocks[FirstWith(blocks, area, 0)]; FitsBuffer(b) && HasArea(y.store.table, b)
    ensures var (x, i) := (AfterSave(blocks, y, area, true), FirstWith(blocks, area, 0));
      && InShape(blocks, x.v) && Loadable(blocks, x.v)
      && var z := Turns(blocks, crc, x, 2);
      && InShape(blocks, z.v.(ram := changed)) && z.v.phase == Resting
      && var l := AfterLoad(blocks, z.(v := z.v.(ram := changed)), area, true);
      && InShape(blocks, l.v) && Loadable(blocks, l.v)
      && var r := Turns(blocks, crc, l, 2).v;
      && r.phase == Resting && |r.ram| == |changed| && r.replies == y.v.replies + [true, true] && r.requests == y.v.requests + [i, i]
      && forall a :: 0 <= a < |changed| ==> r.ram[a] == if Covers(blocks[i].items, a) then y.v.ram[a] else changed[a]
  {
    hide Turn, Turns, Formatted, Total, ContentOf, Image, Covers, FitsBuffer, HasArea;
    SpecificSave(blocks, crc, y, area, true, 2);
    var i := FirstWith(blocks, area, 0);
    var z := Turns(blocks, crc, AfterSave(blocks, y, area, true), 2);
    var c := z.(v := z.v.(ram := changed));
    SpecificLoad(blocks, crc, c, area, true, y.v.ram, 2);
  }
}
