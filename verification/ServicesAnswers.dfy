/** When saving or loading all blocks ends, and with what answer; it ends exactly if storage refuses no request on the way. */
module ServicesAnswers {
  import opened FixedWidth
  import opened StorageAllocator
  import opened StorageMachine
  import opened StorageContents
  import opened StorageRuns
  import opened ServicesMachine
  import opened ServicesRuns

  predicate FitsBuffer(b: Block) {
    0 < Total(b.items) <= 256
  }

  /** The block has an area of its size, of whatever kind. */
  predicate HasArea(table: seq<Entry>, b: Block) {
    b.area < |table| && Live(table[b.area]) && DataSize(table[b.area]) == Total(b.items)
  }

  /** Storage refuses the request for this block. */
  predicate Refused(blocks: seq<Block>, flags: bv16, table: seq<Entry>, k: nat)
    requires k < |blocks|
  {
    Matches(blocks[k], flags) && !HasArea(table, blocks[k])
  }

  /** From `from` on a save comes to a refused block before one that does not fit the buffer. */
  predicate SaveStuck(blocks: seq<Block>, flags: bv16, table: seq<Entry>, from: nat) {
    exists k: nat :: from <= k < |blocks| && Refused(blocks, flags, table, k) && FitTo(blocks, from, k)
  }

  predicate FitTo(blocks: seq<Block>, from: nat, k: nat)
    requires k < |blocks|
  {
    forall j :: from <= j <= k ==> FitsBuffer(blocks[j])
  }

  /** A load comes to a refused block. */
  predicate LoadStuck(blocks: seq<Block>, flags: bv16, table: seq<Entry>, from: nat) {
    exists k: nat :: from <= k < |blocks| && Refused(blocks, flags, table, k)
  }

  lemma SaveStuckStep(blocks: seq<Block>, flags: bv16, table: seq<Entry>, from: nat)
    requires from < |blocks|
    ensures SaveStuck(blocks, flags, table, from) <==>
      FitsBuffer(blocks[from]) && (Refused(blocks, flags, table, from) || SaveStuck(blocks, flags, table, from + 1))
  {
    hide Refused, FitsBuffer;
    if FitsBuffer(blocks[from]) {
      if Refused(blocks, flags, table, from) {
        assert FitTo(blocks, from, from);
      } else if SaveStuck(blocks, flags, table, from + 1) {
        var k: nat :| from + 1 <= k < |blocks| && Refused(blocks, flags, table, k) && FitTo(blocks, from + 1, k);
        assert FitTo(blocks, from, k);
      }
    }
    if SaveStuck(blocks, flags, table, from) {
      var k: nat :| from <= k < |blocks| && Refused(blocks, flags, table, k) && FitTo(blocks, from, k);
      if k > from { assert FitTo(blocks, from + 1, k); }
    }
  }

  lemma LoadStuckStep(blocks: seq<Block>, flags: bv16, table: seq<Entry>, from: nat)
    requires from < |blocks|
    ensures LoadStuck(blocks, flags, table, from) <==>
      Refused(blocks, flags, table, from) || LoadStuck(blocks, flags, table, from + 1)
  {
    hide Refused;
    if LoadStuck(blocks, flags, table, from) {
      var k: nat :| from <= k < |blocks| && Refused(blocks, flags, table, k);
    }
  }

  // ---------------------------------------------------------------- requests

  /** What a request refused leaves: storage at rest, with the same directory and no answer. */
  predicate AtRestStill(crc: seq<Byte> -> nat, s: State, x: State) {
    Formatted(crc, x) && x.table == s.table && x.replies == s.replies
  }

  lemma RefusedWrite(crc: seq<Byte> -> nat, s: State, h: nat, data: seq<Byte>)
    requires Formatted(crc, s) && |data| < 0x1_0000 && |s.table| == MAX_HANDLES
    ensures RequestWrite(s, h, data).1 <==> h < MAX_HANDLES && Live(s.table[h]) && DataSize(s.table[h]) == |data|
    ensures !RequestWrite(s, h, data).1 ==> AtRestStill(crc, s, RequestWrite(s, h, data).0)
  {
    hide Directory;
    if h < MAX_HANDLES { Accepted(crc, s, h, data); }
  }

  lemma RefusedRead(crc: seq<Byte> -> nat, s: State, h: nat, area: seq<Byte>)
    requires Formatted(crc, s) && |area| < 0x1_0000 && |s.table| == MAX_HANDLES
    ensures RequestRead(s, h, area).1 <==> h < MAX_HANDLES && Live(s.table[h]) && DataSize(s.table[h]) == |area|
    ensures !RequestRead(s, h, area).1 ==> AtRestStill(crc, s, RequestRead(s, h, area).0)
  {
    hide Directory;
    if h < MAX_HANDLES { Accepted(crc, s, h, area); }
  }

  // ---------------------------------------------------------------- saving

  /** A turn of a save at a matching block that fits: stored and on to the next, or refused and back to the same. */
  lemma SaveAsks(blocks: seq<Block>, crc: seq<Byte> -> nat, y: System)
    requires Running(blocks, crc, y, Saving) && y.v.index < |blocks| && FitsBuffer(blocks[y.v.index])
    requires Matches(blocks[y.v.index], y.v.flags)
    ensures var z, i := Turn(blocks, crc, y), y.v.index;
      && Running(blocks, crc, z, Saving) && z.store.table == y.store.table
      && z.v.replies == y.v.replies && z.v.callback == y.v.callback && z.v.flags == y.v.flags
      && z.v.index == (if Refused(blocks, y.v.flags, y.store.table, i) then i else i + 1)
  {
    hide OthersKept, Formatted, ContentOf, Settle, Serialise, RequestWrite, Total;
    var b := blocks[y.v.index];
    SerialiseIsImage(b.items, y.v.ram, y.v.buffer, 0);
    var (buffer, n) := Serialise(b.items, y.v.ram, y.v.buffer, 0);
    RefusedWrite(crc, y.store, b.area, buffer[..n]);
    if !Refused(blocks, y.v.flags, y.store.table, y.v.index) {
      WriteStores(crc, y.store, b.area, buffer[..n]);
      FromKept(crc, y.store, Settle(crc, RequestWrite(y.store, b.area, buffer[..n]).0, 3), b.area);
    }
  }

  /** A turn of a save at a block that fits. */
  lemma SaveTurn(blocks: seq<Block>, crc: seq<Byte> -> nat, y: System)
    requires Running(blocks, crc, y, Saving) && y.v.index < |blocks| && FitsBuffer(blocks[y.v.index])
    ensures var z, i := Turn(blocks, crc, y), y.v.index;
      && Running(blocks, crc, z, Saving) && z.store.table == y.store.table
      && z.v.replies == y.v.replies && z.v.callback == y.v.callback && z.v.flags == y.v.flags
      && z.v.index == (if Refused(blocks, y.v.flags, y.store.table, i) then i else i + 1)
  {
    hide Formatted, Turn, HasArea, Total;
    if Matches(blocks[y.v.index], y.v.flags) { SaveAsks(blocks, crc, y); } else { SaveOther(blocks, crc, y); }
  }

  lemma {:induction false} SaveRepeats(blocks: seq<Block>, crc: seq<Byte> -> nat, y: System, n: nat)
    requires Running(blocks, crc, y, Saving) && SaveStuck(blocks, y.v.flags, y.store.table, y.v.index)
    ensures Turns(blocks, crc, y, n).v.phase == Saving && Turns(blocks, crc, y, n).v.replies == y.v.replies
    decreases n
  {
    hide Turn, Formatted, InShape, Loadable, FitsBuffer, SaveStuck, Refused;
    if n > 0 {
      StuckInside(blocks, y.v.flags, y.store.table, y.v.index);
      SaveStuckStep(blocks, y.v.flags, y.store.table, y.v.index);
      SaveTurn(blocks, crc, y);
      SaveRepeats(blocks, crc, Turn(blocks, crc, y), n - 1);
    }
  }

  lemma StuckInside(blocks: seq<Block>, flags: bv16, table: seq<Entry>, from: nat)
    ensures SaveStuck(blocks, flags, table, from) || LoadStuck(blocks, flags, table, from) ==> from < |blocks|
  {
    hide Refused;
  }

  lemma {:induction false} SaveFinishes(blocks: seq<Block>, crc: seq<Byte> -> nat, y: System, k: nat)
    requires Running(blocks, crc, y, Saving) && !SaveStuck(blocks, y.v.flags, y.store.table, y.v.index)
    requires k == |blocks| - y.v.index
    ensures var z := Turns(blocks, crc, y, k + 1);
      z.v.phase == Resting && z.v.replies == y.v.replies + (if y.v.callback then [FitsFrom(blocks, y.v.index)] else [])
    decreases k
  {
    hide Turn, Formatted, InShape, Loadable, SaveStuck, Refused, Total;
    if k == 0 {
      SaveEnds(blocks, crc, y);
    } else {
      SaveStuckStep(blocks, y.v.flags, y.store.table, y.v.index);
      if FitsBuffer(blocks[y.v.index]) {
        SaveTurn(blocks, crc, y);
        SaveFinishes(blocks, crc, Turn(blocks, crc, y), k - 1);
      } else {
        SaveRefuses(blocks, crc, y);
      }
    }
  }

  /**
   A save ends exactly if it does not come to a matching block without an area of its size; storage then
   refuses the request and the services repeat it for ever.  If it ends there is one answer, positive
   exactly when every block of the table fits the buffer, also those not asked for.
   */
  lemma SaveAnswersIff(blocks: seq<Block>, crc: seq<Byte> -> nat, y: System)
    requires Running(blocks, crc, y, Saving)
    ensures (exists n: nat :: Turns(blocks, crc, y, n).v.phase == Resting) <==> !SaveStuck(blocks, y.v.flags, y.store.table, y.v.index)
    ensures SaveStuck(blocks, y.v.flags, y.store.table, y.v.index) ==> forall n: nat :: Turns(blocks, crc, y, n).v.replies == y.v.replies
    ensures !SaveStuck(blocks, y.v.flags, y.store.table, y.v.index) ==>
      var z := Turns(blocks, crc, y, |blocks| - y.v.index + 1);
      z.v.phase == Resting && z.v.replies == y.v.replies + (if y.v.callback then [FitsFrom(blocks, y.v.index)] else [])
  {
    hide Turns, Formatted, InShape, Loadable, SaveStuck, FitsFrom;
    if SaveStuck(blocks, y.v.flags, y.store.table, y.v.index) {
      forall n: nat ensures Turns(blocks, crc, y, n).v.phase == Saving && Turns(blocks, crc, y, n).v.replies == y.v.replies {
        SaveRepeats(blocks, crc, y, n);
      }
    } else {
      SaveFinishes(blocks, crc, y, |blocks| - y.v.index);
    }
  }

  // ---------------------------------------------------------------- loading

  /** A turn of a load at a matching block: read, unreadable and on to the next, or refused and back to the same. */
  lemma LoadAsks(blocks: seq<Block>, crc: seq<Byte> -> nat, y: System)
    requires Running(blocks, crc, y, Loading) && y.v.index < |blocks| && Matches(blocks[y.v.index], y.v.flags)
    ensures var z, i := Turn(blocks, crc, y), y.v.index;
      && Running(blocks, crc, z, z.v.phase) && z.store.table == y.store.table
      && z.v.replies == y.v.replies && z.v.callback == y.v.callback && z.v.flags == y.v.flags
      && (if Refused(blocks, y.v.flags, y.store.table, i) then z.v.phase == Loading && z.v.index == i
          else (z.v.phase == LoadDone && z.v.index == i) || (z.v.phase == Loading && z.v.index == i + 1))
  {
    hide Formatted, ContentOf, Settle, RequestRead, Total;
    var b := blocks[y.v.index];
    var area := y.v.buffer[..Total(b.items)];
    RefusedRead(crc, y.store, b.area, area);
    if !Refused(blocks, y.v.flags, y.store.table, y.v.index) {
      ReadReports(crc, y.store, b.area, area);
    }
  }

  /** A turn of a load at any block, and the turn that copies a block to RAM. */
  lemma LoadTurn(blocks: seq<Block>, crc: seq<Byte> -> nat, y: System)
    requires Running(blocks, crc, y, Loading) && y.v.index < |blocks|
    ensures var z, i := Turn(blocks, crc, y), y.v.index;
      && Running(blocks, crc, z, z.v.phase) && z.store.table == y.store.table
      && z.v.replies == y.v.replies && z.v.callback == y.v.callback && z.v.flags == y.v.flags
      && (if Refused(blocks, y.v.flags, y.store.table, i) then z.v.phase == Loading && z.v.index == i
          else (z.v.phase == LoadDone && z.v.index == i) || (z.v.phase == Loading && z.v.index == i + 1))
  {
    hide Formatted, HasArea, Total;
    if Matches(blocks[y.v.index], y.v.flags) { LoadAsks(blocks, crc, y); }
  }

  lemma CopyTurn(blocks: seq<Block>, crc: seq<Byte> -> nat, y: System)
    requires Running(blocks, crc, y, LoadDone) && y.v.index < |blocks|
    ensures var z := Turn(blocks, crc, y);
      && Running(blocks, crc, z, Loading) && z.store == y.store && z.v.index == y.v.index + 1
      && z.v.replies == y.v.replies && z.v.callback == y.v.callback && z.v.flags == y.v.flags
  {
    hide Formatted, Deserialise, Total;
  }

  /** Where a load goes on: at this block, or behind the one about to be copied. */
  function NextBlock(v: Services): nat {
    if v.phase == LoadDone then v.index + 1 else v.index
  }

  predicate LoadGoesOn(blocks: seq<Block>, crc: seq<Byte> -> nat, y: System) {
    Running(blocks, crc, y, y.v.phase) && (y.v.phase == Loading || (y.v.phase == LoadDone && y.v.index < |blocks|))
  }

  lemma {:induction false} LoadRepeats(blocks: seq<Block>, crc: seq<Byte> -> nat, y: System, n: nat)
    requires LoadGoesOn(blocks, crc, y) && LoadStuck(blocks, y.v.flags, y.store.table, NextBlock(y.v))
    ensures Turns(blocks, crc, y, n).v.phase in {Loading, LoadDone} && Turns(blocks, crc, y, n).v.replies == y.v.replies
    decreases n
  {
    hide Turn, Formatted, InShape, LoadStuck, Refused, Total;
    if n > 0 {
      StuckInside(blocks, y.v.flags, y.store.table, NextBlock(y.v));
      if y.v.phase == Loading {
        LoadStuckStep(blocks, y.v.flags, y.store.table, y.v.index);
        LoadTurn(blocks, crc, y);
      } else {
        CopyTurn(blocks, crc, y);
      }
      LoadRepeats(blocks, crc, Turn(blocks, crc, y), n - 1);
    }
  }

  lemma {:induction false} LoadFinishes(blocks: seq<Block>, crc: seq<Byte> -> nat, y: System) returns (n: nat)
    requires LoadGoesOn(blocks, crc, y) && !LoadStuck(blocks, y.v.flags, y.store.table, NextBlock(y.v))
    ensures var z := Turns(blocks, crc, y, n);
      z.v.phase == Resting && z.v.replies == y.v.replies + (if y.v.callback then [true] else [])
    decreases |blocks| - NextBlock(y.v), y.v.phase == LoadDone
  {
    hide Turn, Formatted, InShape, LoadStuck, Refused, Total, Turns;
    if y.v.phase == Loading && y.v.index == |blocks| {
      LoadEnds(blocks, crc, y);
      n := 1;
    } else {
      var z := Turn(blocks, crc, y);
      if y.v.phase == Loading {
        LoadStuckStep(blocks, y.v.flags, y.store.table, y.v.index);
        LoadTurn(blocks, crc, y);
      } else {
        CopyTurn(blocks, crc, y);
      }
      var l := LoadFinishes(blocks, crc, z);
      n := l + 1;
      MoreTurns(blocks, crc, y, l);
    }
  }

  lemma MoreTurns(blocks: seq<Block>, crc: seq<Byte> -> nat, y: System, n: nat)
    requires InShape(blocks, y.v) && Loadable(blocks, y.v) && y.v.phase != Resting
    ensures Turns(blocks, crc, y, n + 1) == Turns(blocks, crc, Turn(blocks, crc, y), n)
  {
    hide Turn;
  }

  /**
   A load ends, and then with one positive answer, exactly if it does not come to a matching block without
   an area of its size.
   */
  lemma LoadAnswersIff(blocks: seq<Block>, crc: seq<Byte> -> nat, y: System)
    requires Running(blocks, crc, y, Loading)
    ensures (exists n: nat :: Turns(blocks, crc, y, n).v.phase == Resting) <==> !LoadStuck(blocks, y.v.flags, y.store.table, y.v.index)
    ensures if LoadStuck(blocks, y.v.flags, y.store.table, y.v.index) then forall n: nat :: Turns(blocks, crc, y, n).v.replies == y.v.replies
            else exists n: nat :: Answered(Turns(blocks, crc, y, n).v, y.v)
  {
    hide Turns, Formatted, InShape, LoadStuck, Total;
    if LoadStuck(blocks, y.v.flags, y.store.table, y.v.index) {
      forall n: nat ensures Turns(blocks, crc, y, n).v.phase in {Loading, LoadDone} && Turns(blocks, crc, y, n).v.replies == y.v.replies {
        LoadRepeats(blocks, crc, y, n);
      }
    } else {
      var n := LoadFinishes(blocks, crc, y);
      assert Answered(Turns(blocks, crc, y, n).v, y.v);
    }
  }

  predicate Answered(now: Services, before: Services) {
    now.phase == Resting && now.replies == before.replies + (if before.callback then [true] else [])
  }
}
