/**
 Data services: parameter blocks serialised to and from the storage areas, as functions
 on values.  While a storage request runs, the services only wait for its callback, so
 a turn of the services is followed here by the completion of the request it made.
 */
module ServicesMachine {
  import opened FixedWidth
  import opened StorageAllocator
  import opened StorageMachine
  import opened StorageContents
  import opened StorageRuns

  const BUFFER_SIZE := 256
  const STORAGE_FLAG_ALL: bv16 := 1

  /** A parameter: the RAM bytes of one variable. */
  datatype Item = Item(address: nat, size: nat)

  datatype Block = Block(area: nat, items: seq<Item>, flags: bv16)

  predicate Matches(b: Block, flags: bv16) {
    b.flags & flags != 0 || flags & STORAGE_FLAG_ALL != 0
  }

  // ---------------------------------------------------------------- serialisation

  predicate ItemsIn(items: seq<Item>, ram: seq<Byte>) {
    forall k :: 0 <= k < |items| ==> items[k].address + items[k].size <= |ram|
  }

  function Total(items: seq<Item>): nat {
    if items == [] then 0 else items[0].size + Total(items[1..])
  }

  /** The bytes of the items, one after the other. */
  function Image(items: seq<Item>, ram: seq<Byte>): (r: seq<Byte>)
    requires ItemsIn(items, ram)
    ensures |r| == Total(items)
  {
    if items == [] then []
    else ram[items[0].address..items[0].address + items[0].size] + Image(items[1..], ram)
  }

  /** Copies items into the buffer from position `at`; size 0 as soon as one does not fit. */
  function Serialise(items: seq<Item>, ram: seq<Byte>, buffer: seq<Byte>, at: nat): (r: (seq<Byte>, nat))
    requires ItemsIn(items, ram) && at <= |buffer| == BUFFER_SIZE
    ensures |r.0| == BUFFER_SIZE && r.1 <= BUFFER_SIZE
    decreases |items|
  {
    if items == [] then (buffer, at)
    else
      var i := items[0];
      if at + i.size > BUFFER_SIZE then (buffer, 0)
      else Serialise(items[1..], ram, Patch(buffer, at, ram[i.address..i.address + i.size]), at + i.size)
  }

  /** Copies the buffer from position `at` back to the items, stopping when one does not fit. */
  function Deserialise(items: seq<Item>, ram: seq<Byte>, buffer: seq<Byte>, at: nat): (r: seq<Byte>)
    requires ItemsIn(items, ram) && at <= |buffer| == BUFFER_SIZE
    ensures |r| == |ram|
    decreases |items|
  {
    if items == [] then ram
    else
      var i := items[0];
      if at + i.size > BUFFER_SIZE then ram
      else Deserialise(items[1..], Patch(ram, i.address, buffer[at..at + i.size]), buffer, at + i.size)
  }

  /** Serialising yields exactly the image when it fits, and size 0 exactly when it does not (or is empty). */
  lemma {:induction false} SerialiseIsImage(items: seq<Item>, ram: seq<Byte>, buffer: seq<Byte>, at: nat)
    requires ItemsIn(items, ram) && at <= |buffer| == BUFFER_SIZE
    ensures var (b, n) := Serialise(items, ram, buffer, at);
      && (n == 0 <==> at + Total(items) > BUFFER_SIZE || at + Total(items) == 0)
      && (n > 0 ==> n == at + Total(items) && b[..n] == buffer[..at] + Image(items, ram))
    decreases |items|
  {
    hide Patch, Image, Total, Serialise, ItemsIn;
    if items == [] {
      SerialiseNone(ram, buffer, at);
    } else {
      SerialiseNext(items, ram, buffer, at);
      if at + items[0].size <= BUFFER_SIZE {
        var i := items[0];
        var piece := ram[i.address..i.address + i.size];
        PatchedPrefix(buffer, at, piece);
        SerialiseIsImage(items[1..], ram, Patch(buffer, at, piece), at + i.size);
        assert buffer[..at] + Image(items, ram) == (buffer[..at] + piece) + Image(items[1..], ram);
      }
    }
  }

  lemma SerialiseNone(ram: seq<Byte>, buffer: seq<Byte>, at: nat)
    requires at <= |buffer| == BUFFER_SIZE
    ensures Serialise([], ram, buffer, at) == (buffer, at) && Image([], ram) == [] && Total([]) == 0
  {
  }

  /** The first item is copied and the others follow, or it does not fit. */
  lemma SerialiseNext(items: seq<Item>, ram: seq<Byte>, buffer: seq<Byte>, at: nat)
    requires items != [] && ItemsIn(items, ram) && at <= |buffer| == BUFFER_SIZE
    ensures ItemsIn(items[1..], ram) && Total(items) == items[0].size + Total(items[1..])
    ensures var i := items[0];
      i.address + i.size <= |ram| && Image(items, ram) == ram[i.address..i.address + i.size] + Image(items[1..], ram) &&
      Serialise(items, ram, buffer, at) ==
        if at + i.size > BUFFER_SIZE then (buffer, 0)
        else Serialise(items[1..], ram, Patch(buffer, at, ram[i.address..i.address + i.size]), at + i.size)
  {
    hide Patch;
  }

  lemma PatchedPrefix(buffer: seq<Byte>, at: nat, piece: seq<Byte>)
    requires at + |piece| <= |buffer|
    ensures Patch(buffer, at, piece)[..at + |piece|] == buffer[..at] + piece
  {
  }

  /** Some item contains RAM address `k`. */
  predicate Covers(items: seq<Item>, k: int) {
    exists j :: 0 <= j < |items| && items[j].address <= k < items[j].address + items[j].size
  }

  /**
   Writing back an image taken from `saved` restores exactly the bytes of the items, even
   where items overlap or repeat one another, and no other byte.
   */
  lemma {:induction false} DeserialiseRestores(items: seq<Item>, saved: seq<Byte>, ram: seq<Byte>, buffer: seq<Byte>, at: nat)
    requires |saved| == |ram| && ItemsIn(items, ram) && at + Total(items) <= |buffer| == BUFFER_SIZE
    requires buffer[at..at + Total(items)] == Image(items, saved)
    ensures var r := Deserialise(items, ram, buffer, at);
      forall k :: 0 <= k < |ram| ==> r[k] == if Covers(items, k) then saved[k] else ram[k]
    decreases |items|
  {
    hide Covers;
    hide Patch;
    if items == [] {
      CoversNothing();
    } else {
      var i, rest := items[0], items[1..];
      var piece := saved[i.address..i.address + i.size];
      Heads(buffer, at, piece, Image(rest, saved));
      var ram1 := Patch(ram, i.address, piece);
      DeserialiseRestores(rest, saved, ram1, buffer, at + i.size);
      var r := Deserialise(items, ram, buffer, at);
      forall k | 0 <= k < |ram|
        ensures r[k] == if Covers(items, k) then saved[k] else ram[k]
      {
        CoversHead(items, k);
        PatchedAt(ram, i.address, saved, i.size, k);
      }
    }
  }

  lemma CoversNothing()
    ensures forall k :: !Covers([], k)
  {
  }

  lemma CoversHead(items: seq<Item>, k: int)
    requires items != []
    ensures Covers(items, k) <==> (items[0].address <= k < items[0].address + items[0].size) || Covers(items[1..], k)
  {
    if Covers(items, k) && !(items[0].address <= k < items[0].address + items[0].size) {
      var j :| 0 <= j < |items| && items[j].address <= k < items[j].address + items[j].size;
      assert items[1..][j - 1] == items[j];
    }
    if Covers(items[1..], k) {
      var j :| 0 <= j < |items[1..]| && items[1..][j].address <= k < items[1..][j].address + items[1..][j].size;
      assert items[j + 1] == items[1..][j];
    }
  }

  lemma PatchedAt(ram: seq<Byte>, a: nat, saved: seq<Byte>, n: nat, k: nat)
    requires |saved| == |ram| && a + n <= |ram| && k < |ram|
    ensures Patch(ram, a, saved[a..a + n])[k] == if a <= k < a + n then saved[k] else ram[k]
  {
  }

  lemma Heads(buffer: seq<Byte>, at: nat, x: seq<Byte>, y: seq<Byte>)
    requires at + |x| + |y| <= |buffer| && buffer[at..at + |x| + |y|] == x + y
    ensures buffer[at..at + |x|] == x && buffer[at + |x|..at + |x| + |y|] == y
  {
    var w := buffer[at..at + |x| + |y|];
    assert w[..|x|] == x && w[|x|..] == y;
  }
}
