/** Spelling a waypoint as a frame, and the waypoint the receiver's memory then holds. */
module WaypointFrames {
  import opened FixedWidth
  import opened ByteOrder
  import opened WaypointUplink

  datatype Waypoint = Waypoint(x: int, y: int, z: int, flags: int, viewX: int, viewY: int, viewZ: int)

  predicate IsWaypoint(w: Waypoint) {
    IsLong(w.x) && IsLong(w.y) && IsWord(w.z) && IsWord(w.flags) && IsLong(w.viewX) && IsLong(w.viewY) && IsWord(w.viewZ)
  }

  // ---------------------------------------------------------------- a waypoint in memory and on the wire

  /** The structure as the compiler lays it out. */
  function Memory(w: Waypoint): (m: seq<Byte>)
    ensures |m| == SIZE
  {
    Long(w.x) + Long(w.y) + Word(w.z) + Word(w.flags) + Long(w.viewX) + Long(w.viewY) + Word(w.viewZ)
  }

  function Wire(w: Waypoint): (m: seq<Byte>)
    ensures |m| == SIZE
  {
    BigLong(w.x) + BigLong(w.y) + BigWord(w.z) + BigWord(w.flags) + BigLong(w.viewX) + BigLong(w.viewY) + BigWord(w.viewZ)
  }

  function SignedWord(m: seq<Byte>, at: nat): int
    requires at + 2 <= |m|
  {
    S16(WordAt(m, at))
  }

  function SignedLong(m: seq<Byte>, at: nat): int
    requires at + 4 <= |m|
  {
    S32(LongAt(m, at))
  }

  function FromMemory(m: seq<Byte>): Waypoint
    requires |m| == SIZE
  {
    Waypoint(SignedLong(m, 0), SignedLong(m, 4), SignedWord(m, 8), SignedWord(m, 10),
             SignedLong(m, 12), SignedLong(m, 16), SignedWord(m, 20))
  }

  lemma LongReads(m: seq<Byte>, at: nat, x: int)
    requires at + 4 <= |m| && m[at..at + 4] == Long(x) && IsLong(x)
    ensures SignedLong(m, at) == x
  {
    hide Long, LongAt, S32;
    ReadsLong(m, at, x);
    LongRoundTrip(x);
  }

  lemma WordReads(m: seq<Byte>, at: nat, x: int)
    requires at + 2 <= |m| && m[at..at + 2] == Word(x) && IsWord(x)
    ensures SignedWord(m, at) == x
  {
    hide Word, WordAt, S16;
    ReadsWord(m, at, x);
    SignedWordRoundTrip(x);
  }

  /** The structure's bytes give back all seven fields. */
  lemma MemoryReads(w: Waypoint)
    requires IsWaypoint(w)
    ensures FromMemory(Memory(w)) == w
  {
    hide Long, Word, SignedLong, SignedWord;
    var m := Memory(w);
    LongReads(m, 0, w.x);
    LongReads(m, 4, w.y);
    WordReads(m, 8, w.z);
    WordReads(m, 10, w.flags);
    LongReads(m, 12, w.viewX);
    LongReads(m, 16, w.viewY);
    WordReads(m, 20, w.viewZ);
  }

  /** The byte order table takes the wire's order to the memory's. */
  lemma OrderFits(w: Waypoint, j: nat)
    requires j < SIZE
    ensures BYTE_ORDER[j] < SIZE && BYTE_ORDER[BYTE_ORDER[j]] == j && Wire(w)[BYTE_ORDER[j]] == Memory(w)[j]
  {
    hide BigLong, BigWord, Long, Word;
    if j < 4 {
      BigIsReversed(w.x);
    } else if j < 8 {
      BigIsReversed(w.y);
    } else if j < 10 {
      BigIsReversed(w.z);
    } else if j < 12 {
      BigIsReversed(w.flags);
    } else if j < 16 {
      BigIsReversed(w.viewX);
    } else if j < 20 {
      BigIsReversed(w.viewY);
    } else {
      BigIsReversed(w.viewZ);
    }
  }

  // ---------------------------------------------------------------- hex digits

  function HexDigit(d: nat): Byte
    requires d < 16
  {
    if d < 10 then '0' as int + d else 'A' as int + d - 10
  }

  function HexOf(bytes: seq<Byte>): (s: seq<Byte>)
    ensures |s| == 2 * |bytes|
  {
    if bytes == [] then []
    else HexOf(bytes[..|bytes| - 1]) + [HexDigit(bytes[|bytes| - 1] / 16), HexDigit(bytes[|bytes| - 1] % 16)]
  }

  lemma HexDigitReads(d: nat)
    requires d < 16
    ensures HexVal(HexDigit(d)) == d && IsHex(HexDigit(d))
  {
  }

  lemma {:induction false} HexReads(bytes: seq<Byte>)
    ensures AllHex(HexOf(bytes)) && forall k: nat :: k < |bytes| ==> Pair(HexOf(bytes), k) == bytes[k]
    decreases |bytes|
  {
    hide HexVal, HexDigit;
    if bytes != [] {
      var n, b := |bytes| - 1, bytes[|bytes| - 1];
      HexReads(bytes[..n]);
      HexDigitReads(b / 16);
      HexDigitReads(b % 16);
      forall k: nat | k < |bytes| ensures Pair(HexOf(bytes), k) == bytes[k] {
        if k < n { assert Pair(HexOf(bytes[..n]), k) == bytes[..n][k]; }
      }
    }
  }

  // ---------------------------------------------------------------- the round trip

  function FrameOf(w: Waypoint): seq<Byte> {
    var digits := HexOf(Wire(w));
    FrameBytes(digits, HexDigit(Sum(digits) / 16), HexDigit(Sum(digits) % 16))
  }

  lemma PlacedIsMemory(inject: seq<Byte>, w: Waypoint)
    requires |inject| == SIZE && AllHex(HexOf(Wire(w))) && Placed(inject, HexOf(Wire(w)), SIZE)
    ensures inject == Memory(w)
  {
    hide Wire, Memory, HexOf, Pair;
    HexReads(Wire(w));
    forall j: nat | j < SIZE ensures inject[j] == Memory(w)[j] {
      OrderFits(w, j);
      assert inject[BYTE_ORDER[BYTE_ORDER[j]]] == Pair(HexOf(Wire(w)), BYTE_ORDER[j]);
    }
  }

  /** Every waypoint sent as a frame is ready at its end and is the waypoint sent, whatever was there before. */
  lemma WaypointArrives(r: Receiver, events: seq<Event>, w: Waypoint)
    requires Valid(r) && r.parse == NewMsg && IsWaypoint(w)
    requires events != [] && events[0] == Arrives(FRAME) && events[|events| - 1].Arrives? && Bytes(events) == FrameOf(w)
    ensures var s := Run(r, events);
      s.parse == NewMsg && s.pos == READY && FromMemory(s.inject) == w
  {
    hide Wire, Memory, HexOf, Pair, Run, Bytes, Sum, HexDigit, HexVal, FromMemory;
    var digits := HexOf(Wire(w));
    HexReads(Wire(w));
    HexDigitReads(Sum(digits) / 16);
    HexDigitReads(Sum(digits) % 16);
    FrameDecodes(r, events, digits, HexDigit(Sum(digits) / 16), HexDigit(Sum(digits) % 16));
    PlacedIsMemory(Run(r, events).inject, w);
    MemoryReads(w);
  }
}
