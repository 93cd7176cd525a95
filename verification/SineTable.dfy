/** Sine and cosine of byte angles, scaled by 2^14, from the table of the first quadrant. */
module SineTable {
  import opened FixedWidth

  const SINTAB: seq<int> :=
    [0, 402, 804, 1205, 1606, 2006, 2404, 2801, 3196, 3590, 3981]
    + [4370, 4756, 5139, 5520, 5897, 6270, 6639, 7005, 7366, 7723]
    + [8076, 8423, 8765, 9102, 9434, 9760, 10080, 10394, 10702, 11003]
    + [11297, 11585, 11866, 12140, 12406, 12665, 12916, 13160, 13395, 13623]
    + [13842, 14053, 14256, 14449, 14635, 14811, 14978, 15137, 15286, 15426]
    + [15557, 15679, 15791, 15893, 15986, 16069, 16143, 16207, 16261, 16305]
    + [16340, 16364, 16379, 16384]

  /** The quadrant of a table of 65 entries, mirrored for angles up to 128. */
  function Mirrored(table: seq<int>, angle: nat): int
    requires |table| == 65 && angle <= 128
  {
    if angle > 64 then table[128 - angle] else table[angle]
  }

  /** `angle` is 256ths of a circle; the source reads it as a signed char. */
  function SineOf(table: seq<int>, angle: Byte): int
    requires |table| == 65
  {
    if angle < 128 then Mirrored(table, angle) else -Mirrored(table, 256 - angle)
  }

  function Sine(angle: Byte): int {
    SineOf(SINTAB, angle)
  }

  /** `angle` and `turn` 256ths further on. */
  function On(angle: Byte, turn: nat): Byte {
    U8(angle + turn)
  }

  function Cosine(angle: Byte): int {
    Sine(On(angle, 64))
  }

  /** Half a circle on, sine and cosine have the opposite value. */
  lemma HalfCircle(angle: Byte)
    ensures Sine(On(angle, 128)) == -Sine(angle)
    ensures Cosine(On(angle, 128)) == -Cosine(angle)
  {
    hide Sine, On;
    SineHalf(angle);
    SineHalf(On(angle, 64));
    Commutes(angle);
  }

  lemma OnIs(angle: Byte, turn: nat)
    requires turn < 256
    ensures On(angle, turn) == if angle + turn < 256 then angle + turn else angle + turn - 256
  {
  }

  lemma Commutes(angle: Byte)
    ensures On(On(angle, 128), 64) == On(On(angle, 64), 128)
  {
    hide On;
    OnIs(angle, 128);
    OnIs(angle, 64);
    OnIs(On(angle, 128), 64);
    OnIs(On(angle, 64), 128);
  }

  lemma SineHalf(angle: Byte)
    ensures Sine(On(angle, 128)) == -Sine(angle)
  {
    hide SineOf, On;
    Ends();
    HalfOfTable(SINTAB, angle);
  }

  lemma HalfOfTable(table: seq<int>, angle: Byte)
    requires |table| == 65 && table[0] == 0
    ensures SineOf(table, On(angle, 128)) == -SineOf(table, angle)
  {
  }

  lemma Ends()
    ensures SINTAB[0] == 0 && SINTAB[64] == 0x4000
  {
  }

  /** East, north, west and south. */
  lemma Quarters()
    ensures Sine(0) == 0 && Sine(64) == 0x4000 && Sine(128) == 0 && Sine(192) == -0x4000
    ensures Cosine(0) == 0x4000 && Cosine(64) == 0 && Cosine(128) == -0x4000 && Cosine(192) == 0
  {
    Ends();
  }
}
