/** Words and longs as bytes: low byte first in memory, high byte first on the wire. */
module ByteOrder {
  import opened FixedWidth

  function Word(x: int): (s: seq<Byte>)
    ensures |s| == 2
  {
    [x % 0x100, x / 0x100 % 0x100]
  }

  function Long(x: int): (s: seq<Byte>)
    ensures |s| == 4
  {
    Word(x) + Word(x / 0x1_0000)
  }

  function WordAt(s: seq<Byte>, k: nat): nat
    requires k + 2 <= |s|
  {
    (s[k] as nat) + 0x100 * (s[k + 1] as nat)
  }

  function LongAt(s: seq<Byte>, k: nat): nat
    requires k + 4 <= |s|
  {
    WordAt(s, k) + 0x1_0000 * WordAt(s, k + 2)
  }

  function BigWord(x: int): (s: seq<Byte>)
    ensures |s| == 2
  {
    [x / 0x100 % 0x100, x % 0x100]
  }

  function BigLong(x: int): (s: seq<Byte>)
    ensures |s| == 4
  {
    BigWord(x / 0x1_0000) + BigWord(x)
  }

  /** The bytes of a word are read back modulo 2^16. */
  lemma WordRoundTrip(x: int)
    ensures WordAt(Word(x), 0) == U16(x)
  {
  }

  lemma LongRoundTrip(x: int)
    requires IsLong(x)
    ensures S32(LongAt(Long(x), 0)) == x
  {
    hide S32, U16;
    var (lo, hi) := (WordAt(Word(x), 0), WordAt(Word(x / 0x1_0000), 0));
    WordRoundTrip(x);
    WordRoundTrip(x / 0x1_0000);
    assert LongAt(Long(x), 0) == lo + 0x1_0000 * hi;
    HalvesMeet(x);
  }

  lemma HalvesMeet(x: int)
    requires IsLong(x)
    ensures S32(U16(x) + 0x1_0000 * U16(x / 0x1_0000)) == x
  {
    var h := x / 0x1_0000;
    assert x == 0x1_0000 * h + U16(x);
    assert U16(h) == if h >= 0 then h else h + 0x1_0000;
  }

  lemma SignedWordRoundTrip(x: int)
    requires IsWord(x)
    ensures S16(WordAt(Word(x), 0)) == x
  {
    WordRoundTrip(x);
  }

  /** A reader that finds the bytes of a number anywhere reads that number. */
  lemma ReadsWord(s: seq<Byte>, k: nat, x: int)
    requires k + 2 <= |s| && s[k..k + 2] == Word(x)
    ensures WordAt(s, k) == WordAt(Word(x), 0)
  {
    assert s[k] == s[k..k + 2][0] && s[k + 1] == s[k..k + 2][1];
  }

  lemma ReadsLong(s: seq<Byte>, k: nat, x: int)
    requires k + 4 <= |s| && s[k..k + 4] == Long(x)
    ensures LongAt(s, k) == LongAt(Long(x), 0)
  {
    var t := s[k..k + 4];
    assert s[k] == t[0] && s[k + 1] == t[1] && s[k + 2] == t[2] && s[k + 3] == t[3];
  }

  /** The wire's order is the memory's backwards. */
  lemma BigIsReversed(x: int)
    ensures BigWord(x)[0] == Word(x)[1] && BigWord(x)[1] == Word(x)[0]
    ensures forall k :: 0 <= k < 4 ==> BigLong(x)[k] == Long(x)[3 - k]
  {
  }
}
