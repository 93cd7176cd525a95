/** Printing a long and reading it back: `long2str`, `strreverse` and the decimal parse of `ini_getl`. */
module IniNumber {
  import opened FixedWidth
  import opened IniText

  // ---------------------------------------------------------------- the decimal notation

  function Digit(d: nat): char
    requires d < 10
  {
    ('0' as int + d) as char
  }

  function Digits(n: nat): (s: string)
    ensures s != ""
  {
    (if n < 10 then "" else Digits(n / 10)) + [Digit(n % 10)]
  }

  function Decimal(v: int): (s: string)
    ensures s != ""
  {
    if v < 0 then "-" + Digits(-v) else Digits(v)
  }

  // ---------------------------------------------------------------- strtol with base 10

  predicate IsDigit(c: char) {
    '0' <= c <= '9'
  }

  predicate IsSpace(c: char) {
    c == ' ' || '\t' <= c <= '\r'
  }

  function DigitsValue(s: string, acc: nat): nat
    decreases |s|
  {
    if s == "" || !IsDigit(s[0]) then acc else DigitsValue(s[1..], 10 * acc + (s[0] as int - '0' as int))
  }

  function SkipSpaces(s: string): string {
    if s != "" && IsSpace(s[0]) then SkipSpaces(s[1..]) else s
  }

  function Clamp(x: int): int {
    if x < LONG_MIN then LONG_MIN else if x > LONG_MAX then LONG_MAX else x
  }

  function StrToLong(s: string): int {
    var t := SkipSpaces(s);
    if t != "" && t[0] == '-' then Clamp(-(DigitsValue(t[1..], 0) as int))
    else if t != "" && t[0] == '+' then Clamp(DigitsValue(t[1..], 0))
    else Clamp(DigitsValue(t, 0))
  }

  /** `ini_getl` on the text it read; `hex` parses a text with an x in second place. */
  function LongOf(text: string, default: int, hex: string -> int): int {
    if text == "" then default
    else if |text| >= 2 && Upper(text[1]) == 'X' then hex(text)
    else StrToLong(text)
  }

  // ---------------------------------------------------------------- the round trip

  function Power10(k: nat): nat {
    if k == 0 then 1 else 10 * Power10(k - 1)
  }

  lemma {:induction false} DigitsShape(n: nat)
    ensures forall k :: 0 <= k < |Digits(n)| ==> IsDigit(Digits(n)[k])
  {
    if n >= 10 { DigitsShape(n / 10); }
  }

  lemma {:induction false} DigitsLength(n: nat, k: nat)
    requires k > 0 && n < Power10(k)
    ensures |Digits(n)| <= k
  {
    if n >= 10 { DigitsLength(n / 10, k - 1); }
  }

  lemma {:induction false} ValueOfExtended(s: string, d: nat, acc: nat)
    requires d < 10 && forall k :: 0 <= k < |s| ==> IsDigit(s[k])
    ensures DigitsValue(s + [Digit(d)], acc) == 10 * DigitsValue(s, acc) + d
    decreases |s|
  {
    if s == "" {
      assert (s + [Digit(d)])[1..] == "";
    } else {
      assert (s + [Digit(d)])[1..] == s[1..] + [Digit(d)];
      ValueOfExtended(s[1..], d, 10 * acc + (s[0] as int - '0' as int));
    }
  }

  lemma {:induction false} ValueOfDigits(n: nat)
    ensures DigitsValue(Digits(n), 0) == n
  {
    if n < 10 {
      ValueOfExtended("", n, 0);
      assert Digits(n) == "" + [Digit(n)];
    } else {
      DigitsShape(n / 10);
      ValueOfDigits(n / 10);
      ValueOfExtended(Digits(n / 10), n % 10, 0);
    }
  }

  /** Every long is read back from its decimal notation, the most negative one included. */
  lemma DecimalReadsBack(v: int, default: int, hex: string -> int)
    requires IsLong(v)
    ensures LongOf(Decimal(v), default, hex) == v
  {
    var n := Abs(v);
    DigitsShape(n);
    ValueOfDigits(n);
    if v < 0 { assert Decimal(v)[1..] == Digits(n); }
  }

  /** The notation is short, printable and in need of no quotes. */
  lemma DecimalIsPlain(v: int)
    requires IsLong(v)
    ensures |Decimal(v)| <= 11 && Printable(Decimal(v)) && !NeedsQuotes(Decimal(v)) && ReadsBack(Decimal(v))
  {
    hide Digits, Power10;
    DigitsShape(Abs(v));
    TenDigits();
    DigitsLength(Abs(v), 10);
  }

  lemma TenDigits()
    ensures Power10(10) == 10_000_000_000
  {
    assert Power10(5) == 100_000;
  }

  // ---------------------------------------------------------------- the code

  function Reversed(s: string): (r: string)
    ensures |r| == |s|
  {
    if s == "" then "" else Reversed(s[1..]) + [s[0]]
  }

  lemma {:induction false} ReversedAt(s: string, k: nat)
    requires k < |s|
    ensures Reversed(s)[k] == s[|s| - 1 - k]
    decreases |s|
  {
    if k < |s| - 1 { ReversedAt(s[1..], k); }
  }

  lemma {:induction false} ReversedExtended(s: string, c: char)
    ensures Reversed(s + [c]) == [c] + Reversed(s)
    decreases |s|
  {
    if s == "" {
      assert (s + [c])[1..] == "";
    } else {
      assert (s + [c])[1..] == s[1..] + [c];
      ReversedExtended(s[1..], c);
    }
  }

  /** `strreverse`; `n` is the length of the string held by the array. */
  method StrReverse(str: array<char>, n: nat)
    requires n <= str.Length
    modifies str
    ensures str[..n] == Reversed(old(str[..n])) && str[n..] == old(str[n..])
  {
    var i, j := 0, n - 1;
    while i < j
      invariant 0 <= i && i + j == n - 1 && -1 <= j && i <= j + 2
      invariant forall k :: 0 <= k < i ==> str[k] == old(str[n - 1 - k]) && str[n - 1 - k] == old(str[k])
      invariant forall k :: i <= k <= j ==> str[k] == old(str[k])
      invariant str[n..] == old(str[n..])
    {
      str[i], str[j] := str[j], str[i];
      i, j := i + 1, j - 1;
    }
    ghost var was := old(str[..n]);
    forall k | 0 <= k < n ensures str[k] == Reversed(was)[k] {
      ReversedAt(was, k);
    }
  }

  lemma TruncatedDigit(v: int)
    ensures Abs(TruncDiv(v, 10)) == Abs(v) / 10 && Abs(TruncMod(v, 10)) == Abs(v) % 10
  {
  }

  /** The digits still to come and those already stored, low digit first, make up the notation. */
  lemma DigitStored(v: int, n: int, stored: string)
    ensures TruncDiv(v, 10) == 0 ==> Digits(Abs(v)) + Reversed(stored) == Reversed(stored + [Digit(Abs(v) % 10)])
    ensures TruncDiv(v, 10) != 0 ==>
      Digits(Abs(v)) + Reversed(stored)
      == Digits(Abs(TruncDiv(v, 10))) + Reversed(stored + [Digit(Abs(v) % 10)])
  {
    hide Reversed, TruncDiv, TruncMod;
    TruncatedDigit(v);
    ReversedExtended(stored, Digit(Abs(v) % 10));
  }

  /** The loop of `long2str`: the digits, low first, by C's truncating division. */
  method StoreDigits(v: int, str: array<char>) returns (i: nat)
    requires |Digits(Abs(v))| < str.Length
    modifies str
    ensures i == |Digits(Abs(v))| && Reversed(str[..i]) == Digits(Abs(v))
  {
    hide Digits, Reversed, TruncDiv, TruncMod;
    var value, more := v, true;
    i := 0;
    ReversedEmpty(str[..0]);
    while more
      invariant 0 <= i <= |Digits(Abs(v))|
      invariant more ==> Digits(Abs(v)) == Digits(Abs(value)) + Reversed(str[..i])
      invariant !more ==> Digits(Abs(v)) == Reversed(str[..i])
      decreases if more then 1 else 0, Abs(value)
    {
      TruncatedDigit(value);
      DigitStored(value, i, str[..i]);
      ghost var stored := str[..i];
      str[i] := Digit(Abs(TruncMod(value, 10)));
      assert str[..i + 1] == stored + [Digit(Abs(value) % 10)];
      i := i + 1;
      value := TruncDiv(value, 10);
      more := value != 0;
    }
  }

  lemma ReversedEmpty(s: string)
    ensures s == "" ==> Reversed(s) == ""
  {
  }

  /** `long2str`: the digits in reverse order and the sign, then reversed in place. */
  method Long2Str(v: int, str: array<char>)
    requires IsLong(v) && str.Length >= 12
    modifies str
    ensures |Decimal(v)| < str.Length
    ensures str[..|Decimal(v)|] == Decimal(v) && str[|Decimal(v)|] == '\0'
  {
    hide Digits, Reversed;
    DecimalIsPlain(v);
    var i := StoreDigits(v, str);
    ghost var digits := str[..i];
    if v < 0 {
      str[i] := '-';
      i := i + 1;
      ReversedExtended(digits, '-');
      assert str[..i] == digits + ['-'];
    }
    str[i] := '\0';
    assert str[..i] == if v < 0 then digits + ['-'] else digits;
    StrReverse(str, i);
    assert str[i..][0] == '\0';
  }
}
