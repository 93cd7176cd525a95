/** Numbers and names as people write them, and what is kept of them. */
module IniForeign {
  import opened FixedWidth
  import opened IniText
  import opened IniNumber
  import opened IniStore
  import opened IniFile

  /** `*s <= ' '` of a signed char: the control characters, the blank, and everything beyond ASCII. */
  lemma BlankIs(c: char)
    requires c as int < 256
    ensures Blank(c) <==> c as int <= 32 || c as int >= 128
  {
  }

  /** Two one-letter names are the same exactly if they differ in nothing but the case of an ASCII letter. */
  lemma SameLetterIff(c: char, d: char)
    requires c as int < 128 && d as int < 128
    ensures SameName([c], [d]) <==>
      c == d || ('a' <= c <= 'z' && d as int == c as int - 32) || ('a' <= d <= 'z' && c as int == d as int - 32)
  {
    assert SameName([c], [d]) <==> Upper([c][0]) == Upper([d][0]);
  }

  // ---------------------------------------------------------------- numbers

  /** Blank, tabulator, line feed, vertical tabulator, form feed and carriage return. */
  predicate AllSpace(s: string) {
    forall k :: 0 <= k < |s| ==> s[k] as int == 32 || 9 <= s[k] as int <= 13
  }

  lemma {:induction false} SkipsSpaces(gap: string, s: string)
    requires AllSpace(gap) && (s != "" ==> !IsSpace(s[0]))
    ensures SkipSpaces(gap + s) == s
    decreases |gap|
  {
    if gap == "" {
      assert gap + s == s;
    } else {
      assert (gap + s)[1..] == gap[1..] + s;
      SkipsSpaces(gap[1..], s);
    }
  }

  predicate NoDigitAhead(s: string) {
    s != "" ==> !('0' <= s[0] <= '9')
  }

  lemma {:induction false} ValueStops(s: string, behind: string, acc: nat)
    requires NoDigitAhead(behind) && forall k :: 0 <= k < |s| ==> IsDigit(s[k])
    ensures DigitsValue(s + behind, acc) == DigitsValue(s, acc)
    decreases |s|
  {
    if s == "" {
      assert s + behind == behind;
    } else {
      assert (s + behind)[1..] == s[1..] + behind;
      ValueStops(s[1..], behind, 10 * acc + (s[0] as int - '0' as int));
    }
  }

  /** White space, a sign or none, digits, and anything that is no digit: the number, cut off at the ends of a long. */
  lemma NumberReads(gap: string, sign: string, n: nat, behind: string)
    requires AllSpace(gap) && NoDigitAhead(behind) && (sign == "" || sign == "+" || sign == "-")
    ensures var x: int := if sign == "-" then -(n as int) else n;
      StrToLong(gap + (sign + Digits(n) + behind)) ==
        if x < -0x8000_0000 then -0x8000_0000 else if x > 0x7FFF_FFFF then 0x7FFF_FFFF else x
  {
    hide Digits, DigitsValue, SkipSpaces;
    DigitsShape(n);
    ValueOfDigits(n);
    ValueStops(Digits(n), behind, 0);
    var t := sign + Digits(n) + behind;
    assert t[0] == if sign == "" then Digits(n)[0] else sign[0];
    assert sign != "" ==> t[1..] == Digits(n) + behind;
    assert sign == "" ==> t == Digits(n) + behind;
    SkipsSpaces(gap, t);
  }

  /** An empty text is the default; a second character x, in any case, makes it hexadecimal; any other text is decimal. */
  lemma LongOfText(text: string, default: int, hex: string -> int)
    ensures text == "" ==> LongOf(text, default, hex) == default
    ensures |text| > 1 && (text[1] == 'x' || text[1] == 'X') ==> LongOf(text, default, hex) == hex(text)
    ensures text != "" && !(|text| > 1 && (text[1] == 'x' || text[1] == 'X')) ==> LongOf(text, default, hex) == StrToLong(text)
  {
    hide StrToLong;
  }

  /** The notation has a sign exactly for negative numbers, and no leading zero but that of 0. */
  lemma DecimalIsCanonical(v: int)
    ensures Decimal(0) == "0"
    ensures Decimal(v)[0] == '-' <==> v < 0
    ensures v != 0 ==> var d := if v < 0 then Decimal(v)[1..] else Decimal(v); d != "" && '1' <= d[0] <= '9'
  {
    hide Digits;
    FirstDigit(Abs(v));
    ZeroDigit();
    if v < 0 { assert Decimal(v)[1..] == Digits(-v); }
  }

  lemma ZeroDigit()
    ensures Digits(0) == "0"
  {
  }

  lemma {:induction false} FirstDigit(n: nat)
    ensures n > 0 ==> '1' <= Digits(n)[0] <= '9'
    ensures '0' <= Digits(n)[0] <= '9'
  {
    if n >= 10 { FirstDigit(n / 10); }
  }

  // ---------------------------------------------------------------- room

  /** A value that needs quotes is written whole between them exactly if key and escaped value have at most 506 characters. */
  lemma QuotedWholeIff(key: string, value: string)
    requires PlainKey(key) && NeedsQuotes(value) && |key| <= 506
    ensures KeyLine(key, value) == key + "=\"" + Escape(value, EscapedSize(value)) + "\"\n" <==> |key| + EscapedSize(value) <= 506
  {
    hide NeedsQuotes, Escape;
    assert key[..Min(|key|, BUFFER - 4)] == key;
    var (whole, room) := (Escape(value, EscapedSize(value)), ValueRoom(key) - 3);
    assert KeyLine(key, value) == key + "=" + ("\"" + Escape(value, room) + "\"") + "\n";
    if |key| + EscapedSize(value) <= 506 {
      EscapeWhole(value, room);
      assert KeyLine(key, value) == key + "=\"" + whole + "\"\n";
    } else {
      EscapeWhole(value, EscapedSize(value));
      assert |KeyLine(key, value)| == |key| + |Escape(value, room)| + 4;
      assert |key + "=\"" + whole + "\"\n"| == |key| + |whole| + 4;
    }
  }

  /** A line that does not fit is taken in pieces of one character less than the buffer. */
  lemma LongLineIsSplit(text: string, pos: nat, n: nat)
    requires pos + n <= |text| && n > 1 && '\n' !in text[pos..pos + n - 1]
    ensures Taken(text, pos, n) == n - 1
  {
    hide IndexOf;
    assert text[pos..][..n - 1] == text[pos..pos + n - 1];
  }
}
