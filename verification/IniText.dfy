/** The characters of an INI file: lines, quoting, comments, and the parts of a line. */
module IniText {
  import opened FixedWidth

  const BUFFER := 512          // INI_BUFFERSIZE

  // ---------------------------------------------------------------- C strings

  /** `*s <= ' '` with a signed char type. */
  predicate Blank(c: char) {
    c <= ' ' || c >= 128 as char
  }

  function SkipLeading(s: string): string {
    if s != "" && Blank(s[0]) then SkipLeading(s[1..]) else s
  }

  function StripTrailing(s: string): string {
    if s != "" && Blank(s[|s| - 1]) then StripTrailing(s[..|s| - 1]) else s
  }

  /** The position of the first `c`, or the length. */
  function IndexOf(s: string, c: char): (k: nat)
    ensures k <= |s| && (k < |s| ==> s[k] == c) && c !in s[..k]
  {
    if s == "" || s[0] == c then 0 else 1 + IndexOf(s[1..], c)
  }

  function Upper(c: char): char {
    if 'a' <= c <= 'z' then (c as int - 32) as char else c
  }

  /** Equal up to the case of ASCII letters. */
  predicate SameName(a: string, b: string) {
    |a| == |b| && forall k :: 0 <= k < |a| ==> Upper(a[k]) == Upper(b[k])
  }

  // ---------------------------------------------------------------- quoting

  datatype Quote = None | Enquote | Dequote

  predicate Special(c: char) {
    c == '"' || c == ';' || c == '#'
  }

  /** `check_enquote`. */
  predicate NeedsQuotes(v: string) {
    (exists k :: 0 <= k < |v| && Special(v[k])) || (v != "" && v[|v| - 1] == ' ')
  }

  /** Inner quotes escaped, as far as `room` characters go. */
  function Escape(v: string, room: int): (r: string)
    ensures |r| <= if room > 0 then room else 0
    decreases |v|
  {
    if v == "" || room <= 0 then ""
    else if v[0] != '"' then [v[0]] + Escape(v[1..], room - 1)
    else if room <= 1 then ""
    else "\\\"" + Escape(v[1..], room - 2)
  }

  function Unescape(s: string, room: int): (r: string)
    decreases |s|
  {
    if s == "" || room <= 0 then ""
    else if (s[0] == '"' || s[0] == '\\') && |s| > 1 && s[1] == '"' then "\"" + Unescape(s[2..], room - 1)
    else [s[0]] + Unescape(s[1..], room - 1)
  }

  /** `save_strncpy` into `max` characters, the terminating zero included. */
  function SaveCopy(s: string, max: nat, option: Quote): (r: string)
    requires max > 0
    ensures |r| < max
  {
    if option == Enquote && max >= 3 then "\"" + Escape(s, max - 3) + "\""
    else if option == Dequote then UnescapeFits(s, max - 1); Unescape(s, max - 1)
    else s[..Min(|s|, max - 1)]
  }

  lemma {:induction false} UnescapeFits(s: string, room: int)
    requires room >= 0
    ensures |Unescape(s, room)| <= room
    decreases |s|
  {
    if s != "" && room > 0 {
      UnescapeFits(s[1..], room - 1);
      if |s| > 1 { UnescapeFits(s[2..], room - 1); }
    }
  }

  /** The number of characters before a trailing comment; `inside` a quoted string there is none. */
  function CommentStart(s: string, inside: bool): (k: nat)
    ensures k <= |s|
    decreases |s|
  {
    if s == "" || ((s[0] == ';' || s[0] == '#') && !inside) then 0
    else if s[0] == '"' then
      if |s| > 1 && s[1] == '"' then 2 + CommentStart(s[2..], inside) else 1 + CommentStart(s[1..], !inside)
    else if s[0] == '\\' && |s| > 1 && s[1] == '"' then 2 + CommentStart(s[2..], inside)
    else 1 + CommentStart(s[1..], inside)
  }

  /** The text without surrounding quotes, and whether there were any. */
  function Unquote(t: string): (string, Quote) {
    if t != "" && t[0] == '"' && t[|t| - 1] == '"'
    then (if |t| == 1 then "" else t[1..|t| - 1], Dequote)
    else (t, None)
  }

  /** `cleanstring`: comment and trailing blanks off, then surrounding quotes. */
  function Clean(s: string): (string, Quote) {
    Unquote(StripTrailing(s[..CommentStart(s, false)]))
  }

  /** The value a reader with `max` characters gets from what follows the `=` of a line. */
  function ReadValue(s: string, max: nat): string
    requires max > 0
  {
    var (t, q) := Clean(SkipLeading(s));
    SaveCopy(t, max, q)
  }

  function QuoteFor(v: string): Quote {
    if NeedsQuotes(v) then Enquote else None
  }

  // ---------------------------------------------------------------- the quoting round trip

  predicate Printable(s: string) {
    forall k :: 0 <= k < |s| ==> ' ' <= s[k] <= '~'
  }

  /** The length of the escaped text. */
  function EscapedSize(v: string): nat {
    if v == "" then 0 else (if v[0] == '"' then 2 else 1) + EscapedSize(v[1..])
  }

  /** The text `writekey` stores for `v` is not cut off at `max` characters. */
  predicate FitsQuoted(v: string, max: nat) {
    if NeedsQuotes(v) then EscapedSize(v) + 3 <= max else |v| < max
  }

  lemma {:induction false} EscapeWhole(v: string, room: int)
    requires EscapedSize(v) <= room
    ensures |Escape(v, room)| == EscapedSize(v) && Escape(v, room) == Escape(v, EscapedSize(v))
    decreases |v|
  {
    if v != "" {
      var n := if v[0] == '"' then 2 else 1;
      EscapeWhole(v[1..], room - n);
    }
  }

  /** An escaped text never starts with a bare quote. */
  lemma {:induction false} EscapeStart(v: string, room: int)
    ensures Escape(v, room) != "" ==> Escape(v, room)[0] != '"'
    decreases |v|
  {
  }

  lemma {:induction false} UnescapeEscape(v: string, room: int, max: int)
    requires EscapedSize(v) <= room && |v| <= max
    ensures Unescape(Escape(v, room), max) == v
    decreases |v|
  {
    if v != "" {
      var n := if v[0] == '"' then 2 else 1;
      var e := Escape(v[1..], room - n);
      EscapeStart(v[1..], room - n);
      UnescapeEscape(v[1..], room - n, max - 1);
      if v[0] == '"' {
        assert Escape(v, room)[2..] == e;
      } else {
        assert Escape(v, room)[1..] == e;
      }
    }
  }

  lemma ScanQuote(s: string)
    ensures CommentStart("\\\"" + s, true) == 2 + CommentStart(s, true)
  {
    var t := "\\\"" + s;
    assert t[2..] == s;
  }

  lemma ScanOther(c: char, s: string)
    requires c != '"' && !(c == '\\' && s != "" && s[0] == '"')
    ensures CommentStart([c] + s, true) == 1 + CommentStart(s, true)
  {
    var t := [c] + s;
    assert t[1..] == s;
  }

  lemma ScanClosing(s: string, end: string)
    requires |end| == 1 && end[0] == '\n' && |s| == 2 && s[0] == '"' && s[1] == '\n'
    ensures CommentStart(s, true) == 2 && CommentStart(end, true) == 1
  {
    assert s[1..] == end;
    assert CommentStart(s[1..], false) == 1 + CommentStart(end[1..], false);
  }

  /** From inside the string, the comment scan passes the escaped text, the closing quote and the line end. */
  lemma {:induction false} ScanEscaped(v: string, room: int)
    requires EscapedSize(v) <= room
    ensures CommentStart(Escape(v, room) + "\"\n", true) == |Escape(v, room)| + 2
    decreases |v|
  {
    hide CommentStart;
    ScanClosing("\"\n", "\n");
    var s := Escape(v, room) + "\"\n";
    if v == "" {
      assert s == "\"\n";
    } else {
      var n := if v[0] == '"' then 2 else 1;
      var e := Escape(v[1..], room - n);
      ScanEscaped(v[1..], room - n);
      EscapeStart(v[1..], room - n);
      if v[0] == '"' {
        assert s == "\\\"" + (e + "\"\n");
        ScanQuote(e + "\"\n");
      } else if v[0] == '\\' && e == "" {
        assert s == "\\\"" + "\n";
        ScanQuote("\n");
      } else {
        assert s == [v[0]] + (e + "\"\n");
        ScanOther(v[0], e + "\"\n");
      }
    }
  }

  lemma TrimEnd(s: string, c: char)
    requires Blank(c)
    ensures StripTrailing(s + [c]) == StripTrailing(s)
  {
    assert (s + [c])[..|s|] == s;
  }

  /** An escaped text between quotes, at the end of a line. */
  function Quoted(e: string): string {
    "\"" + e + "\"\n"
  }

  lemma {:induction false} QuotedReadsBack(v: string, max: nat, room: nat)
    requires NeedsQuotes(v) && EscapedSize(v) + 3 <= max && |v| < room
    ensures ReadValue(SaveCopy(v, max, Enquote) + "\n", room) == v
  {
    hide Clean, Escape, Unescape, CommentStart, EscapedSize;
    var e := Escape(v, max - 3);
    assert SaveCopy(v, max, Enquote) + "\n" == Quoted(e);
    ScanQuoted(v, max - 3);
    CleanQuoted(e);
    assert SkipLeading(Quoted(e)) == Quoted(e);
    UnescapeEscape(v, max - 3, room - 1);
  }

  lemma ScanQuoted(v: string, room: int)
    requires NeedsQuotes(v) && EscapedSize(v) <= room
    ensures CommentStart(Quoted(Escape(v, room)), false) == |Escape(v, room)| + 3
  {
    hide Escape;
    var e := Escape(v, room);
    EscapeWhole(v, room);
    EscapeStart(v, room);
    ScanEscaped(v, room);
    assert Quoted(e)[1..] == e + "\"\n";
  }

  lemma CleanQuoted(e: string)
    requires CommentStart(Quoted(e), false) == |e| + 3
    ensures Clean(Quoted(e)) == (e, Dequote)
  {
    hide CommentStart;
    var q := "\"" + e + "\"";
    var s := Quoted(e);
    assert s == q + "\n" && s[..|s|] == s;
    TrimEnd(q, '\n');
    assert q[1..|q| - 1] == e;
  }

  predicate Unremarkable(s: string) {
    forall k :: 0 <= k < |s| ==> !Special(s[k])
  }

  lemma {:induction false} ScanPlain(s: string)
    requires Unremarkable(s)
    ensures CommentStart(s, false) == |s|
    decreases |s|
  {
    if s != "" { ScanPlain(s[1..]); }
  }

  /** Leading blanks come off a text that has something else at its end. */
  lemma {:induction false} SkipBefore(s: string, t: string)
    requires s != "" && !Blank(s[|s| - 1])
    ensures SkipLeading(s + t) == SkipLeading(s) + t
    ensures SkipLeading(s) != "" && SkipLeading(s)[|SkipLeading(s)| - 1] == s[|s| - 1]
    ensures |SkipLeading(s)| <= |s| && (Unremarkable(s) ==> Unremarkable(SkipLeading(s)))
    ensures SkipLeading(s) == s <==> !Blank(s[0])
    decreases |s|
  {
    if Blank(s[0]) {
      assert (s + t)[1..] == s[1..] + t;
      SkipBefore(s[1..], t);
    }
  }

  lemma CleanPlain(w: string)
    requires w != "" && Unremarkable(w) && !Blank(w[|w| - 1])
    ensures Clean(w + "\n") == (w, None)
  {
    hide CommentStart;
    ScanPlain(w + "\n");
    assert (w + "\n")[..|w + "\n"|] == w + "\n";
    TrimEnd(w, '\n');
  }

  lemma {:induction false} PlainReadsBack(v: string, max: nat, room: nat)
    requires Printable(v) && !NeedsQuotes(v) && |v| < max && |v| < room
    ensures ReadValue(SaveCopy(v, max, None) + "\n", room) == SkipLeading(v)
  {
    hide Clean, Unescape, Escape;
    assert SaveCopy(v, max, None) == v;
    if v == "" {
      CleanEmpty();
      assert v + "\n" == "\n";
    } else {
      SkipBefore(v, "\n");
      CleanPlain(SkipLeading(v));
    }
  }

  lemma CleanEmpty()
    ensures SkipLeading("\n") == "" && Clean("") == ("", None)
  {
    assert "\n"[1..] == "";
  }

  /** What a stored value reads back as: an unquoted one loses its leading blanks, and only those. */
  lemma StoredValue(v: string, max: nat, room: nat)
    requires Printable(v) && FitsQuoted(v, max) && |v| < room && max > 0
    ensures ReadValue(SaveCopy(v, max, QuoteFor(v)) + "\n", room) == if NeedsQuotes(v) then v else SkipLeading(v)
  {
    if NeedsQuotes(v) { QuotedReadsBack(v, max, room); } else { PlainReadsBack(v, max, room); }
  }

  /** `check_enquote` overlooks leading blanks: those and no other values come back changed. */
  lemma ReadsBackIff(v: string, max: nat, room: nat)
    requires Printable(v) && FitsQuoted(v, max) && |v| < room && max > 0
    ensures ReadValue(SaveCopy(v, max, QuoteFor(v)) + "\n", room) == v <==> ReadsBack(v)
  {
    hide ReadValue, SaveCopy, FitsQuoted;
    StoredValue(v, max, room);
    if v != "" && !NeedsQuotes(v) { SkipBefore(v, ""); }
  }

  predicate ReadsBack(v: string) {
    v == "" || v[0] != ' ' || NeedsQuotes(v)
  }

  lemma LeadingBlankIsLost()
    ensures ReadValue(SaveCopy(" x", 16, QuoteFor(" x")) + "\n", 16) == "x"
  {
    PlainReadsBack(" x", 16, 16);
    assert " x"[1..] == "x";
    assert SkipLeading("x") == "x";
  }
}
