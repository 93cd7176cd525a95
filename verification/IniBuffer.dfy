/** The loops of minIni over character buffers, each against the text function it computes. */
module IniBuffer {
  import opened FixedWidth
  import opened IniText

  /** The buffer holds the zero-terminated string `t` at `at`, and nothing outside `[at, end)` changed. */
  twostate predicate Stored(dest: array<char>, at: nat, end: nat, t: string)
    requires at <= end <= dest.Length
    reads dest
  {
    at + |t| < end && dest[at..at + |t|] == t && dest[at + |t|] == '\0' &&
    dest[..at] == old(dest[..at]) && dest[end..] == old(dest[end..])
  }

  method CopyPlain(dest: array<char>, at: nat, source: string, max: nat)
    requires max > 0 && at + max <= dest.Length
    modifies dest
    ensures Stored(dest, at, at + max, SaveCopy(source, max, None))
  {
    hide Escape, Unescape;
    var d := 0;
    while d < max - 1 && d < |source|
      invariant d <= Min(|source|, max - 1)
      invariant dest[at..at + d] == source[..d]
      invariant dest[..at] == old(dest[..at]) && dest[at + max..] == old(dest[at + max..])
    {
      dest[at + d] := source[d];
      d := d + 1;
      assert dest[at..at + d] == dest[at..at + d - 1] + [source[d - 1]];
    }
    dest[at + d] := '\0';
  }

  lemma EscapeNext(source: string, s: nat, room: int)
    requires s < |source| && room > 0
    ensures source[s] != '"' ==> Escape(source[s..], room) == [source[s]] + Escape(source[s + 1..], room - 1)
    ensures source[s] == '"' && room > 1 ==> Escape(source[s..], room) == ['\\', '"'] + Escape(source[s + 1..], room - 2)
    ensures source[s] == '"' && room <= 1 ==> Escape(source[s..], room) == ""
  {
    assert source[s..][1..] == source[s + 1..];
  }

  /** One round of the escaping loop: a character, after a backslash when it is a quote. */
  method PutEscaped(dest: array<char>, p: nat, c: char) returns (q: nat)
    requires p + (if c == '"' then 2 else 1) <= dest.Length
    modifies dest
    ensures q == p + (if c == '"' then 2 else 1)
    ensures dest[..p] == old(dest[..p]) && dest[q..] == old(dest[q..])
    ensures dest[p..q] == if c == '"' then ['\\', '"'] else [c]
  {
    q := p;
    if c == '"' {
      dest[q] := '\\';
      q := q + 1;
    }
    dest[q] := c;
    q := q + 1;
  }

  /** The escaping loop; it starts with `from` characters behind it. */
  method CopyEscaped(dest: array<char>, at: nat, source: string, max: nat) returns (d: nat)
    requires max >= 3 && at + max <= dest.Length
    modifies dest
    ensures 1 <= d <= max - 2
    ensures dest[at + 1..at + d] == Escape(source, max - 3)
    ensures dest[..at + 1] == old(dest[..at + 1]) && dest[at + max..] == old(dest[at + max..])
  {
    hide Escape, Unescape;
    var s := 0;
    d := 1;
    assert source[0..] == source;
    EscapeEnds(source, max - 3);
    while s < |source| && d < max - 2
      invariant s <= |source| && 1 <= d <= max - 2
      invariant Escape(source, max - 3) == dest[at + 1..at + d] + Escape(source[s..], max - 2 - d)
      invariant dest[..at + 1] == old(dest[..at + 1]) && dest[at + max..] == old(dest[at + max..])
    {
      EscapeNext(source, s, max - 2 - d);
      if source[s] == '"' && d >= max - 3 { break; }
      d := PutNext(dest, at, d, max, source[s]);
      s := s + 1;
    }
    EscapeEnds(source[s..], max - 2 - d);
  }

  /** `PutEscaped` behind the `d` characters already stored. */
  method PutNext(dest: array<char>, at: nat, d: nat, max: nat, c: char) returns (e: nat)
    requires 1 <= d && d + (if c == '"' then 2 else 1) <= max - 2 && at + max <= dest.Length
    modifies dest
    ensures e == d + (if c == '"' then 2 else 1)
    ensures dest[at + 1..at + e] == old(dest[at + 1..at + d]) + (if c == '"' then ['\\', '"'] else [c])
    ensures dest[..at + 1] == old(dest[..at + 1]) && dest[at + max..] == old(dest[at + max..])
  {
    ghost var before := dest[..];
    var q := PutEscaped(dest, at + d, c);
    e := q - at;
    assert dest[at + 1..at + d] == dest[..at + d][at + 1..] == before[at + 1..at + d];
    assert dest[at + 1..at + e] == dest[at + 1..at + d] + dest[at + d..q];
    assert dest[..at + 1] == dest[..at + d][..at + 1];
    assert dest[at + max..] == dest[q..][at + max - q..];
  }

  method CopyEnquoted(dest: array<char>, at: nat, source: string, max: nat)
    requires max >= 3 && at + max <= dest.Length
    modifies dest
    ensures Stored(dest, at, at + max, SaveCopy(source, max, Enquote))
  {
    hide Escape, Unescape;
    dest[at] := '"';
    var d := CopyEscaped(dest, at, source, max);
    assert dest[at] == dest[..at + 1][at];
    assert dest[..at] == dest[..at + 1][..at];
    dest[at + d] := '"';
    d := d + 1;
    dest[at + d] := '\0';
    assert dest[at..at + d] == "\"" + Escape(source, max - 3) + "\"";
  }

  lemma EscapeEnds(v: string, room: int)
    ensures v == "" || room <= 0 ==> Escape(v, room) == ""
  {
  }

  lemma UnescapeNext(source: string, s: nat, room: int)
    requires s < |source| && room > 0
    ensures var skip := (source[s] == '"' || source[s] == '\\') && s + 1 < |source| && source[s + 1] == '"';
      var k := if skip then s + 1 else s;
      Unescape(source[s..], room) == [source[k]] + Unescape(source[k + 1..], room - 1)
  {
    assert source[s..][1..] == source[s + 1..];
    if s + 1 < |source| { assert source[s..][2..] == source[s + 2..]; }
  }

  lemma UnescapeEnds(v: string, room: int)
    ensures v == "" || room <= 0 ==> Unescape(v, room) == ""
  {
  }

  method CopyDequoted(dest: array<char>, at: nat, source: string, max: nat)
    requires max > 0 && at + max <= dest.Length
    modifies dest
    ensures Stored(dest, at, at + max, SaveCopy(source, max, Dequote))
  {
    hide Escape, Unescape;
    var d, s := 0, 0;
    assert source[0..] == source;
    while s < |source| && d < max - 1
      invariant s <= |source| && d <= max - 1
      invariant Unescape(source, max - 1) == dest[at..at + d] + Unescape(source[s..], max - 1 - d)
      invariant dest[..at] == old(dest[..at]) && dest[at + max..] == old(dest[at + max..])
    {
      UnescapeNext(source, s, max - 1 - d);
      ghost var written := dest[at..at + d];
      if (source[s] == '"' || source[s] == '\\') && s + 1 < |source| && source[s + 1] == '"' {
        s := s + 1;
      }
      dest[at + d] := source[s];
      assert dest[at..at + d + 1] == written + [source[s]];
      s, d := s + 1, d + 1;
    }
    UnescapeEnds(source[s..], max - 1 - d);
    dest[at + d] := '\0';
    assert dest[at..at + d] == Unescape(source, max - 1);
  }

  /** `save_strncpy` to `dest + at`. */
  method SaveStrncpy(dest: array<char>, at: nat, source: string, max: nat, option: Quote)
    requires max > 0 && at + max <= dest.Length
    modifies dest
    ensures Stored(dest, at, at + max, SaveCopy(source, max, option))
  {
    if option == Enquote && max >= 3 {
      CopyEnquoted(dest, at, source, max);
    } else if option == Dequote {
      CopyDequoted(dest, at, source, max);
    } else {
      CopyPlain(dest, at, source, max);
    }
  }

  lemma CommentNext(s: string, ep: nat, inside: bool)
    requires ep < |s|
    ensures (s[ep] == ';' || s[ep] == '#') && !inside ==> CommentStart(s[ep..], inside) == 0
    ensures !((s[ep] == ';' || s[ep] == '#') && !inside) ==>
      var pair := (s[ep] == '"' || s[ep] == '\\') && ep + 1 < |s| && s[ep + 1] == '"';
      var now := if s[ep] == '"' && !pair then !inside else inside;
      CommentStart(s[ep..], inside) == (if pair then 2 + CommentStart(s[ep + 2..], now) else 1 + CommentStart(s[ep + 1..], now))
  {
    assert s[ep..][1..] == s[ep + 1..];
    if ep + 1 < |s| { assert s[ep..][2..] == s[ep + 2..]; }
  }

  /** The scan of `cleanstring` for a comment. */
  method FindComment(s: string) returns (ep: nat)
    ensures ep == CommentStart(s, false)
  {
    hide CommentStart;
    var isString := false;
    ep := 0;
    assert s[0..] == s;
    while ep < |s| && ((s[ep] != ';' && s[ep] != '#') || isString)
      invariant ep <= |s| && CommentStart(s, false) == ep + CommentStart(s[ep..], isString)
    {
      CommentNext(s, ep, isString);
      if s[ep] == '"' {
        if ep + 1 < |s| && s[ep + 1] == '"' { ep := ep + 1; } else { isString := !isString; }
      } else if s[ep] == '\\' && ep + 1 < |s| && s[ep + 1] == '"' {
        ep := ep + 1;
      }
      ep := ep + 1;
    }
    CommentStops(s[ep..], isString);
  }

  lemma CommentStops(s: string, inside: bool)
    ensures s == "" || ((s[0] == ';' || s[0] == '#') && !inside) ==> CommentStart(s, inside) == 0
  {
  }

  /** `skiptrailing` from `end` down to the start of the text. */
  method SkipTrailing(s: string, end: nat) returns (k: nat)
    requires end <= |s|
    ensures k <= end && s[..k] == StripTrailing(s[..end])
  {
    k := end;
    while k > 0 && Blank(s[k - 1])
      invariant k <= end && StripTrailing(s[..k]) == StripTrailing(s[..end])
    {
      assert s[..k][..k - 1] == s[..k - 1];
      k := k - 1;
    }
  }

  /** `skipleading`. */
  method SkipBlanks(s: string) returns (k: nat)
    ensures k <= |s| && s[k..] == SkipLeading(s)
  {
    k := 0;
    while k < |s| && Blank(s[k])
      invariant k <= |s| && SkipLeading(s[k..]) == SkipLeading(s)
    {
      assert s[k..][1..] == s[k + 1..];
      k := k + 1;
    }
  }

  /** `cleanstring`: the bounds of the cleaned text inside `s`. */
  method CleanString(s: string) returns (start: nat, end: nat, quotes: Quote)
    ensures start <= end <= |s| && (s[start..end], quotes) == Clean(s)
  {
    hide CommentStart, StripTrailing;
    var ep := FindComment(s);
    end := SkipTrailing(s, ep);
    assert Clean(s) == Unquote(s[..end]);
    start, quotes := 0, None;
    ghost var t := s[..end];
    if end > 0 && s[0] == '"' && s[end - 1] == '"' {
      start, quotes := 1, Dequote;
      end := if end == 1 then 1 else end - 1;
      assert Unquote(t) == (s[start..end], Dequote) by { if |t| > 1 { assert t[1..|t| - 1] == s[start..end]; } }
    }
  }

  /** `check_enquote`. */
  method CheckEnquote(value: string) returns (q: Quote)
    ensures q == QuoteFor(value)
  {
    var p := 0;
    while p < |value| && !Special(value[p])
      invariant p <= |value| && forall k :: 0 <= k < p ==> !Special(value[k])
    {
      p := p + 1;
    }
    q := if p < |value| || (p > 0 && value[p - 1] == ' ') then Enquote else None;
  }
}
