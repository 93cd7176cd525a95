/** The open files of an update: the text being read, the cache, and the text written. */
module IniRewriter {
  import opened FixedWidth
  import opened IniText
  import opened IniStore
  import opened IniBuffer
  import opened IniFile

  class Rewriter {
    const text: string
    var rpos: nat
    var mark: nat
    var cachelen: nat
    var out: string

    // The same positions as line numbers, and the lines written.
    ghost const lines: seq<string>
    ghost var next: nat
    ghost var marked: nat
    ghost var cached: nat
    ghost var written: seq<string>

    constructor (content: string, ghost split: seq<string>)
      requires TextFile(split) && content == Join(split)
      ensures Valid() && text == content && lines == split
      ensures next == marked == cached == 0 && written == []
    {
      text, rpos, mark, cachelen, out := content, 0, 0, 0, "";
      lines, next, marked, cached, written := split, 0, 0, 0, [];
    }

    ghost predicate Valid()
      reads this
    {
      TextFile(lines) && text == Join(lines) && Positions() && cachelen < BUFFER && out == Join(written)
    }

    ghost predicate Positions()
      reads this
    {
      next <= |lines| && marked <= cached <= |lines| &&
      rpos == Offset(lines, next) && mark == Offset(lines, marked) && mark + cachelen == Offset(lines, cached)
    }

    /** The lines written once the cache is flushed. */
    ghost function Copied(): seq<string>
      requires marked <= cached <= |lines|
      reads this
    {
      written + lines[marked..cached]
    }

    /** `ini_read` through `fgets`. */
    method Read(n: nat) returns (ok: bool, line: string)
      requires Valid() && (next < |lines| ==> |lines[next]| < n)
      modifies `rpos, `next
      ensures Valid() && ok == (old(next) < |lines|)
      ensures ok ==> line == lines[old(next)] && next == old(next) + 1
      ensures !ok ==> next == old(next)
    {
      hide Join, IndexOf, TextFile;
      AtEnd(lines, next);
      ok, line := rpos < |text|, "";
      if ok {
        TakesLine(lines, next, n);
        OffsetNext(lines, next);
        line := text[rpos..rpos + Taken(text, rpos, n)];
        rpos := rpos + |line|;
        next := next + 1;
      }
    }

    /** `cache_accum`. */
    method CacheAccum(line: string) returns (ok: bool)
      requires Valid() && cached < |lines| && line == lines[cached]
      modifies `cachelen, `cached
      ensures Valid() && ok == (old(cachelen) + |line| < BUFFER)
      ensures cached == if ok then old(cached) + 1 else old(cached)
      ensures !ok ==> cachelen == old(cachelen)
    {
      hide Join, TextFile, Offset;
      ok := cachelen + |line| < BUFFER;
      if ok {
        OffsetNext(lines, cached);
        cachelen := cachelen + |line|;
        cached := cached + 1;
      }
    }

    /**
     * `cache_flush`: the file is read again from the mark, as far as the cache reaches, and written.
     * The flag says that the text ends a line; for an empty cache it is `anything`.
     */
    method CacheFlush(anything: bool) returns (flag: bool)
      requires Valid()
      modifies this
      ensures Valid() && written == old(Copied()) && marked == cached == next == old(cached)
      ensures flag == (old(marked) < old(cached) || anything)
    {
      hide Join, TextFile, Offset;
      rpos, next := mark, marked;
      var buffer, pos := "", 0;
      CacheSize(marked);
      while pos < cachelen
        invariant Valid() && unchanged(`mark, `marked, `cachelen, `cached, `out, `written)
        invariant marked <= next <= cached && buffer == Join(lines[marked..next]) && pos == |buffer|
        invariant pos + |Join(lines[next..cached])| == cachelen
        decreases cached - next
      {
        CacheHasLine();
        var ok, line := Read(BUFFER - pos);
        ExtendJoin(next - 1);
        buffer, pos := buffer + line, pos + |line|;
      }
      CacheRead();
      JoinAppends(written, lines[marked..cached]);
      out := out + buffer;
      written := written + lines[marked..cached];
      EndsLine(buffer);
      flag := if buffer == "" then anything else buffer[|buffer| - 1] == '\n';
      mark, marked := rpos, next;
      cachelen := 0;
    }

    lemma CacheSize(i: nat)
      requires Valid() && i == marked
      ensures Join(lines[i..i]) == "" && |Join(lines[i..cached])| == cachelen
    {
      hide TextFile;
      OffsetOrder(lines, i, cached);
    }

    /** While characters are missing so is a line, and it fits what is left of the buffer. */
    lemma CacheHasLine()
      requires Valid() && marked <= next <= cached
      requires |Join(lines[marked..next])| + |Join(lines[next..cached])| == cachelen > |Join(lines[marked..next])|
      ensures next < cached && |lines[next]| < BUFFER - |Join(lines[marked..next])|
    {
      hide TextFile, Offset;
      var rest := lines[next..cached];
      assert rest != [] ==> rest[0] == lines[next];
    }

    lemma ExtendJoin(i: nat)
      requires marked <= i < cached <= |lines|
      ensures Join(lines[marked..i + 1]) == Join(lines[marked..i]) + lines[i]
      ensures |Join(lines[i..cached])| == |lines[i]| + |Join(lines[i + 1..cached])|
    {
      assert lines[marked..i + 1] == lines[marked..i] + [lines[i]];
      JoinAppends(lines[marked..i], [lines[i]]);
      JoinOne(lines[i]);
      assert lines[i..cached][1..] == lines[i + 1..cached];
    }

    lemma CacheRead()
      requires Valid() && marked <= next <= cached && |Join(lines[next..cached])| == 0
      ensures next == cached
    {
      if next < cached { LinesHaveText(next); }
    }

    lemma LinesHaveText(i: nat)
      requires TextFile(lines) && i < cached <= |lines|
      ensures |Join(lines[i..cached])| > 0
    {
      assert lines[i..cached][0] == lines[i];
      assert TextLine(lines[i]);
    }

    lemma EndsLine(buffer: string)
      requires Valid() && buffer == Join(lines[marked..cached])
      ensures if marked == cached then buffer == "" else buffer != "" && buffer[|buffer| - 1] == '\n'
    {
      hide Offset;
      if marked < cached {
        var all, last := lines[marked..cached], lines[cached - 1];
        assert all == lines[marked..cached - 1] + [last];
        JoinAppends(lines[marked..cached - 1], [last]);
        JoinOne(last);
        assert TextLine(last);
      }
    }

    /** The line just read goes to the cache, which is flushed first when it is full. */
    method Keep(line: string)
      requires Valid() && cached + 1 == next && line == lines[cached]
      modifies this
      ensures Valid() && next == cached == old(next) && old(marked) <= marked < cached
      ensures Copied() == old(Copied()) + [line]
    {
      hide Join, TextFile, Offset;
      var line' := line;
      var ok := CacheAccum(line);
      if !ok {
        var _ := CacheFlush(true);
        assert TextLine(lines[next]) by { LineOf(next); }
        var _, again := Read(BUFFER);
        line' := again;
        ok := CacheAccum(line');
      }
      assert lines[old(marked)..old(cached) + 1] == lines[old(marked)..old(cached)] + [line];
    }

    lemma LineOf(i: nat)
      requires TextFile(lines) && i < |lines|
      ensures TextLine(lines[i])
    {
    }

    /** `ini_write` of one line behind an empty cache. */
    method Write(line: string)
      requires Valid() && marked == cached
      modifies `out, `written
      ensures Valid() && written == old(written) + [line]
    {
      hide TextFile, Offset;
      JoinAppends(written, [line]);
      JoinOne(line);
      out := out + line;
      written := written + [line];
    }

    /** `ini_tell` of the read position into the mark; nothing is cached. */
    method Tell()
      requires Valid() && marked == cached
      modifies `mark, `marked, `cached
      ensures Valid() && marked == cached == next
    {
      hide Join, TextFile, Offset;
      mark := rpos;
      marked, cached := next, next;
    }

    /** The first loop of `getkeystring`. */
    method SeekSection(section: string) returns (found: bool)
      requires Valid() && next == 0
      modifies `rpos, `next
      ensures Valid() && AfterHeading(lines, section) == if found then lines[next..] else []
    {
      hide Join, Offset, IsSection, TextLine;
      assert lines[0..] == lines;
      found := false;
      while !found
        invariant Valid()
        invariant AfterHeading(lines, section) == if found then lines[next..] else AfterHeading(lines[next..], section)
        decreases |lines| - next, if found then 0 else 1
      {
        if next < |lines| { FitsBuffer(next); }
        var ok, line := Read(BUFFER);
        if !ok {
          assert lines[next..] == [];
          return;
        }
        assert lines[next - 1..][1..] == lines[next..];
        found := IsSection(line, section);
      }
    }

    lemma FitsBuffer(i: nat)
      requires TextFile(lines) && i < |lines|
      ensures |lines[i]| < BUFFER
    {
      assert TextLine(lines[i]);
    }

    /** `getkeystring` for a key, from the start of the file. */
    method GetKeyString(section: string, key: string, max: nat) returns (found: bool, value: string)
      requires Valid() && next == 0 && max > 0
      modifies `rpos, `next
      ensures Valid() && Get(lines, section, key, max) == if found then Just(value) else Nothing
    {
      hide Join, Offset, StartsSection, Commented, NamesKey, ReadValue, AfterHeading, TextLine;
      found, value := section == "", "";
      if !found { found := SeekSection(section); }
      if !found { return; }
      found := false;
      assert section == "" ==> lines[0..] == lines;
      ghost var body := lines[next..];
      while !found
        invariant Valid()
        invariant GetIn(body, key, max) == if found then Just(value) else GetIn(lines[next..], key, max)
        decreases |lines| - next, if found then 0 else 1
      {
        if next < |lines| { FitsBuffer(next); }
        var ok, line := Read(BUFFER);
        if !ok || StartsSection(line) { return; }
        assert lines[next - 1..][1..] == lines[next..];
        if IsEntry(line, key) {
          HasSeparator(line, key);
          found, value := true, ReadValue(ValueText(line), max);
        }
      }
    }

    lemma HasSeparator(l: string, key: string)
      requires NamesKey(l, key)
      ensures Separator(SkipLeading(l)) < |SkipLeading(l)|
    {
    }

    /** The first loop of `ini_puts`: lines are copied up to the heading, it included unless it is to go. */
    method CopyToSection(section: string, erase: bool) returns (found: bool, ghost h: nat)
      requires Valid() && next == marked == cached == 0
      modifies this
      ensures Valid() && h <= |lines| && FirstHeading(lines, section, h) && found == (h < |lines|)
      ensures found ==> next == h + 1 && cached == if erase then h else h + 1
      ensures !found ==> next == cached == |lines| && (marked < cached || lines == [])
      ensures Copied() == old(written) + lines[..cached]
    {
      hide Join, Offset, IsSection, TextLine, TextFile;
      found, h := false, 0;
      while !found
        invariant Valid() && next == (if found then h + 1 else h) && h <= |lines|
        invariant cached == (if found && erase then h else next)
        invariant forall k :: 0 <= k < h ==> !IsSection(lines[k], section)
        invariant found ==> h < |lines| && IsSection(lines[h], section)
        invariant !found ==> marked < cached || cached == 0
        invariant Copied() == old(written) + lines[..cached]
        decreases |lines| - h, if found then 0 else 1
      {
        if next < |lines| { FitsBuffer(next); }
        var ok, line := Read(BUFFER);
        if !ok { return; }
        found := IsSection(line, section);
        if !found || !erase {
          assert lines[..cached + 1] == lines[..cached] + [line];
          Keep(line);
        }
        if !found { h := h + 1; }
      }
    }

    /** The second loop of `ini_puts` for a key: lines are copied up to the entry or the next heading. */
    method CopyToSite(key: string) returns (ended: bool, last: string)
      requires Valid() && next == marked == cached
      modifies this
      ensures Valid() && old(next) <= cached && FirstSite(lines[old(next)..], key, cached - old(next))
      ensures ended == (cached == |lines|) && next == (if ended then cached else cached + 1)
      ensures !ended ==> last == lines[cached]
      ensures marked < cached <==> old(next) < cached
      ensures Copied() == old(written) + lines[old(next)..cached]
    {
      hide Join, Offset, StartsSection, NamesKey, TextLine, TextFile;
      ghost var b := next;
      last := "";
      assert lines[b..b] == [];
      while true
        invariant Valid() && b <= next == cached
        invariant forall k :: b <= k < next ==> !StartsSection(lines[k]) && !NamesKey(lines[k], key)
        invariant b <= marked && (marked < cached || next == b)
        invariant Copied() == old(written) + lines[b..cached]
        decreases |lines| - next
      {
        if next < |lines| { FitsBuffer(next); }
        var ok, line := Read(BUFFER);
        if !ok { return true, ""; }
        if NamesKey(line, key) || StartsSection(line) { return false, line; }
        assert lines[b..cached + 1] == lines[b..cached] + [line];
        Keep(line);
      }
    }

    /** The second loop of `ini_puts` without a key: lines are passed over up to the next heading. */
    method SkipEntries() returns (ended: bool)
      requires Valid() && next == marked == cached
      modifies `rpos, `next, `mark, `marked, `cached
      ensures Valid() && old(next) <= cached == marked && NextHeading(lines[old(next)..], cached - old(next))
      ensures ended == (cached == |lines|) && next == (if ended then cached else cached + 1)
    {
      hide Join, Offset, StartsSection, TextLine, TextFile;
      ghost var b := next;
      while true
        invariant Valid() && b <= next == cached == marked
        invariant forall k :: b <= k < next ==> !StartsSection(lines[k])
        decreases |lines| - next
      {
        if next < |lines| { FitsBuffer(next); }
        var ok, line := Read(BUFFER);
        if !ok { return true; }
        if StartsSection(line) { return false; }
        Tell();
      }
    }

    /** The last loop of `ini_puts`: the rest of the file. */
    method CopyRest(anything: bool)
      requires Valid() && cached == next
      modifies this
      ensures Valid() && written == old(Copied()) + lines[old(next)..]
    {
      hide Join, Offset, TextLine, TextFile;
      ghost var b, before := next, Copied();
      assert lines[b..b] == [];
      var ok := true;
      while ok
        invariant Valid() && b <= next == cached && Copied() == before + lines[b..next]
        invariant !ok ==> next == |lines|
        decreases |lines| - next, if ok then 1 else 0
      {
        if next < |lines| { FitsBuffer(next); }
        var line;
        ok, line := Read(BUFFER);
        if ok {
          assert lines[b..cached + 1] == lines[b..cached] + [line];
          Keep(line);
        }
      }
      var _ := CacheFlush(anything);
    }

    /** The end of `ini_puts` once the place is found: the key, then the line found there unless it is the old entry. */
    method WriteAtSite(key: string, value: Maybe, keepLast: bool, anything: bool)
      requires Valid() && cached + 1 == next
      modifies this
      ensures Valid()
      ensures written == old(Copied()) + NewKey(key, value) + lines[if keepLast then old(cached) else old(cached) + 1..]
    {
      hide Join, Offset, TextLine, TextFile, KeyLine;
      ghost var i := cached;
      var _ := CacheFlush(anything);
      if value.Just? { Write(KeyLine(key, value.text)); }
      ghost var put := written;
      FitsBuffer(i);
      var _, line := Read(BUFFER);
      if keepLast {
        var _ := CacheAccum(line);
        assert lines[i..i + 1] + lines[i + 1..] == lines[i..];
      } else {
        Tell();
      }
      CopyRest(anything);
      assert put == old(Copied()) + NewKey(key, value);
    }

    /** The end of the file was reached without the entry: a blank line when the last one looks unfinished, and the key. */
    method WriteAtEnd(section: string, heading: bool, key: string, value: Maybe, anything: bool)
      requires Valid() && cached == |lines|
      modifies this
      ensures Valid()
      ensures heading ==>
        written == old(Copied()) + NewSection(section, key, value, !anything && old(marked) == old(cached))
      ensures !heading ==>
        written == old(Copied()) + (Gap(!anything && old(marked) == old(cached), value) + NewKey(key, value))
    {
      hide Join, Offset, TextLine, TextFile, KeyLine, SectionLine;
      var flag := CacheFlush(anything);
      if value.Just? {
        if !flag { Write("\n"); }
        if heading { Write(SectionLine(section)); }
        Write(KeyLine(key, value.text));
      }
    }

    /** The rewriting part of `ini_puts` with a key. */
    method PutEntry(section: string, key: string, value: Maybe, anything: bool)
      requires Valid() && next == marked == cached == 0 && written == []
      modifies this
      ensures Valid() && written == Put(lines, section, key, value, !anything)
    {
      hide Join, Offset, TextLine, TextFile, KeyLine, SectionLine, StartsSection, NamesKey, IsSection, PutIn, PutAfter, NewKey;
      if section != "" {
        var found, h := CopyToSection(section, false);
        PutAfterAt(lines, section, key, value, !anything, !anything, h);
        if !found {
          assert Copied() == lines;
          WriteAtEnd(section, true, key, value, anything);
          return;
        }
      }
      var _ := CacheFlush(anything);
      PutBehind(key, value, anything);
    }

    /** The part of `ini_puts` behind the heading. */
    method PutBehind(key: string, value: Maybe, anything: bool)
      requires Valid() && next == marked == cached
      modifies this
      ensures Valid() && written == old(written) + PutIn(lines[old(next)..], key, value, !anything)
    {
      hide Join, Offset, TextLine, TextFile, KeyLine, SectionLine, StartsSection, NamesKey, PutIn, NewKey, FirstSite;
      ghost var b, before := next, written;
      var ended, last := CopyToSite(key);
      ghost var i := cached;
      PutFromSite(lines, b, i, key, value, !anything, before);
      if ended {
        WriteAtEnd("", false, key, value, anything);
      } else {
        WriteAtSite(key, value, StartsSection(last), anything);
      }
    }

    /** The update of the lines from `b` on, put together from the site's line `i`. */
    static lemma PutFromSite(lines: seq<string>, b: nat, i: nat, key: string, value: Maybe, gap: bool, before: seq<string>)
      requires b <= i <= |lines| && FirstSite(lines[b..], key, i - b)
      ensures i == |lines| ==>
        (before + lines[b..i]) + (Gap(gap && i == b, value) + NewKey(key, value)) == before + PutIn(lines[b..], key, value, gap)
      ensures i < |lines| ==>
        before + lines[b..i] + NewKey(key, value) + lines[if StartsSection(lines[i]) then i else i + 1..]
        == before + PutIn(lines[b..], key, value, gap)
    {
      hide StartsSection, NamesKey, PutIn, NewKey, FirstSite, Gap;
      PutInAt(lines[b..], key, value, gap, i - b);
      assert lines[b..][..i - b] == lines[b..i];
      if i == |lines| {
        Assembled(before, lines[b..i], Gap(gap && i == b, value) + NewKey(key, value));
      } else {
        assert lines[b..][i - b] == lines[i];
        var rest := lines[if StartsSection(lines[i]) then i else i + 1..];
        assert lines[b..][i - b..] == lines[i..] && lines[b..][i - b + 1..] == lines[i + 1..];
        assert before + lines[b..i] + NewKey(key, value) + rest == before + (lines[b..i] + (NewKey(key, value) + rest));
      }
    }

    static lemma Assembled(a: seq<string>, b: seq<string>, c: seq<string>)
      ensures (a + b) + c == a + (b + c)
    {
    }

    /** `ini_puts` without a key. */
    method EraseSection(section: string, anything: bool)
      requires Valid() && next == marked == cached == 0 && written == []
      modifies this
      ensures Valid() && written == Erase(lines, section)
    {
      hide Join, Offset, TextLine, TextFile, StartsSection, IsSection, EraseNamed, DropEntries, FirstHeading, NextHeading;
      ghost var h := 0;
      if section != "" {
        var found, g := CopyToSection(section, true);
        h := g;
        EraseAt(lines, section, h);
        if !found {
          var _ := CacheFlush(anything);
          assert written == [] + lines[..|lines|] == lines;
          return;
        }
      }
      var _ := CacheFlush(anything);
      EraseBehind(anything);
      if section == "" && lines != [] { assert lines[0..] == lines; }
    }

    /** The next line and the entries behind it are passed over, the rest is copied. */
    method EraseBehind(anything: bool)
      requires Valid() && next == marked == cached
      modifies this
      ensures Valid()
      ensures written == old(written) + (if old(next) == |lines| then [] else DropEntries(lines[old(next) + 1..]))
    {
      hide Join, Offset, TextLine, TextFile, StartsSection, DropEntries, NextHeading;
      ghost var before := written;
      if next < |lines| { FitsBuffer(next); }
      var _, _ := Read(BUFFER);
      Tell();
      ghost var b := next;
      var ended := SkipEntries();
      DropAt(lines[b..], cached - b);
      assert lines[b..][cached - b..] == lines[cached..];
      if ended {
        var _ := CacheFlush(anything);
      } else {
        WriteAtSite("", Nothing, true, anything);
      }
      assert written == before + DropEntries(lines[b..]);
    }

    /** `ini_puts`: the content of the file afterwards. `anything` is what the flag of an empty cache happens to be. */
    method Puts(section: string, key: Maybe, value: Maybe, anything: bool) returns (content: string)
      requires Valid() && next == marked == cached == 0 && written == []
      modifies this
      ensures content == Join(Update(lines, section, key, value, !anything))
    {
      hide Join, Offset, TextLine, TextFile, Put, Get, Erase;
      if key.Just? && value.Just? {
        var found, present := GetKeyString(section, key.text, BUFFER);
        if found && present == value.text { return text; }
        rpos, next := mark, marked;
      }
      if key.Just? {
        PutEntry(section, key.text, value, anything);
      } else {
        EraseSection(section, anything);
      }
      content := out;
    }

    /** `ini_gets`: the entry's value, or the default cut to the buffer. */
    method Gets(section: string, key: string, default: string, max: nat) returns (value: string)
      requires Valid() && next == 0 && max > 0
      modifies `rpos, `next
      ensures var entry := Get(lines, section, key, max);
        value == if entry.Just? then entry.text else default[..Min(|default|, max - 1)]
    {
      var found, read := GetKeyString(section, key, max);
      value := if found then read else SaveCopy(default, max, None);
    }
  }

  /** The line `writekey` composes in the buffer, which it never overruns. */
  method ComposeKey(buffer: array<char>, key: string, value: string)
    requires buffer.Length == BUFFER && '\0' !in value
    modifies buffer
    ensures var l := KeyLine(key, value);
      |l| < BUFFER && buffer[..|l|] == l && buffer[|l|] == '\0'
  {
    hide SaveCopy, QuoteFor, StoredAt, KeyLine;
    var p := ComposeName(buffer, key);
    ghost var front := buffer[..p];
    ComposeValue(buffer, p, value);
    ghost var behind := SaveCopy(value, BUFFER - p - 2, QuoteFor(value)) + "\n";
    StoredIsLine(buffer[..], front, behind);
    KeyLineParts(key, value);
    assert KeyLine(key, value) == front + behind;
  }

  lemma KeyLineParts(key: string, value: string)
    ensures KeyLine(key, value) == (key[..Min(|key|, BUFFER - 4)] + "=") + (SaveCopy(value, ValueRoom(key), QuoteFor(value)) + "\n")
  {
    hide SaveCopy, QuoteFor;
  }

  /** The key and the separator. */
  method ComposeName(buffer: array<char>, key: string) returns (p: nat)
    requires buffer.Length == BUFFER
    modifies buffer
    ensures p == Min(|key|, BUFFER - 4) + 1 && buffer[..p] == key[..Min(|key|, BUFFER - 4)] + "="
  {
    hide Escape, Unescape;
    SaveStrncpy(buffer, 0, key, BUFFER - 3, None);
    p := Min(|key|, BUFFER - 4);
    assert buffer[..p] == key[..Min(|key|, BUFFER - 4)];
    buffer[p] := '=';
    p := p + 1;
  }

  predicate StoredAt(text: string, p: nat, t: string) {
    p + |t| < |text| && text[p..p + |t|] == t && text[p + |t|] == '\0'
  }

  lemma StoredIsLine(text: string, front: string, t: string)
    requires StoredAt(text, |front|, t) && text[..|front|] == front
    ensures |front + t| < |text| && text[..|front + t|] == front + t && text[|front + t|] == '\0'
  {
  }

  /** The value and the end of the line behind `p` characters. */
  method ComposeValue(buffer: array<char>, p: nat, value: string)
    requires buffer.Length == BUFFER && '\0' !in value && p <= BUFFER - 3
    modifies buffer
    ensures buffer[..p] == old(buffer[..p])
    ensures StoredAt(buffer[..], p, SaveCopy(value, BUFFER - p - 2, QuoteFor(value)) + "\n")
  {
    hide SaveCopy, NeedsQuotes;
    var option := CheckEnquote(value);
    SaveStrncpy(buffer, p, value, BUFFER - p - 2, option);
    ghost var stored := SaveCopy(value, BUFFER - p - 2, option);
    StoredAddsNone(value, BUFFER - p - 2, '\0');
    assert forall k :: p <= k < p + |stored| ==> buffer[k] == buffer[p..p + |stored|][k - p];
    var q := EndOfString(buffer, p, stored);
    buffer[q] := '\n';
    buffer[q + 1] := '\0';
    assert buffer[..][p..q + 1] == stored + "\n";
  }

  /** `strrchr` for the terminating zero of the string stored at `at`. */
  method EndOfString(buffer: array<char>, at: nat, ghost t: string) returns (p: nat)
    requires at + |t| < buffer.Length && buffer[at + |t|] == '\0'
    requires forall k :: at <= k < at + |t| ==> buffer[k] == t[k - at] && buffer[k] != '\0'
    ensures p == at + |t|
  {
    p := at;
    while buffer[p] != '\0'
      invariant at <= p <= at + |t|
      decreases at + |t| - p
    {
      p := p + 1;
    }
  }

  /** The line `writesection` composes in the buffer. */
  method ComposeSection(buffer: array<char>, section: string)
    requires buffer.Length == BUFFER
    modifies buffer
    ensures var l := SectionLine(section);
      |l| < BUFFER && buffer[..|l|] == l && buffer[|l|] == '\0'
  {
    hide Escape, Unescape;
    buffer[0] := '[';
    SaveStrncpy(buffer, 1, section, BUFFER - 4, None);
    ghost var name := SaveCopy(section, BUFFER - 4, None);
    var p := 1 + Min(|section|, BUFFER - 5);
    assert buffer[0] == buffer[..1][0];
    assert buffer[..p] == "[" + name;
    buffer[p] := ']';
    buffer[p + 1] := '\n';
    buffer[p + 2] := '\0';
    assert buffer[..p + 2] == "[" + name + "]\n";
  }
}
