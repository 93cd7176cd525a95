/** What updates of an INI file do to it: the one place they touch, removal, erasing, repeating, numbers. */
module IniUpdates {
  import opened FixedWidth
  import opened IniText
  import opened IniNumber
  import opened IniStore

  // ---------------------------------------------------------------- one line

  /** `now` is `lines` with `gone` lines at `at` replaced by `added`. */
  predicate Spliced(lines: seq<string>, at: nat, gone: nat, added: seq<string>, now: seq<string>) {
    at + gone <= |lines| && now == lines[..at] + added + lines[at + gone..]
  }

  lemma SplicedBehind(lines: seq<string>, at: nat, gone: nat, added: seq<string>, now: seq<string>)
    requires lines != [] && Spliced(lines[1..], at, gone, added, now)
    ensures Spliced(lines, at + 1, gone, added, [lines[0]] + now)
    ensures gone > 0 ==> at < |lines[1..]| && lines[1..][at] == lines[at + 1]
  {
    assert lines[..at + 1] == [lines[0]] + lines[1..][..at];
    assert lines[at + 1 + gone..] == lines[1..][at + gone..];
  }

  /** None of the first `n` lines is a heading or names the key. */
  predicate Passed(lines: seq<string>, key: string, n: nat) {
    n <= |lines| && forall k :: 0 <= k < n ==> !NamesKey(lines[k], key) && !StartsSection(lines[k])
  }

  lemma PassedBehind(lines: seq<string>, key: string, n: nat)
    requires lines != [] && Passed(lines[1..], key, n) && !NamesKey(lines[0], key) && !StartsSection(lines[0])
    ensures Passed(lines, key, n + 1)
  {
    hide NamesKey, StartsSection;
    forall k | 0 <= k < n + 1 ensures !NamesKey(lines[k], key) && !StartsSection(lines[k]) {
      if k > 0 { assert lines[k] == lines[1..][k - 1]; }
    }
  }

  /** Inside a section: at most one line goes, the first entry of the key; only the new entry comes. */
  lemma {:induction false} PutInIsLocal(lines: seq<string>, key: string, value: Maybe, gap: bool)
    returns (at: nat, gone: nat, added: seq<string>)
    ensures Spliced(lines, at, gone, added, PutIn(lines, key, value, gap)) && gone <= 1
    ensures gone == 1 ==> NamesKey(lines[at], key) && !StartsSection(lines[at])
    ensures gone == 0 && at < |lines| ==> StartsSection(lines[at])
    ensures Passed(lines, key, at)
    ensures added == NewKey(key, value) || (at == |lines| && value.Just? && added == ["\n"] + NewKey(key, value))
    decreases |lines|, 1
  {
    hide KeyLine, StartsSection, NamesKey;
    at, gone, added := 0, 0, NewKey(key, value);
    if lines == [] {
      if gap && value.Just? { added := ["\n"] + added; }
    } else if !StartsSection(lines[0]) {
      if NamesKey(lines[0], key) {
        gone := 1;
      } else {
        at, gone, added := PutInIsLocalBehind(lines, key, value, gap);
      }
    }
  }

  lemma {:induction false} PutInIsLocalBehind(lines: seq<string>, key: string, value: Maybe, gap: bool)
    returns (at: nat, gone: nat, added: seq<string>)
    requires lines != [] && !StartsSection(lines[0]) && !NamesKey(lines[0], key)
    ensures Spliced(lines, at, gone, added, PutIn(lines, key, value, gap)) && gone <= 1
    ensures gone == 1 ==> NamesKey(lines[at], key) && !StartsSection(lines[at])
    ensures gone == 0 && at < |lines| ==> StartsSection(lines[at])
    ensures Passed(lines, key, at)
    ensures added == NewKey(key, value) || (at == |lines| && value.Just? && added == ["\n"] + NewKey(key, value))
    decreases |lines|, 0
  {
    hide KeyLine, StartsSection, NamesKey, Passed;
    var i, d, a := PutInIsLocal(lines[1..], key, value, false);
    SplicedBehind(lines, i, d, a, PutIn(lines[1..], key, value, false));
    PassedBehind(lines, key, i);
    at, gone, added := i + 1, d, a;
  }

  /** The new entry, at the end possibly behind a blank line and the heading of its section. */
  predicate NewText(added: seq<string>, section: string, key: string, value: Maybe, atEnd: bool) {
    (value.Nothing? ==> added == []) &&
    (value.Just? ==>
       added == NewKey(key, value) ||
       (atEnd && (added == ["\n"] + NewKey(key, value) ||
                  added == [SectionLine(section)] + NewKey(key, value) ||
                  added == ["\n", SectionLine(section)] + NewKey(key, value))))
  }

  /** In a file: everything before and after one place stays, and at that place at most one line goes. */
  lemma PutIsLocal(lines: seq<string>, section: string, key: string, value: Maybe, stray: bool)
    returns (at: nat, gone: nat, added: seq<string>)
    ensures Spliced(lines, at, gone, added, Put(lines, section, key, value, stray)) && gone <= 1
    ensures gone == 1 ==> NamesKey(lines[at], key) && !StartsSection(lines[at])
    ensures NewText(added, section, key, value, at == |lines|)
  {
    hide PutIn, PutAfter, SectionLine, KeyLine, NamesKey, StartsSection;
    if section == "" {
      at, gone, added := PutInIsLocal(lines, key, value, stray);
    } else {
      at, gone, added := PutAfterIsLocal(lines, section, key, value, stray, stray);
    }
  }

  lemma {:induction false} PutAfterIsLocal(lines: seq<string>, section: string, key: string, value: Maybe,
                                           stray: bool, gap: bool)
    returns (at: nat, gone: nat, added: seq<string>)
    ensures Spliced(lines, at, gone, added, PutAfter(lines, section, key, value, stray, gap)) && gone <= 1
    ensures gone == 1 ==> NamesKey(lines[at], key) && !StartsSection(lines[at])
    ensures NewText(added, section, key, value, at == |lines|)
    decreases |lines|, 1
  {
    hide KeyLine, SectionLine, StartsSection, NamesKey, IsSection, PutIn;
    if lines == [] {
      at, gone, added := 0, 0, PutAfter(lines, section, key, value, stray, gap);
    } else {
      at, gone, added := PutAfterIsLocalBehind(lines, section, key, value, stray, gap);
    }
  }

  lemma {:induction false} PutAfterIsLocalBehind(lines: seq<string>, section: string, key: string, value: Maybe,
                                                 stray: bool, gap: bool)
    returns (at: nat, gone: nat, added: seq<string>)
    requires lines != []
    ensures Spliced(lines, at, gone, added, PutAfter(lines, section, key, value, stray, gap)) && gone <= 1
    ensures gone == 1 ==> NamesKey(lines[at], key) && !StartsSection(lines[at])
    ensures NewText(added, section, key, value, at == |lines|)
    decreases |lines|, 0
  {
    hide KeyLine, SectionLine, StartsSection, NamesKey, IsSection, PutIn, Passed, NewKey, Spliced, NewText;
    var i, d, a;
    var rest := PutAfter(lines, section, key, value, stray, gap)[1..];
    if IsSection(lines[0], section) {
      i, d, a := PutInIsLocal(lines[1..], key, value, stray);
      assert rest == PutIn(lines[1..], key, value, stray);
      InnerIsNewText(a, section, key, value, i == |lines[1..]|);
    } else {
      i, d, a := PutAfterIsLocal(lines[1..], section, key, value, stray, false);
      assert rest == PutAfter(lines[1..], section, key, value, stray, false);
    }
    SplicedBehind(lines, i, d, a, rest);
    at, gone, added := i + 1, d, a;
  }

  lemma InnerIsNewText(added: seq<string>, section: string, key: string, value: Maybe, atEnd: bool)
    requires added == NewKey(key, value) || (atEnd && value.Just? && added == ["\n"] + NewKey(key, value))
    ensures NewText(added, section, key, value, atEnd)
  {
  }

  /** Updates keep a file of terminated lines that fit the buffer. */
  lemma PutKeepsText(lines: seq<string>, section: string, key: string, value: string, stray: bool)
    requires TextFile(lines) && PlainSection(section) && PlainKey(key) && Printable(value)
    ensures TextFile(Put(lines, section, key, Just(value), stray))
    ensures TextFile(Put(lines, section, key, Nothing, stray))
  {
    hide TextLine, PlainKey, PlainSection, Printable, PutAfter, PutIn, KeyLine, SectionLine;
    BlankLine();
    KeyLineIsText(key, value);
    SectionLineOpens(section, section);
    var i, d, a := PutIsLocal(lines, section, key, Just(value), stray);
    var j, e, b := PutIsLocal(lines, section, key, Nothing, stray);
  }

  // ---------------------------------------------------------------- removal

  /** The entries of a key ahead of the next heading. */
  function EntriesOf(lines: seq<string>, key: string): nat {
    if lines == [] || StartsSection(lines[0]) then 0
    else (if IsEntry(lines[0], key) then 1 else 0) + EntriesOf(lines[1..], key)
  }

  lemma {:induction false} NoneIsMissing(lines: seq<string>, key: string, max: nat)
    requires max > 0
    ensures GetIn(lines, key, max) == Nothing <==> EntriesOf(lines, key) == 0
    decreases |lines|
  {
    hide ReadValue, StartsSection, IsEntry, ValueText;
    if lines != [] && !StartsSection(lines[0]) { NoneIsMissing(lines[1..], key, max); }
  }

  lemma {:induction false} RemovesOne(lines: seq<string>, key: string, gap: bool)
    requires PlainKey(key)
    ensures EntriesOf(lines, key) > 0 ==> EntriesOf(PutIn(lines, key, Nothing, gap), key) == EntriesOf(lines, key) - 1
    ensures EntriesOf(lines, key) == 0 ==> PutIn(lines, key, Nothing, gap) == lines
    decreases |lines|
  {
    hide PlainKey, StartsSection, NamesKey, Commented;
    if lines != [] && !StartsSection(lines[0]) {
      if NamesKey(lines[0], key) {
        PlainKeyIsEntry(lines[0], key);
        assert PutIn(lines, key, Nothing, gap) == lines[1..];
      } else {
        RemovesOne(lines[1..], key, false);
        assert PutIn(lines, key, Nothing, gap)[1..] == PutIn(lines[1..], key, Nothing, false);
      }
    }
  }

  /** Removal takes the first entry: the setting is gone exactly if it was not repeated in its section. */
  lemma RemovedIff(lines: seq<string>, section: string, key: string, stray: bool, max: nat)
    requires PlainSection(section) && PlainKey(key) && max > 0
    ensures Get(Put(lines, section, key, Nothing, stray), section, key, max) == Nothing
       <==> EntriesOf(Body(lines, section), key) <= 1
  {
    hide PutAfter, PutIn, GetIn, AfterHeading, PlainKey, PlainSection, EntriesOf;
    var gap := stray;
    if section != "" { gap := PutAfterBody(lines, section, key, Nothing, stray, stray, section); }
    var body := Body(lines, section);
    RemovesOne(body, key, gap);
    NoneIsMissing(PutIn(body, key, Nothing, gap), key, max);
  }

  // ---------------------------------------------------------------- erasing a section

  lemma {:induction false} DropKeepsHeadings(lines: seq<string>, other: string)
    ensures AfterHeading(DropEntries(lines), other) == AfterHeading(lines, other)
    decreases |lines|
  {
    hide IsSection, StartsSection;
    if lines != [] && !StartsSection(lines[0]) {
      NotStartingIsNoSection(lines[0], other);
      DropKeepsHeadings(lines[1..], other);
    }
  }

  lemma {:induction false} DropLeavesNoEntry(lines: seq<string>, key: string, max: nat)
    requires max > 0
    ensures GetIn(DropEntries(lines), key, max) == Nothing
    decreases |lines|
  {
    hide StartsSection, IsEntry, ReadValue, ValueText;
    if lines != [] && !StartsSection(lines[0]) { DropLeavesNoEntry(lines[1..], key, max); }
  }

  lemma {:induction false} EraseKeepsFront(lines: seq<string>, section: string, key: string, max: nat)
    requires max > 0
    ensures GetIn(EraseNamed(lines, section), key, max) == GetIn(lines, key, max)
    decreases |lines|
  {
    hide StartsSection, IsEntry, ReadValue, ValueText, IndexOf, SkipLeading, SameName;
    if lines != [] {
      if IsSection(lines[0], section) {
        DropLeavesNoEntry(lines[1..], key, max);
      } else {
        EraseKeepsFront(lines[1..], section, key, max);
        assert EraseNamed(lines, section)[1..] == EraseNamed(lines[1..], section);
      }
    }
  }

  /** Settings of every other section survive, those without a section included. */
  lemma EraseKeepsOthers(lines: seq<string>, section: string, other: string, key: string, max: nat)
    requires section != "" && !SameName(section, other) && max > 0
    ensures Get(Erase(lines, section), other, key, max) == Get(lines, other, key, max)
  {
    hide GetIn, AfterHeading, EraseNamed, SameName;
    if other == "" {
      EraseKeepsFront(lines, section, key, max);
    } else {
      EraseKeepsBody(lines, section, other, key, max);
    }
  }

  lemma {:induction false} EraseKeepsBody(lines: seq<string>, section: string, other: string, key: string, max: nat)
    requires !SameName(section, other) && max > 0
    ensures GetIn(AfterHeading(EraseNamed(lines, section), other), key, max) == GetIn(AfterHeading(lines, other), key, max)
    decreases |lines|
  {
    hide StartsSection, IsSection, GetIn, SameName;
    if lines != [] {
      if IsSection(lines[0], section) {
        if IsSection(lines[0], other) { OneSectionPerLine(lines[0], section, other); }
        DropKeepsHeadings(lines[1..], other);
      } else {
        assert EraseNamed(lines, section)[1..] == EraseNamed(lines[1..], section);
        if IsSection(lines[0], other) {
          EraseKeepsFront(lines[1..], section, key, max);
        } else {
          EraseKeepsBody(lines[1..], section, other, key, max);
        }
      }
    }
  }

  /** What the erased name opens afterwards is what its second heading opened before. */
  lemma {:induction false} ErasedBody(lines: seq<string>, section: string)
    requires section != ""
    ensures AfterHeading(Erase(lines, section), section) == AfterHeading(AfterHeading(lines, section), section)
    decreases |lines|
  {
    hide StartsSection, IsSection;
    if lines != [] {
      if IsSection(lines[0], section) {
        DropKeepsHeadings(lines[1..], section);
      } else {
        ErasedBody(lines[1..], section);
        assert EraseNamed(lines, section)[1..] == EraseNamed(lines[1..], section);
      }
    }
  }

  /** Without a section name only the entries ahead of the first heading go, unless a heading comes first. */
  lemma EraseUnnamedIff(lines: seq<string>)
    ensures Erase(lines, "") == DropEntries(lines) <==> lines == [] || !StartsSection(lines[0])
  {
    hide StartsSection;
    if lines != [] { assert |DropEntries(lines[1..])| <= |lines| - 1; }
  }

  /** A file that starts with a heading loses that whole section instead. */
  lemma EraseUnnamedTakesSection(section: string, key: string, value: string, max: nat)
    requires PlainSection(section) && section != "" && PlainKey(key) && Printable(value) && ReadsBack(value)
    requires FitsQuoted(value, ValueRoom(key)) && |value| < max
    ensures var lines := [SectionLine(section), KeyLine(key, value)];
      Get(lines, section, key, max) == Just(value) && Erase(lines, "") == []
  {
    hide SectionLine, KeyLine, StartsSection, IsSection, IsEntry, ValueText, ReadValue, SaveCopy, PlainKey, PlainSection, Printable;
    var lines := [SectionLine(section), KeyLine(key, value)];
    var tail := [KeyLine(key, value)];
    assert lines[1..] == tail && tail[1..] == [];
    SectionLineOpens(section, section);
    KeyLineIsEntry(key, value);
    KeyLineNames(key, value, key);
    ReadsBackIff(value, ValueRoom(key), max);
  }

  // ---------------------------------------------------------------- the whole update

  lemma {:induction false} UnescapeRoom(t: string, wide: int, narrow: int)
    requires |t| <= wide && 0 <= narrow && |Unescape(t, wide)| <= narrow
    ensures Unescape(t, narrow) == Unescape(t, wide)
    decreases |t|
  {
    if t != "" {
      if (t[0] == '"' || t[0] == '\\') && |t| > 1 && t[1] == '"' {
        UnescapeRoom(t[2..], wide - 1, narrow - 1);
      } else {
        UnescapeRoom(t[1..], wide - 1, narrow - 1);
      }
    }
  }

  lemma {:induction false} SkipShortens(s: string)
    ensures |SkipLeading(s)| <= |s|
    decreases |s|
  {
    if s != "" && Blank(s[0]) { SkipShortens(s[1..]); }
  }

  lemma {:induction false} StripShortens(s: string)
    ensures |StripTrailing(s)| <= |s|
    decreases |s|
  {
    if s != "" && Blank(s[|s| - 1]) { StripShortens(s[..|s| - 1]); }
  }

  /** A value that was read whole into the large buffer is read the same into any buffer it fits. */
  lemma ReadRoom(s: string, max: nat)
    requires |s| < BUFFER && max > |ReadValue(s, BUFFER)|
    ensures ReadValue(s, max) == ReadValue(s, BUFFER)
  {
    hide CommentStart, StripTrailing, SkipLeading, Unescape, Escape;
    SkipShortens(s);
    var u := SkipLeading(s);
    StripShortens(u[..CommentStart(u, false)]);
    var (t, q) := Clean(u);
    assert |t| <= |s|;
    if q == Dequote { UnescapeRoom(t, BUFFER - 1, max - 1); }
  }

  lemma {:induction false} GetRoom(lines: seq<string>, key: string, max: nat)
    requires TextFile(lines) && GetIn(lines, key, BUFFER).Just? && max > |GetIn(lines, key, BUFFER).text|
    ensures GetIn(lines, key, max) == GetIn(lines, key, BUFFER)
    decreases |lines|
  {
    hide ReadValue, StartsSection, Commented, SkipLeading, Separator, StripTrailing;
    assert TextLine(lines[0]);
    if IsEntry(lines[0], key) {
      SkipShortens(lines[0]);
      ReadRoom(ValueText(lines[0]), max);
    } else {
      GetRoom(lines[1..], key, max);
    }
  }

  lemma {:induction false} BodyIsText(lines: seq<string>, section: string)
    requires TextFile(lines)
    ensures TextFile(Body(lines, section))
    decreases |lines|
  {
    if section != "" && lines != [] && !IsSection(lines[0], section) { BodyIsText(lines[1..], section); }
  }

  /** After an update the reader gets the value, unless it was lost in quoting and not there before. */
  lemma UpdateReadsBack(lines: seq<string>, section: string, key: string, value: string, stray: bool, max: nat)
    requires TextFile(lines) && PlainSection(section) && PlainKey(key)
    requires Printable(value) && FitsQuoted(value, ValueRoom(key)) && |value| < max
    ensures Get(Update(lines, section, Just(key), Just(value), stray), section, key, max) == Just(value)
       <==> (ReadsBack(value) || Get(lines, section, key, BUFFER) == Just(value))
  {
    hide GetIn, Put, AfterHeading, PlainKey, PlainSection, FitsQuoted, ReadsBack, TextFile, Printable;
    if Get(lines, section, key, BUFFER) == Just(value) {
      BodyIsText(lines, section);
      GetRoom(Body(lines, section), key, max);
    } else {
      GetAfterPut(lines, section, key, value, stray, section, key, max);
    }
  }

  /** An entry put is found by the same put again, and replaced by the same line. */
  lemma {:induction false} PutInTwice(lines: seq<string>, key: string, value: string, gap: bool, gap': bool)
    requires PlainKey(key)
    ensures var once := PutIn(lines, key, Just(value), gap); PutIn(once, key, Just(value), gap') == once
    decreases |lines|
  {
    hide KeyLine, StartsSection, NamesKey, PlainKey;
    var l := KeyLine(key, value);
    KeyLineIsEntry(key, value);
    KeyLineNames(key, value, key);
    var once := PutIn(lines, key, Just(value), gap);
    if lines == [] {
      BlankLine();
      if gap {
        assert once[1..] == [l] && [l][1..] == [];
      } else {
        assert once == [l] && [l][1..] == [];
      }
    } else if StartsSection(lines[0]) {
      assert once[1..] == lines;
    } else if NamesKey(lines[0], key) {
      assert once[1..] == lines[1..];
    } else {
      PutInTwice(lines[1..], key, value, false, false);
      assert once[1..] == PutIn(lines[1..], key, Just(value), false);
    }
  }

  lemma {:induction false} PutAfterTwice(lines: seq<string>, section: string, key: string, value: string,
                                         stray: bool, gap: bool, stray': bool, gap': bool)
    requires PlainSection(section) && PlainKey(key)
    ensures var once := PutAfter(lines, section, key, Just(value), stray, gap);
      PutAfter(once, section, key, Just(value), stray', gap') == once
    decreases |lines|
  {
    hide KeyLine, SectionLine, IsSection, PutIn, PlainKey, PlainSection;
    var once := PutAfter(lines, section, key, Just(value), stray, gap);
    if lines == [] {
      BlankLine();
      SectionLineOpens(section, section);
      NewEntryTwice(key, value, stray');
      var head := [SectionLine(section)] + NewKey(key, Just(value));
      assert head[1..] == NewKey(key, Just(value));
      if gap { assert once[1..] == head; } else { assert once == head; }
    } else if IsSection(lines[0], section) {
      PutInTwice(lines[1..], key, value, stray, stray');
      assert once[1..] == PutIn(lines[1..], key, Just(value), stray);
    } else {
      PutAfterTwice(lines[1..], section, key, value, stray, false, stray', false);
      assert once[1..] == PutAfter(lines[1..], section, key, Just(value), stray, false);
    }
  }

  lemma NewEntryTwice(key: string, value: string, gap: bool)
    requires PlainKey(key)
    ensures PutIn(NewKey(key, Just(value)), key, Just(value), gap) == NewKey(key, Just(value))
  {
    hide KeyLine, PlainKey, StartsSection, NamesKey;
    PutInTwice([], key, value, false, gap);
    assert PutIn([], key, Just(value), false) == NewKey(key, Just(value));
  }

  /** A second identical update leaves the file alone, whether the value survives quoting or not. */
  lemma UpdateTwice(lines: seq<string>, section: string, key: string, value: string, stray: bool, stray': bool)
    requires PlainSection(section) && PlainKey(key)
    ensures var once := Update(lines, section, Just(key), Just(value), stray);
      Update(once, section, Just(key), Just(value), stray') == once
  {
    hide Get, PutIn, PutAfter, PlainKey, PlainSection;
    PutInTwice(lines, key, value, stray, stray');
    PutAfterTwice(lines, section, key, value, stray, stray, stray', stray');
  }

  /** `ini_putl` then `ini_getl`: every long comes back, whatever the file held. */
  lemma LongReadsBack(lines: seq<string>, section: string, key: string, v: int, stray: bool,
                                         default: int, hex: string -> int)
    requires TextFile(lines) && PlainSection(section) && PlainKey(key) && |key| <= BUFFER - 16 && IsLong(v)
    ensures var read := Get(Update(lines, section, Just(key), Just(Decimal(v)), stray), section, key, 64);
      read.Just? && LongOf(read.text, default, hex) == v
  {
    hide Get, Update, TextFile, Printable, ReadsBack, Decimal, LongOf, NeedsQuotes;
    DecimalIsPlain(v);
    UpdateReadsBack(lines, section, key, Decimal(v), stray, 64);
    DecimalReadsBack(v, default, hex);
  }
}
