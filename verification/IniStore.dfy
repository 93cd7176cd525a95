/** An INI file as lines: what a reader finds in it and what an update makes of it. */
module IniStore {
  import opened FixedWidth
  import opened IniText

  datatype Maybe = Nothing | Just(text: string)

  // ---------------------------------------------------------------- lines

  /** A whole line, terminated, that one read into the buffer takes. */
  predicate TextLine(l: string) {
    l != "" && |l| < BUFFER && l[|l| - 1] == '\n' && '\n' !in l[..|l| - 1]
  }

  predicate TextFile(lines: seq<string>) {
    forall l <- lines :: TextLine(l)
  }

  predicate StartsSection(l: string) {
    var s := SkipLeading(l);
    s != "" && s[0] == '['
  }

  predicate IsSection(l: string, section: string) {
    var s := SkipLeading(l);
    var ep := IndexOf(s, ']');
    StartsSection(l) && ep < |s| && SameName(s[1..ep], section)
  }

  predicate Commented(l: string) {
    var s := SkipLeading(l);
    s != "" && (s[0] == ';' || s[0] == '#')
  }

  /** Where the first `=`, or else the first `:`, stands; the length if there is neither. */
  function Separator(s: string): (k: nat)
    ensures k <= |s|
  {
    if IndexOf(s, '=') < |s| then IndexOf(s, '=') else IndexOf(s, ':')
  }

  predicate NamesKey(l: string, key: string) {
    var s := SkipLeading(l);
    var ep := Separator(s);
    ep < |s| && SameName(StripTrailing(s[..ep]), key)
  }

  /** What follows the separator. */
  function ValueText(l: string): string
    requires Separator(SkipLeading(l)) < |SkipLeading(l)|
  {
    SkipLeading(l)[Separator(SkipLeading(l)) + 1..]
  }

  predicate IsEntry(l: string, key: string) {
    !Commented(l) && NamesKey(l, key)
  }

  // ---------------------------------------------------------------- reading

  function GetIn(lines: seq<string>, key: string, max: nat): Maybe
    requires max > 0
  {
    if lines == [] || StartsSection(lines[0]) then Nothing
    else if IsEntry(lines[0], key) then Just(ReadValue(ValueText(lines[0]), max))
    else GetIn(lines[1..], key, max)
  }

  /** The lines behind the first heading of the section. */
  function AfterHeading(lines: seq<string>, section: string): seq<string> {
    if lines == [] then []
    else if IsSection(lines[0], section) then lines[1..]
    else AfterHeading(lines[1..], section)
  }

  function Body(lines: seq<string>, section: string): seq<string> {
    if section == "" then lines else AfterHeading(lines, section)
  }

  /** `getkeystring` with a key and no index. */
  function Get(lines: seq<string>, section: string, key: string, max: nat): Maybe
    requires max > 0
  {
    GetIn(Body(lines, section), key, max)
  }

  // ---------------------------------------------------------------- writing

  /** The room `writekey` leaves for the value. */
  function ValueRoom(key: string): (n: nat)
    ensures 0 < n < BUFFER - 2
  {
    BUFFER - (Min(|key|, BUFFER - 4) + 1) - 2
  }

  function KeyLine(key: string, value: string): string {
    key[..Min(|key|, BUFFER - 4)] + "=" + SaveCopy(value, ValueRoom(key), QuoteFor(value)) + "\n"
  }

  function SectionLine(section: string): string {
    "[" + section[..Min(|section|, BUFFER - 5)] + "]\n"
  }

  function NewKey(key: string, value: Maybe): seq<string> {
    if value.Just? then [KeyLine(key, value.text)] else []
  }

  /**
   * The update behind the heading. `gap` says that the end of the file would be met with an empty
   * cache that does not look like the end of a line: a blank line then precedes the new key.
   */
  function PutIn(lines: seq<string>, key: string, value: Maybe, gap: bool): seq<string> {
    if lines == [] then (if gap && value.Just? then ["\n"] else []) + NewKey(key, value)
    else if StartsSection(lines[0]) then NewKey(key, value) + lines
    else if NamesKey(lines[0], key) then NewKey(key, value) + lines[1..]
    else [lines[0]] + PutIn(lines[1..], key, value, false)
  }

  /** The update from a place before the heading; `gap` as above, `stray` for the place behind it. */
  function PutAfter(lines: seq<string>, section: string, key: string, value: Maybe, stray: bool, gap: bool)
    : seq<string>
  {
    if lines == [] then
      if value.Nothing? then [] else (if gap then ["\n"] else []) + [SectionLine(section)] + NewKey(key, value)
    else if IsSection(lines[0], section) then [lines[0]] + PutIn(lines[1..], key, value, stray)
    else [lines[0]] + PutAfter(lines[1..], section, key, value, stray, false)
  }

  /** An update with a key: the entry replaced, inserted, or removed when there is no value. */
  function Put(lines: seq<string>, section: string, key: string, value: Maybe, stray: bool): seq<string> {
    if section == "" then PutIn(lines, key, value, stray) else PutAfter(lines, section, key, value, stray, stray)
  }

  /** The lines from the next heading on. */
  function DropEntries(lines: seq<string>): (r: seq<string>)
    ensures |r| <= |lines|
  {
    if lines == [] || StartsSection(lines[0]) then lines else DropEntries(lines[1..])
  }

  function EraseNamed(lines: seq<string>, section: string): seq<string> {
    if lines == [] then []
    else if IsSection(lines[0], section) then DropEntries(lines[1..])
    else [lines[0]] + EraseNamed(lines[1..], section)
  }

  /** An update without a key: the section goes. With no section the first line goes whatever it is. */
  function Erase(lines: seq<string>, section: string): seq<string> {
    if section != "" then EraseNamed(lines, section)
    else if lines == [] then []
    else DropEntries(lines[1..])
  }

  /** `ini_puts` on an existing file; a value that is there already leaves the file alone. */
  function Update(lines: seq<string>, section: string, key: Maybe, value: Maybe, stray: bool): seq<string> {
    if key.Nothing? then Erase(lines, section)
    else if value.Just? && Get(lines, section, key.text, BUFFER) == value then lines
    else Put(lines, section, key.text, value, stray)
  }

  // ---------------------------------------------------------------- names

  /** A key that can be found again: no separator in it, no blank around it, no line marker before it. */
  predicate PlainKey(key: string) {
    Printable(key) && |key| <= BUFFER - 4 && '=' !in key &&
    (key != "" ==> key[0] != ' ' && key[0] != '[' && key[0] != ';' && key[0] != '#' && key[|key| - 1] != ' ')
  }

  predicate PlainSection(section: string) {
    Printable(section) && |section| <= BUFFER - 5 && ']' !in section
  }

  lemma SameNameSwaps(a: string, b: string, c: string)
    requires SameName(a, b)
    ensures SameName(b, a) && (SameName(a, c) <==> SameName(b, c)) && (SameName(c, a) <==> SameName(c, b))
  {
  }

  lemma {:induction false} FirstIndex(s: string, c: char, k: nat)
    requires k < |s| && s[k] == c && c !in s[..k]
    ensures IndexOf(s, c) == k
    decreases k
  {
    if k > 0 {
      assert s[..k][0] == s[0];
      assert s[1..][..k - 1] == s[..k][1..];
      FirstIndex(s[1..], c, k - 1);
    }
  }

  lemma SkipsNothing(s: string)
    requires s != "" ==> !Blank(s[0])
    ensures SkipLeading(s) == s
  {
  }

  lemma StripsNothing(s: string)
    requires s != "" ==> !Blank(s[|s| - 1])
    ensures StripTrailing(s) == s
  {
  }

  lemma {:induction false} StripKeepsStart(s: string)
    requires s != "" && !Blank(s[0])
    ensures StripTrailing(s) != "" && StripTrailing(s)[0] == s[0]
    decreases |s|
  {
    if Blank(s[|s| - 1]) { StripKeepsStart(s[..|s| - 1]); }
  }

  lemma {:induction false} SkipStops(s: string)
    ensures SkipLeading(s) != "" ==> !Blank(SkipLeading(s)[0])
    decreases |s|
  {
    if s != "" && Blank(s[0]) { SkipStops(s[1..]); }
  }

  /** A line that names a plain key is neither a comment nor a heading. */
  lemma PlainKeyIsEntry(l: string, key: string)
    requires PlainKey(key) && NamesKey(l, key)
    ensures IsEntry(l, key) && !StartsSection(l)
  {
    hide SkipLeading, StripTrailing, IndexOf;
    var s := SkipLeading(l);
    SkipStops(l);
    if s[0] == ';' || s[0] == '#' || s[0] == '[' {
      var name := s[..Separator(s)];
      SeparatorIsOne(s);
      assert name[0] == s[0];
      StripKeepsStart(name);
    }
  }

  lemma SeparatorIsOne(s: string)
    ensures Separator(s) < |s| ==> s[Separator(s)] == '=' || s[Separator(s)] == ':'
  {
  }

  lemma SameLineSameKey(l: string, a: string, b: string)
    requires NamesKey(l, a) && NamesKey(l, b)
    ensures SameName(a, b)
  {
    hide SkipLeading, StripTrailing, IndexOf;
    var s := SkipLeading(l);
    SameNameSwaps(StripTrailing(s[..Separator(s)]), a, b);
  }

  lemma SameLineSameSection(l: string, a: string, b: string)
    requires SameName(a, b)
    ensures IsSection(l, a) <==> IsSection(l, b)
  {
    hide SkipLeading, IndexOf;
    var s := SkipLeading(l);
    var ep := IndexOf(s, ']');
    if StartsSection(l) && ep < |s| { SameNameSwaps(a, b, s[1..ep]); }
  }

  lemma OneSectionPerLine(l: string, a: string, b: string)
    requires IsSection(l, a) && IsSection(l, b)
    ensures SameName(a, b)
  {
    hide SkipLeading, IndexOf;
    var s := SkipLeading(l);
    SameNameSwaps(s[1..IndexOf(s, ']')], a, b);
  }

  // ---------------------------------------------------------------- the lines an update writes

  lemma {:induction false} EscapeAddsNone(v: string, room: int, c: char)
    requires c !in v && c != '\\' && c != '"'
    ensures c !in Escape(v, room)
    decreases |v|
  {
    if v != "" && room > 0 { EscapeAddsNone(v[1..], room - if v[0] == '"' then 2 else 1, c); }
  }

  lemma StoredAddsNone(v: string, max: nat, c: char)
    requires c !in v && c != '\\' && c != '"' && max > 0
    ensures c !in SaveCopy(v, max, QuoteFor(v))
  {
    hide Escape, Unescape;
    EscapeAddsNone(v, max - 3, c);
  }

  lemma KeyLineIsText(key: string, value: string)
    requires PlainKey(key) && Printable(value)
    ensures TextLine(KeyLine(key, value))
  {
    hide SaveCopy;
    StoredAddsNone(value, ValueRoom(key), '\n');
    var l := KeyLine(key, value);
    var stored := SaveCopy(value, ValueRoom(key), QuoteFor(value));
    assert key[..Min(|key|, BUFFER - 4)] == key;
    assert l[..|l| - 1] == key + "=" + stored;
  }

  /** The line just written is an entry of its key, and its value is the stored text. */
  lemma KeyLineIsEntry(key: string, value: string)
    requires PlainKey(key)
    ensures var l := KeyLine(key, value);
      SkipLeading(l) == l && Separator(l) == |key| < |l| && l[..|key|] == key && !StartsSection(l) && !Commented(l) &&
      ValueText(l) == SaveCopy(value, ValueRoom(key), QuoteFor(value)) + "\n"
  {
    hide SaveCopy, StripTrailing, SkipLeading, IndexOf;
    var l := KeyLine(key, value);
    assert key[..Min(|key|, BUFFER - 4)] == key;
    assert l[0] == if key == "" then '=' else key[0];
    SkipsNothing(l);
    assert l[..|key|] == key;
    FirstIndex(l, '=', |key|);
    assert l[|key| + 1..] == SaveCopy(value, ValueRoom(key), QuoteFor(value)) + "\n";
  }

  lemma KeyLineNames(key: string, value: string, other: string)
    requires PlainKey(key)
    ensures IsEntry(KeyLine(key, value), other) <==> SameName(key, other)
  {
    hide SaveCopy, StripTrailing, SkipLeading, IndexOf, KeyLine, Separator;
    KeyLineIsEntry(key, value);
    StripsNothing(key);
  }

  lemma SectionLineOpens(section: string, other: string)
    requires PlainSection(section)
    ensures TextLine(SectionLine(section)) && StartsSection(SectionLine(section))
    ensures IsSection(SectionLine(section), other) <==> SameName(section, other)
  {
    hide SkipLeading, IndexOf;
    var l := SectionLine(section);
    assert section[..Min(|section|, BUFFER - 5)] == section;
    assert l[..|l| - 1] == "[" + section + "]";
    SkipsNothing(l);
    assert l[1..|section| + 1] == section;
    assert l[..|section| + 1] == "[" + section;
    FirstIndex(l, ']', |section| + 1);
  }

  /** Where a character that is not blank first stands, behind the leading blanks. */
  lemma {:induction false} SkipKeepsFirst(l: string, c: char)
    requires !Blank(c) && IndexOf(l, c) < |l|
    ensures |SkipLeading(l)| <= |l|
    ensures IndexOf(SkipLeading(l), c) == IndexOf(l, c) - (|l| - |SkipLeading(l)|) < |SkipLeading(l)|
    decreases |l|
  {
    if Blank(l[0]) { SkipKeepsFirst(l[1..], c); }
  }

  lemma {:induction false} StripIsPrefix(s: string)
    ensures |StripTrailing(s)| <= |s|
    ensures |StripTrailing(s)| == |s| && s != "" ==> !Blank(s[|s| - 1])
    decreases |s|
  {
    if s != "" && Blank(s[|s| - 1]) { StripIsPrefix(s[..|s| - 1]); }
  }

  lemma {:induction false} NotLater(s: string, c: char, k: nat)
    requires k < |s| && s[k] == c
    ensures IndexOf(s, c) <= k
  {
    if k > 0 && s[0] != c { NotLater(s[1..], c, k - 1); }
  }

  /** A name as long as the key leaves nothing skipped, cut off, or taken for the separator. */
  lemma NameIsWhole(key: string, value: string)
    requires Printable(key) && NamesKey(KeyLine(key, value), key)
    ensures |key| <= BUFFER - 4 && '=' !in key && (key != "" ==> key[0] != ' ' && key[|key| - 1] != ' ')
    ensures SkipLeading(KeyLine(key, value)) == KeyLine(key, value)
  {
    hide SaveCopy, SkipLeading, StripTrailing;
    var l := KeyLine(key, value);
    var s := SkipLeading(l);
    var m := Min(|key|, BUFFER - 4);
    NotLater(l, '=', m);
    SkipKeepsFirst(l, '=');
    var name := s[..Separator(s)];
    StripIsPrefix(name);
    SkipWhole(l);
    assert l[..|key|] == key;
  }

  lemma {:induction false} SkipWhole(l: string)
    ensures |SkipLeading(l)| == |l| ==> SkipLeading(l) == l && (l != "" ==> !Blank(l[0]))
    ensures |SkipLeading(l)| <= |l|
    decreases |l|
  {
    if l != "" && Blank(l[0]) { SkipWhole(l[1..]); }
  }

  /** Exactly the plain keys can be found again in the line that is written for them. */
  lemma KeyFoundIff(key: string, value: string)
    requires Printable(key)
    ensures IsEntry(KeyLine(key, value), key) && !StartsSection(KeyLine(key, value)) <==> PlainKey(key)
  {
    hide SaveCopy, SkipLeading, StripTrailing, IndexOf, Separator;
    if PlainKey(key) {
      KeyLineIsEntry(key, value);
      KeyLineNames(key, value, key);
    } else if IsEntry(KeyLine(key, value), key) {
      NameIsWhole(key, value);
      var l := KeyLine(key, value);
      assert key != "" ==> l[0] == key[0];
    }
  }

  /** And exactly the plain sections in their heading. */
  lemma SectionFoundIff(section: string)
    requires Printable(section)
    ensures IsSection(SectionLine(section), section) <==> PlainSection(section)
  {
    hide SkipLeading;
    var l := SectionLine(section);
    var m := Min(|section|, BUFFER - 5);
    if PlainSection(section) {
      SectionLineOpens(section, section);
    } else {
      SkipsNothing(l);
      NotLater(l, ']', m + 1);
    }
  }

  lemma BlankLine()
    ensures !StartsSection("\n") && TextLine("\n")
    ensures forall key :: !NamesKey("\n", key)
    ensures forall section :: !IsSection("\n", section)
  {
    assert "\n"[1..] == "";
    assert SkipLeading("\n") == "";
  }

  // ---------------------------------------------------------------- reading after writing

  /** The key just put is the one the reader meets. */
  lemma {:induction false} PutInFound(lines: seq<string>, key: string, value: string, gap: bool, max: nat)
    requires PlainKey(key) && max > 0
    ensures GetIn(PutIn(lines, key, Just(value), gap), key, max)
         == Just(ReadValue(SaveCopy(value, ValueRoom(key), QuoteFor(value)) + "\n", max))
    decreases |lines|
  {
    hide ReadValue, SaveCopy, KeyLine, StartsSection, Commented, NamesKey, Separator, SkipLeading, PlainKey, ValueText;
    var l := KeyLine(key, value);
    KeyLineIsEntry(key, value);
    KeyLineNames(key, value, key);
    var put := PutIn(lines, key, Just(value), gap);
    if lines == [] {
      BlankLine();
      if gap { assert put[1..] == [l]; }
    } else if StartsSection(lines[0]) || NamesKey(lines[0], key) {
      assert put[0] == l;
    } else {
      PutInFound(lines[1..], key, value, false, max);
      assert put[1..] == PutIn(lines[1..], key, Just(value), false);
    }
  }

  lemma {:induction false} PutInOthers(lines: seq<string>, key: string, value: Maybe, gap: bool, other: string, max: nat)
    requires PlainKey(key) && !SameName(key, other) && max > 0
    ensures GetIn(PutIn(lines, key, value, gap), other, max) == GetIn(lines, other, max)
    decreases |lines|
  {
    hide ReadValue, KeyLine, StartsSection, Commented, NamesKey, Separator, SkipLeading, PlainKey, ValueText, SameName;
    var put := PutIn(lines, key, value, gap);
    if value.Just? {
      KeyLineIsEntry(key, value.text);
      KeyLineNames(key, value.text, other);
    }
    if lines == [] {
      BlankLine();
      if value.Just? {
        var l := KeyLine(key, value.text);
        assert [l][1..] == [];
        if gap { assert put[1..] == [l]; }
      }
    } else if StartsSection(lines[0]) {
      if value.Just? { assert put[1..] == lines; } else { assert put == lines; }
    } else if NamesKey(lines[0], key) {
      PlainKeyIsEntry(lines[0], key);
      if NamesKey(lines[0], other) { SameLineSameKey(lines[0], key, other); }
      if value.Just? { assert put[1..] == lines[1..]; } else { assert put == lines[1..]; }
    } else {
      PutInOthers(lines[1..], key, value, false, other, max);
      assert put[1..] == PutIn(lines[1..], key, value, false);
    }
  }

  /** An update inside a section moves no heading. */
  lemma {:induction false} PutInKeepsHeadings(lines: seq<string>, key: string, value: Maybe, gap: bool, other: string)
    requires PlainKey(key)
    ensures AfterHeading(PutIn(lines, key, value, gap), other) == AfterHeading(lines, other)
    decreases |lines|
  {
    hide KeyLine, StartsSection, NamesKey, Separator, SkipLeading, PlainKey, SameName, IndexOf;
    var put := PutIn(lines, key, value, gap);
    if value.Just? { KeyLineIsEntry(key, value.text); }
    if lines == [] {
      BlankLine();
      if value.Just? {
        var l := KeyLine(key, value.text);
        assert [l][1..] == [];
        if gap { assert put[1..] == [l]; }
      }
    } else if StartsSection(lines[0]) {
      if value.Just? { assert put[1..] == lines; } else { assert put == lines; }
    } else if NamesKey(lines[0], key) {
      if value.Just? { assert put[1..] == lines[1..]; } else { assert put == lines[1..]; }
    } else {
      PutInKeepsHeadings(lines[1..], key, value, false, other);
      assert put[1..] == PutIn(lines[1..], key, value, false);
    }
  }

  /** Entries in front of the first heading are not reached by an update of a named section. */
  lemma {:induction false} PutAfterKeepsFront(lines: seq<string>, section: string, key: string, value: Maybe,
                                              stray: bool, gap: bool, other: string, max: nat)
    requires PlainSection(section) && max > 0
    ensures GetIn(PutAfter(lines, section, key, value, stray, gap), other, max) == GetIn(lines, other, max)
    decreases |lines|
  {
    hide ReadValue, KeyLine, SectionLine, StartsSection, Commented, NamesKey, Separator, SkipLeading, ValueText, IndexOf, PlainSection, PutIn;
    var put := PutAfter(lines, section, key, value, stray, gap);
    if lines == [] {
      BlankLine();
      SectionLineOpens(section, section);
      if value.Just? && gap { assert put[1..][0] == SectionLine(section); }
    } else if !IsSection(lines[0], section) {
      PutAfterKeepsFront(lines[1..], section, key, value, stray, false, other, max);
      assert put[1..] == PutAfter(lines[1..], section, key, value, stray, false);
    }
  }

  /** Under any spelling of the section's name, what follows its heading is the updated body. */
  lemma {:induction false} PutAfterBody(lines: seq<string>, section: string, key: string, value: Maybe,
                                        stray: bool, gap: bool, same: string)
    returns (gap': bool)
    requires PlainSection(section) && SameName(section, same)
    ensures AfterHeading(PutAfter(lines, section, key, value, stray, gap), same)
         == PutIn(AfterHeading(lines, same), key, value, gap')
    decreases |lines|
  {
    hide KeyLine, SectionLine, StartsSection, NamesKey, SkipLeading, IndexOf, PlainSection, SameName, IsSection;
    var put := PutAfter(lines, section, key, value, stray, gap);
    gap' := false;
    if lines == [] {
      BlankLine();
      SectionLineOpens(section, same);
      if value.Just? {
        assert PutIn([], key, value, false) == NewKey(key, value);
        var tail := [SectionLine(section)] + NewKey(key, value);
        assert tail[1..] == NewKey(key, value);
        if gap { assert put[1..] == tail; } else { assert put == tail; }
      }
    } else {
      SameLineSameSection(lines[0], section, same);
      if IsSection(lines[0], section) {
        assert put[1..] == PutIn(lines[1..], key, value, stray);
        gap' := stray;
      } else {
        gap' := PutAfterBody(lines[1..], section, key, value, stray, false, same);
        assert put[1..] == PutAfter(lines[1..], section, key, value, stray, false);
      }
    }
  }

  lemma {:induction false} PutAfterOthers(lines: seq<string>, section: string, key: string, value: Maybe,
                                          stray: bool, gap: bool, other: string, otherKey: string, max: nat)
    requires PlainKey(key) && PlainSection(section) && !SameName(section, other) && max > 0
    ensures GetIn(AfterHeading(PutAfter(lines, section, key, value, stray, gap), other), otherKey, max)
         == GetIn(AfterHeading(lines, other), otherKey, max)
    decreases |lines|
  {
    hide ReadValue, KeyLine, SectionLine, StartsSection, NamesKey, SkipLeading, IndexOf, PlainSection, SameName, IsSection, PlainKey, PutIn, GetIn;
    var put := PutAfter(lines, section, key, value, stray, gap);
    if lines == [] {
      NewSectionOpensNoOther(section, key, value, gap, other);
    } else if IsSection(lines[0], section) {
      if IsSection(lines[0], other) { OneSectionPerLine(lines[0], section, other); }
      assert put[1..] == PutIn(lines[1..], key, value, stray);
      PutInKeepsHeadings(lines[1..], key, value, stray, other);
    } else {
      assert put[1..] == PutAfter(lines[1..], section, key, value, stray, false);
      if IsSection(lines[0], other) {
        PutAfterKeepsFront(lines[1..], section, key, value, stray, false, otherKey, max);
      } else {
        PutAfterOthers(lines[1..], section, key, value, stray, false, other, otherKey, max);
      }
    }
  }

  lemma NewSectionOpensNoOther(section: string, key: string, value: Maybe, gap: bool, other: string)
    requires PlainKey(key) && PlainSection(section) && !SameName(section, other)
    ensures AfterHeading(PutAfter([], section, key, value, false, gap), other) == []
    ensures forall stray :: PutAfter([], section, key, value, stray, gap) == PutAfter([], section, key, value, false, gap)
  {
    hide KeyLine, SectionLine, StartsSection, NamesKey, SkipLeading, IndexOf, PlainSection, SameName, IsSection, PlainKey, PutIn;
    if value.Just? {
      var l := KeyLine(key, value.text);
      BlankLine();
      SectionLineOpens(section, other);
      KeyLineIsEntry(key, value.text);
      assert !IsSection(l, other) by { NotStartingIsNoSection(l, other); }
      var tail := [SectionLine(section)] + [l];
      assert tail[1..] == [l] && [l][1..] == [];
      assert AfterHeading([l], other) == [];
      assert !IsSection(tail[0], other);
      assert AfterHeading(tail, other) == AfterHeading(tail[1..], other);
      var put := PutAfter([], section, key, value, false, gap);
      if gap { assert put[1..] == tail; } else { assert put == tail; }
    }
  }

  lemma NotStartingIsNoSection(l: string, section: string)
    requires !StartsSection(l)
    ensures !IsSection(l, section)
  {
  }

  // ---------------------------------------------------------------- main results

  /** After a value is put it is what a reader gets: exactly the values that survive quoting come back. */
  lemma GetAfterPut(lines: seq<string>, section: string, key: string, value: string, stray: bool,
                                       asSection: string, asKey: string, max: nat)
    requires PlainSection(section) && PlainKey(key)
    requires Printable(value) && FitsQuoted(value, ValueRoom(key)) && |value| < max
    requires SameName(section, asSection) && SameName(key, asKey)
    ensures Get(Put(lines, section, key, Just(value), stray), asSection, asKey, max) == Just(value) <==> ReadsBack(value)
  {
    hide ReadValue, PutAfter, PutIn, GetIn, AfterHeading, SaveCopy, PlainKey, PlainSection, FitsQuoted, ReadsBack, ValueRoom;
    var gap := stray;
    if section != "" { gap := PutAfterBody(lines, section, key, Just(value), stray, stray, asSection); }
    PutInFound(Body(lines, asSection), key, value, gap, max);
    SpellingsAgree(PutIn(Body(lines, asSection), key, Just(value), gap), key, asKey, max);
    ReadsBackIff(value, ValueRoom(key), max);
  }

  lemma {:induction false} SpellingsAgree(lines: seq<string>, a: string, b: string, max: nat)
    requires SameName(a, b) && max > 0
    ensures GetIn(lines, a, max) == GetIn(lines, b, max)
    decreases |lines|
  {
    hide ReadValue, SkipLeading, StripTrailing, IndexOf, SameName, StartsSection, Separator;
    if lines != [] {
      var s := SkipLeading(lines[0]);
      if Separator(s) < |s| { SameNameSwaps(a, b, StripTrailing(s[..Separator(s)])); }
      SpellingsAgree(lines[1..], a, b, max);
    }
  }

  /** Every other setting reads as before, whether a value was put or an entry removed. */
  lemma PutKeepsOthers(lines: seq<string>, section: string, key: string, value: Maybe, stray: bool,
                                          other: string, otherKey: string, max: nat)
    requires PlainSection(section) && PlainKey(key) && max > 0
    requires !(SameName(section, other) && SameName(key, otherKey))
    ensures Get(Put(lines, section, key, value, stray), other, otherKey, max) == Get(lines, other, otherKey, max)
  {
    hide PutAfter, PutIn, GetIn, AfterHeading, PlainKey, PlainSection;
    if section == "" {
      if other == "" {
        PutInOthers(lines, key, value, stray, otherKey, max);
      } else {
        PutInKeepsHeadings(lines, key, value, stray, other);
      }
    } else if other == "" {
      PutAfterKeepsFront(lines, section, key, value, stray, stray, otherKey, max);
    } else if SameName(section, other) {
      var gap := PutAfterBody(lines, section, key, value, stray, stray, other);
      PutInOthers(AfterHeading(lines, other), key, value, gap, otherKey, max);
    } else {
      PutAfterOthers(lines, section, key, value, stray, stray, other, otherKey, max);
    }
  }
}
