/** Rewriting an INI file through the seek-back cache, character positions and all: `ini_puts` and its helpers. */
module IniFile {
  import opened FixedWidth
  import opened IniText
  import opened IniStore
  import opened IniBuffer

  // ---------------------------------------------------------------- lines in a text

  function Join(lines: seq<string>): string {
    if lines == [] then "" else lines[0] + Join(lines[1..])
  }

  lemma {:induction false} JoinAppends(a: seq<string>, b: seq<string>)
    ensures Join(a + b) == Join(a) + Join(b)
    decreases |a|
  {
    if a == [] {
      assert a + b == b;
    } else {
      assert (a + b)[1..] == a[1..] + b;
      JoinAppends(a[1..], b);
    }
  }

  /** Where line `i` begins. */
  function Offset(lines: seq<string>, i: nat): nat
    requires i <= |lines|
  {
    |Join(lines[..i])|
  }

  lemma JoinOne(l: string)
    ensures Join([l]) == l
  {
    var lines := [l];
    assert lines[1..] == [];
  }

  lemma OffsetNext(lines: seq<string>, i: nat)
    requires i < |lines|
    ensures Offset(lines, i + 1) == Offset(lines, i) + |lines[i]|
  {
    assert lines[..i + 1] == lines[..i] + [lines[i]];
    JoinAppends(lines[..i], [lines[i]]);
    JoinOne(lines[i]);
  }

  lemma OffsetOrder(lines: seq<string>, i: nat, j: nat)
    requires i <= j <= |lines|
    ensures Offset(lines, j) == Offset(lines, i) + |Join(lines[i..j])|
  {
    assert lines[..j] == lines[..i] + lines[i..j];
    JoinAppends(lines[..i], lines[i..j]);
  }

  lemma TextBehind(lines: seq<string>, i: nat)
    requires i <= |lines|
    ensures Offset(lines, i) <= |Join(lines)| && Join(lines)[Offset(lines, i)..] == Join(lines[i..])
  {
    assert lines == lines[..i] + lines[i..];
    JoinAppends(lines[..i], lines[i..]);
  }

  /** The number of characters `fgets` with a buffer of `n` takes at `pos`. */
  function Taken(text: string, pos: nat, n: nat): (k: nat)
    requires pos <= |text| && n > 0
    ensures pos + k <= |text|
  {
    var line := IndexOf(text[pos..], '\n');
    Min(n - 1, if line < |text| - pos then line + 1 else line)
  }

  /** At the start of a line that fits, exactly that line is taken. */
  lemma {:induction false} TakesLine(lines: seq<string>, i: nat, n: nat)
    requires TextFile(lines) && i < |lines| && |lines[i]| < n
    ensures Offset(lines, i) + |lines[i]| <= |Join(lines)|
    ensures Join(lines)[Offset(lines, i)..Offset(lines, i) + |lines[i]|] == lines[i]
    ensures Taken(Join(lines), Offset(lines, i), n) == |lines[i]|
  {
    hide IndexOf;
    TextBehind(lines, i);
    var l, rest := lines[i], Join(lines[i..]);
    assert lines[i..][1..] == lines[i + 1..];
    assert rest == l + Join(lines[i + 1..]);
    assert TextLine(l);
    assert rest[..|l| - 1] == l[..|l| - 1];
    FirstIndex(rest, '\n', |l| - 1);
    assert rest[..|l|] == l;
  }

  lemma AtEnd(lines: seq<string>, i: nat)
    requires TextFile(lines) && i <= |lines|
    ensures Offset(lines, i) <= |Join(lines)| && (Offset(lines, i) == |Join(lines)| <==> i == |lines|)
  {
    TextBehind(lines, i);
    if i < |lines| { assert TextLine(lines[i]); }
  }

  // ---------------------------------------------------------------- where an update works

  /** The first heading of the section, or the end. */
  predicate FirstHeading(lines: seq<string>, section: string, h: nat) {
    h <= |lines| && (forall k :: 0 <= k < h ==> !IsSection(lines[k], section)) &&
    (h < |lines| ==> IsSection(lines[h], section))
  }

  /** The first line that is a heading or names the key, or the end. */
  predicate FirstSite(lines: seq<string>, key: string, i: nat) {
    i <= |lines| && (forall k :: 0 <= k < i ==> !StartsSection(lines[k]) && !NamesKey(lines[k], key)) &&
    (i < |lines| ==> StartsSection(lines[i]) || NamesKey(lines[i], key))
  }

  predicate NextHeading(lines: seq<string>, i: nat) {
    i <= |lines| && (forall k :: 0 <= k < i ==> !StartsSection(lines[k])) && (i < |lines| ==> StartsSection(lines[i]))
  }

  lemma HeadingBehind(lines: seq<string>, section: string, h: nat)
    requires FirstHeading(lines, section, h)
    ensures h <= |lines| && (h < |lines| ==> IsSection(lines[h], section))
    ensures h > 0 ==> !IsSection(lines[0], section) && FirstHeading(lines[1..], section, h - 1)
  {
    hide IsSection;
  }

  lemma SiteBehind(lines: seq<string>, key: string, i: nat)
    requires FirstSite(lines, key, i)
    ensures i <= |lines| && (i < |lines| ==> StartsSection(lines[i]) || NamesKey(lines[i], key))
    ensures i > 0 ==> !StartsSection(lines[0]) && !NamesKey(lines[0], key) && FirstSite(lines[1..], key, i - 1)
  {
    hide StartsSection, NamesKey;
  }

  function Gap(gap: bool, value: Maybe): seq<string> {
    if gap && value.Just? then ["\n"] else []
  }

  lemma {:induction false} PutInAt(lines: seq<string>, key: string, value: Maybe, gap: bool, i: nat)
    requires FirstSite(lines, key, i)
    ensures PutIn(lines, key, value, gap) ==
      lines[..i] + (if i == |lines| then Gap(gap && i == 0, value) + NewKey(key, value)
                    else NewKey(key, value) + lines[if StartsSection(lines[i]) then i else i + 1..])
    decreases i
  {
    hide StartsSection, NamesKey, NewKey, FirstSite;
    SiteBehind(lines, key, i);
    if i == 0 {
      assert lines[..0] == [] && lines[0..] == lines;
    } else {
      var rest := lines[1..];
      PutInAt(rest, key, value, false, i - 1);
      assert lines[..i] == [lines[0]] + rest[..i - 1];
      assert lines[i..] == rest[i - 1..];
      if i < |lines| { assert lines[i + 1..] == rest[i..]; }
    }
  }

  function NewSection(section: string, key: string, value: Maybe, gap: bool): seq<string> {
    if value.Nothing? then [] else Gap(gap, value) + [SectionLine(section)] + NewKey(key, value)
  }

  lemma {:induction false} PutAfterAt(lines: seq<string>, section: string, key: string, value: Maybe, stray: bool, gap: bool, h: nat)
    requires FirstHeading(lines, section, h)
    ensures h == |lines| ==>
      PutAfter(lines, section, key, value, stray, gap) == lines + NewSection(section, key, value, gap && h == 0)
    ensures h < |lines| ==>
      PutAfter(lines, section, key, value, stray, gap) == lines[..h + 1] + PutIn(lines[h + 1..], key, value, stray)
    decreases h
  {
    hide IsSection, NewKey, PutIn, SectionLine, FirstHeading;
    HeadingBehind(lines, section, h);
    if h == 0 {
      if lines != [] { assert lines[..1] == [lines[0]]; }
    } else {
      var rest := lines[1..];
      PutAfterAt(rest, section, key, value, stray, false, h - 1);
      if h < |lines| {
        assert lines[..h + 1] == [lines[0]] + rest[..h];
        assert lines[h + 1..] == rest[h..];
      } else {
        assert lines == [lines[0]] + rest;
      }
    }
  }

  lemma {:induction false} DropAt(lines: seq<string>, i: nat)
    requires NextHeading(lines, i)
    ensures DropEntries(lines) == lines[i..]
    decreases i
  {
    hide StartsSection;
    if i > 0 {
      var rest := lines[1..];
      assert forall k :: 0 <= k < |rest| ==> rest[k] == lines[k + 1];
      DropAt(rest, i - 1);
      assert lines[i..] == rest[i - 1..];
    }
  }

  lemma {:induction false} EraseAt(lines: seq<string>, section: string, h: nat)
    requires FirstHeading(lines, section, h)
    ensures EraseNamed(lines, section) == if h == |lines| then lines else lines[..h] + DropEntries(lines[h + 1..])
    decreases h
  {
    hide IsSection, DropEntries, FirstHeading;
    HeadingBehind(lines, section, h);
    if h > 0 {
      var rest := lines[1..];
      EraseAt(rest, section, h - 1);
      if h < |lines| {
        assert lines[..h] == [lines[0]] + rest[..h - 1];
        assert lines[h + 1..] == rest[h..];
      } else {
        assert lines == [lines[0]] + rest;
      }
    }
  }
}
