/** Lines as people write them: blanks around key, separator and value, either separator, and a comment behind. */
module IniReading {
  import opened FixedWidth
  import opened IniText
  import opened IniStore

  predicate AllBlank(s: string) {
    forall k :: 0 <= k < |s| ==> Blank(s[k])
  }

  /** Text with no blank at either end. */
  predicate Trimmed(s: string) {
    s != "" ==> !Blank(s[0]) && !Blank(s[|s| - 1])
  }

  lemma {:induction false} SkipsBlanks(gap: string, s: string)
    requires AllBlank(gap) && (s != "" ==> !Blank(s[0]))
    ensures SkipLeading(gap + s) == s
    decreases |gap|
  {
    if gap == "" {
      assert gap + s == s;
    } else {
      assert (gap + s)[1..] == gap[1..] + s;
      SkipsBlanks(gap[1..], s);
    }
  }

  lemma {:induction false} StripsBlanks(s: string, gap: string)
    requires AllBlank(gap) && (s != "" ==> !Blank(s[|s| - 1]))
    ensures StripTrailing(s + gap) == s
    decreases |gap|
  {
    if gap == "" {
      assert s + gap == s;
    } else {
      assert (s + gap)[..|s + gap| - 1] == s + gap[..|gap| - 1];
      StripsBlanks(s, gap[..|gap| - 1]);
    }
  }

  /** A comment, or nothing, and the end of the line. */
  predicate Remark(s: string) {
    s == "\n" || (s != "" && (s[0] == ';' || s[0] == '#'))
  }

  predicate NoSpecials(s: string) {
    forall k :: 0 <= k < |s| ==> !Special(s[k])
  }

  /** Text without quotes and comment characters goes on to the comment behind it. */
  lemma {:induction false} CommentBehind(s: string, remark: string)
    requires NoSpecials(s) && Remark(remark)
    ensures CommentStart(s + remark, false) == |s| + if remark == "\n" then 1 else 0
    decreases |s|
  {
    if s == "" {
      assert s + remark == remark;
      if remark == "\n" { assert remark[1..] == ""; }
    } else {
      assert (s + remark)[1..] == s[1..] + remark;
      if |s| > 1 { assert !Special(s[1]); }
      CommentBehind(s[1..], remark);
    }
  }

  /** A value of plain text is read without the blanks around it and the comment behind it. */
  lemma PlainValueReads(before: string, value: string, behind: string, remark: string, max: nat)
    requires AllBlank(before) && AllBlank(behind) && Remark(remark) && NoSpecials(value) && Trimmed(value)
    requires value != "" && |value| < max
    ensures ReadValue(before + value + behind + remark, max) == value
  {
    hide SkipLeading, StripTrailing, CommentStart;
    var s := value + behind + remark;
    assert before + value + behind + remark == before + s;
    SkipsBlanks(before, s);
    BlanksAreNotSpecial(behind);
    CommentBehind(value + behind, remark);
    assert s == (value + behind) + remark;
    var cut := s[..CommentStart(s, false)];
    if remark == "\n" {
      assert cut == value + (behind + "\n");
      StripsBlanks(value, behind + "\n");
    } else {
      assert cut == value + behind;
      StripsBlanks(value, behind);
    }
    assert !Special(value[0]);
  }

  lemma BlanksAreNotSpecial(s: string)
    requires AllBlank(s)
    ensures NoSpecials(s)
  {
  }

  /** Key, blanks, separator, blanks, value, blanks, comment, behind any blanks. */
  datatype Written = Written(lead: string, key: string, gap: string, colon: bool, before: string, value: string, behind: string, remark: string)

  function Separators(w: Written): string {
    if w.colon then ":" else "="
  }

  function Line(w: Written): string {
    w.lead + (w.key + w.gap + Separators(w) + (w.before + w.value + w.behind + w.remark))
  }

  /** A colon separates only where the line has no equal sign. */
  predicate Readable(w: Written) {
    && AllBlank(w.lead) && AllBlank(w.gap) && AllBlank(w.before) && AllBlank(w.behind) && Remark(w.remark)
    && w.key != "" && Trimmed(w.key) && '=' !in w.key && w.key[0] != '[' && w.key[0] != ';' && w.key[0] != '#'
    && w.value != "" && Trimmed(w.value) && NoSpecials(w.value)
    && (w.colon ==> ':' !in w.key && '=' !in w.value && '=' !in w.remark)
  }

  lemma {:induction false} NotInAt(s: string, c: char)
    requires c !in s
    ensures IndexOf(s, c) == |s|
    decreases |s|
  {
    if s != "" { NotInAt(s[1..], c); }
  }

  lemma BlanksHaveNo(s: string, c: char)
    requires AllBlank(s) && !Blank(c)
    ensures c !in s
  {
  }

  /** Where the line is split. */
  lemma SplitsAt(w: Written)
    requires Readable(w)
    ensures var s := SkipLeading(Line(w));
      && s == w.key + w.gap + Separators(w) + (w.before + w.value + w.behind + w.remark)
      && Separator(s) == |w.key + w.gap| < |s| && s[..Separator(s)] == w.key + w.gap
      && ValueText(Line(w)) == w.before + w.value + w.behind + w.remark
  {
    hide SkipLeading, IndexOf;
    var (name, rest) := (w.key + w.gap, w.before + w.value + w.behind + w.remark);
    var s := name + Separators(w) + rest;
    assert s[0] == w.key[0];
    SkipsBlanks(w.lead, s);
    BlanksHaveNo(w.gap, '=');
    assert s[..|name|] == name && s[|name| + 1..] == rest;
    if w.colon {
      BlanksHaveNo(w.gap, ':');
      BlanksHaveNo(w.before, '=');
      BlanksHaveNo(w.behind, '=');
      assert '=' !in s;
      NotInAt(s, '=');
      FirstIndex(s, ':', |name|);
    } else {
      FirstIndex(s, '=', |name|);
    }
  }

  /** Such a line is an entry of exactly its key, in any capitals, and its value is read as it stands. */
  lemma WrittenLineReads(w: Written, key: string, tail: seq<string>, max: nat)
    requires Readable(w) && |w.value| < max
    ensures IsEntry(Line(w), key) <==> SameName(w.key, key)
    ensures SameName(w.key, key) ==> GetIn([Line(w)] + tail, key, max) == Just(w.value)
    ensures !SameName(w.key, key) ==> GetIn([Line(w)] + tail, key, max) == GetIn(tail, key, max)
  {
    hide SkipLeading, IndexOf, StripTrailing, ReadValue, Separator, Line;
    SplitsAt(w);
    StripsBlanks(w.key, w.gap);
    PlainValueReads(w.before, w.value, w.behind, w.remark, max);
    var lines := [Line(w)] + tail;
    assert lines[1..] == tail;
    assert SkipLeading(Line(w))[0] == w.key[0];
  }

  /** A comment line is no entry, whatever it holds. */
  lemma CommentLineIsSkipped(lead: string, text: string, key: string, tail: seq<string>, max: nat)
    requires AllBlank(lead) && text != "" && (text[0] == ';' || text[0] == '#') && max > 0
    ensures !IsEntry(lead + text, key) && GetIn([lead + text] + tail, key, max) == GetIn(tail, key, max)
  {
    hide SkipLeading, ReadValue, NamesKey;
    SkipsBlanks(lead, text);
    var lines := [lead + text] + tail;
    assert lines[1..] == tail;
  }

  /** Nothing behind the next heading is read. */
  lemma HeadingEndsSection(lead: string, text: string, key: string, tail: seq<string>, max: nat)
    requires AllBlank(lead) && text != "" && text[0] == '[' && max > 0
    ensures GetIn([lead + text] + tail, key, max) == Nothing
  {
    hide SkipLeading;
    SkipsBlanks(lead, text);
  }

  /** A heading opens exactly the section between its brackets, in any capitals, whatever is written before and behind them. */
  lemma HeadingOpens(lead: string, name: string, behind: string, section: string, tail: seq<string>)
    requires AllBlank(lead) && ']' !in name
    ensures var l := lead + ("[" + name + "]" + behind);
      && (IsSection(l, section) <==> SameName(name, section))
      && AfterHeading([l] + tail, section) == if SameName(name, section) then tail else AfterHeading(tail, section)
  {
    hide SkipLeading, IndexOf;
    var s := "[" + name + "]" + behind;
    SkipsBlanks(lead, s);
    assert s[..|name| + 1] == "[" + name;
    FirstIndex(s, ']', |name| + 1);
    assert s[1..|name| + 1] == name;
    assert ([lead + s] + tail)[1..] == tail;
  }

  /** Without a closing bracket it opens none. */
  lemma UnclosedOpensNone(l: string, section: string)
    requires ']' !in l
    ensures !IsSection(l, section)
  {
    hide IndexOf, SkipLeading;
    SkipIsSuffix(l);
  }

  lemma {:induction false} SkipIsSuffix(l: string)
    ensures forall c :: c in SkipLeading(l) ==> c in l
    decreases |l|
  {
    if l != "" && Blank(l[0]) { SkipIsSuffix(l[1..]); }
  }

  /** A value that needs no quotes is written whole exactly if key and value have no more than 508 characters. */
  lemma WrittenWholeIff(key: string, value: string)
    requires PlainKey(key) && !NeedsQuotes(value)
    ensures KeyLine(key, value) == key + "=" + value + "\n" <==> |key| + |value| <= 508
  {
    hide NeedsQuotes;
    assert key[..Min(|key|, BUFFER - 4)] == key;
    var stored := SaveCopy(value, ValueRoom(key), None);
    assert KeyLine(key, value) == key + "=" + stored + "\n";
    if |key| + |value| <= 508 {
      assert stored == value;
    } else {
      assert |KeyLine(key, value)| < |key + "=" + value + "\n"|;
    }
  }
}
