/**
 Where blocks lie in the flattened instruction array, and that the interpreter's
 linear scans (for the END or ELSE of an IF, for the TO of a function) land on the
 matching instruction of the block structure.
 */
module LogoLayout {
  import opened LogoMachine
  import opened LogoBlocks

  /** `s` occupies the positions from `pos` on. */
  predicate At(code: seq<Instr>, pos: int, s: seq<Instr>) {
    0 <= pos <= pos + |s| <= |code| && code[pos..pos + |s|] == s
  }

  lemma AtSplit(code: seq<Instr>, pos: int, s: seq<Instr>, t: seq<Instr>)
    requires At(code, pos, s + t)
    ensures At(code, pos, s) && At(code, pos + |s|, t)
    ensures 0 <= pos <= pos + |s| <= pos + |s| + |t| <= |code|
  {
    var w := code[pos..pos + |s + t|];
    assert w[..|s|] == s && w[|s|..] == t;
  }

  lemma AtHead(code: seq<Instr>, pos: int, i: Instr, s: seq<Instr>)
    requires At(code, pos, [i] + s)
    ensures 0 <= pos < pos + 1 + |s| <= |code|
    ensures code[pos] == i && At(code, pos + 1, s)
  {
    AtSplit(code, pos, [i], s);
    assert code[pos] == code[pos..pos + 1][0];
  }

  lemma AtWrapped(code: seq<Instr>, pos: int, i: Instr, body: seq<Instr>, e: Instr)
    requires At(code, pos, [i] + body + [e])
    ensures 0 <= pos < pos + 2 + |body| <= |code|
    ensures code[pos] == i && At(code, pos + 1, body) && code[pos + 1 + |body|] == e
  {
    hide At;
    AtSplit(code, pos, [i] + body, [e]);
    AtHead(code, pos, i, body);
    assert [e] + [] == [e];
    AtHead(code, pos + |[i] + body|, e, []);
  }

  lemma AtBranches(code: seq<Instr>, pos: int, thn: seq<Instr>, e: Instr, els: seq<Instr>)
    requires At(code, pos, thn + ([e] + els))
    ensures At(code, pos, thn) && code[pos + |thn|] == e && At(code, pos + |thn| + 1, els)
  {
    hide At;
    AtSplit(code, pos, thn, [e] + els);
    AtHead(code, pos + |thn|, e, els);
  }

  /** The parts of a flattened statement. */
  lemma AtStmt(code: seq<Instr>, pos: int, s: Stmt)
    requires At(code, pos, FlattenStmt(s))
    ensures 0 <= pos < pos + |FlattenStmt(s)| <= |code|
    ensures code[pos] == s.i
    ensures s.Plain? ==> |FlattenStmt(s)| == 1
    ensures s.Repeat? ==>
      && |FlattenStmt(s)| == 2 + |Flatten(s.body)|
      && At(code, pos + 1, Flatten(s.body)) && code[pos + 1 + |Flatten(s.body)|] == END
    ensures s.When? ==>
      && |FlattenStmt(s)| == 2 + |Flatten(s.thn)|
      && At(code, pos + 1, Flatten(s.thn)) && code[pos + 1 + |Flatten(s.thn)|] == END
    ensures s.Choose? ==>
      var e := pos + 1 + |Flatten(s.thn)|;
      && |FlattenStmt(s)| == 3 + |Flatten(s.thn)| + |Flatten(s.els)|
      && At(code, pos + 1, Flatten(s.thn)) && code[e] == ELSE
      && At(code, e + 1, Flatten(s.els)) && code[e + 1 + |Flatten(s.els)|] == END
  {
    hide At;
    hide Flatten;
    match s
    case Repeat(i, body) => AtWrapped(code, pos, i, Flatten(body), END);
    case When(i, thn) => AtWrapped(code, pos, i, Flatten(thn), END);
    case Choose(i, thn, els) =>
      AtWrapped(code, pos, i, Flatten(thn) + ([ELSE] + Flatten(els)), END);
      AtBranches(code, pos + 1, Flatten(thn), ELSE, Flatten(els));
    case _ =>
      assert [s.i] + [] == FlattenStmt(s);
      AtHead(code, pos, s.i, []);
  }

  // ---------------------------------------------------------------- IF scans

  lemma ScanOne(code: seq<Instr>, pos: int, depth: nat)
    requires 0 <= pos < |code|
    ensures IsRepeat(code[pos]) || IsIf(code[pos]) ==> ScanEnd(code, pos, depth) == ScanEnd(code, pos + 1, depth + 1)
    ensures IsEnd(code[pos]) && depth > 0 ==> ScanEnd(code, pos, depth) == ScanEnd(code, pos + 1, depth - 1)
    ensures IsElse(code[pos]) && depth > 0 ==> ScanEnd(code, pos, depth) == ScanEnd(code, pos + 1, depth)
    ensures code[pos].cmd != 1 && !IsIf(code[pos]) ==> ScanEnd(code, pos, depth) == ScanEnd(code, pos + 1, depth)
  {
  }

  /** The scan for the end of an IF block passes over a nested block without changing depth. */
  lemma {:induction false} ScanBlock(code: seq<Instr>, b: Block, pos: int, depth: nat)
    requires IsBlock(b) && At(code, pos, Flatten(b))
    ensures ScanEnd(code, pos, depth) == ScanEnd(code, pos + |Flatten(b)|, depth)
    decreases b, 0
  {
    if b.Cons? {
      AtSplit(code, pos, FlattenStmt(b.head), Flatten(b.tail));
      hide At;
      hide ScanEnd;
      hide FlattenStmt;
      ScanStmt(code, b.head, pos, depth);
      ScanBlock(code, b.tail, pos + |FlattenStmt(b.head)|, depth);
    }
  }

  /** ... and over what lies between an opening instruction and its ELSE or END. */
  lemma {:induction false} ScanArm(code: seq<Instr>, b: Block, pos: int, depth: nat)
    requires IsBlock(b) && At(code, pos, Flatten(b)) && pos + |Flatten(b)| < |code| && depth > 0
    ensures var e := pos + |Flatten(b)|;
      && (code[e] == ELSE ==> ScanEnd(code, pos, depth) == ScanEnd(code, e + 1, depth))
      && (code[e] == END ==> ScanEnd(code, pos, depth) == ScanEnd(code, e + 1, depth - 1))
    decreases b, 1
  {
    hide Flatten;
    hide ScanEnd;
    ScanBlock(code, b, pos, depth);
    ScanOne(code, pos + |Flatten(b)|, depth);
  }

  lemma {:induction false} ScanStmt(code: seq<Instr>, s: Stmt, pos: int, depth: nat)
    requires IsStmt(s) && At(code, pos, FlattenStmt(s))
    ensures ScanEnd(code, pos, depth) == ScanEnd(code, pos + |FlattenStmt(s)|, depth)
    decreases s, 2
  {
    match s
    case Repeat(_, body) => ScanWrapped(code, s, body, pos, depth);
    case When(_, thn) => ScanWrapped(code, s, thn, pos, depth);
    case Choose(_, thn, els) => ScanArms(code, s, pos, depth);
    case Plain(_) => AtStmt(code, pos, s); ScanOne(code, pos, depth);
  }

  lemma {:induction false} ScanWrapped(code: seq<Instr>, s: Stmt, body: Block, pos: int, depth: nat)
    requires IsStmt(s) && At(code, pos, FlattenStmt(s))
    requires (s.Repeat? && body == s.body) || (s.When? && body == s.thn)
    ensures ScanEnd(code, pos, depth) == ScanEnd(code, pos + |FlattenStmt(s)|, depth)
    decreases s, 0
  {
    hide Flatten;
    hide FlattenStmt;
    hide At;
    hide ScanEnd;
    AtStmt(code, pos, s);
    ScanOne(code, pos, depth);
    ScanArm(code, body, pos + 1, depth + 1);
  }

  lemma {:induction false} ScanArms(code: seq<Instr>, s: Stmt, pos: int, depth: nat)
    requires IsStmt(s) && s.Choose? && At(code, pos, FlattenStmt(s))
    ensures ScanEnd(code, pos, depth) == ScanEnd(code, pos + |FlattenStmt(s)|, depth)
    decreases s, 1
  {
    hide Flatten;
    hide FlattenStmt;
    hide At;
    hide ScanEnd;
    AtStmt(code, pos, s);
    ScanThen(code, s, pos, depth);
    ScanArm(code, s.els, pos + 2 + |Flatten(s.thn)|, depth + 1);
  }

  lemma {:induction false} ScanThen(code: seq<Instr>, s: Stmt, pos: int, depth: nat)
    requires IsStmt(s) && s.Choose? && At(code, pos, FlattenStmt(s))
    ensures ScanEnd(code, pos, depth) == ScanEnd(code, pos + 2 + |Flatten(s.thn)|, depth + 1)
    decreases s, 0
  {
    hide Flatten;
    hide FlattenStmt;
    hide At;
    hide ScanEnd;
    AtStmt(code, pos, s);
    ScanOne(code, pos, depth);
    ScanArm(code, s.thn, pos + 1, depth + 1);
  }

  /** A skip from before a block lands on the END or ELSE right behind that block. */
  lemma {:induction false} SkipLands(code: seq<Instr>, b: Block, pos: int)
    requires IsBlock(b) && At(code, pos, Flatten(b))
    requires pos + |Flatten(b)| < |code|
    requires IsEnd(code[pos + |Flatten(b)|]) || IsElse(code[pos + |Flatten(b)|])
    ensures ScanEnd(code, pos, 0) == pos + |Flatten(b)|
  {
    ScanBlock(code, b, pos, 0);
  }

  // ---------------------------------------------------------------- function lookup

  lemma NoToOne(code: seq<Instr>, pos: int, fn: nat)
    requires 0 <= pos < |code| && (!IsTo(code[pos]) || code[pos].arg != fn)
    ensures FindFrom(code, pos, fn) == FindFrom(code, pos + 1, fn)
  {
  }

  lemma {:induction false} NoToInBlock(code: seq<Instr>, b: Block, pos: int, fn: nat)
    requires IsBlock(b) && At(code, pos, Flatten(b))
    ensures FindFrom(code, pos, fn) == FindFrom(code, pos + |Flatten(b)|, fn)
    decreases b, 0
  {
    if b.Cons? {
      AtSplit(code, pos, FlattenStmt(b.head), Flatten(b.tail));
      hide At;
      hide FindFrom;
      hide FlattenStmt;
      NoToInStmt(code, b.head, pos, fn);
      NoToInBlock(code, b.tail, pos + |FlattenStmt(b.head)|, fn);
    }
  }

  lemma {:induction false} NoToInArm(code: seq<Instr>, b: Block, pos: int, fn: nat)
    requires IsBlock(b) && At(code, pos, Flatten(b)) && pos + |Flatten(b)| < |code|
    requires code[pos + |Flatten(b)|] == END || code[pos + |Flatten(b)|] == ELSE
    ensures FindFrom(code, pos, fn) == FindFrom(code, pos + |Flatten(b)| + 1, fn)
    decreases b, 1
  {
    hide Flatten;
    hide FindFrom;
    NoToInBlock(code, b, pos, fn);
    NoToOne(code, pos + |Flatten(b)|, fn);
  }

  lemma {:induction false} NoToInStmt(code: seq<Instr>, s: Stmt, pos: int, fn: nat)
    requires IsStmt(s) && At(code, pos, FlattenStmt(s))
    ensures FindFrom(code, pos, fn) == FindFrom(code, pos + |FlattenStmt(s)|, fn)
    decreases s, 1
  {
    hide At;
    hide FindFrom;
    hide Flatten;
    hide FlattenStmt;
    AtStmt(code, pos, s);
    NoToOne(code, pos, fn);
    match s
    case Repeat(_, body) => NoToInArm(code, body, pos + 1, fn);
    case When(_, thn) => NoToInArm(code, thn, pos + 1, fn);
    case Choose(_, thn, els) => NoToInArms(code, s, pos + 1, fn);
    case Plain(_) =>
  }

  lemma {:induction false} NoToInArms(code: seq<Instr>, s: Stmt, pos: int, fn: nat)
    requires IsStmt(s) && s.Choose? && pos > 0 && At(code, pos - 1, FlattenStmt(s))
    ensures FindFrom(code, pos, fn) == FindFrom(code, pos - 1 + |FlattenStmt(s)|, fn)
    decreases s, 0
  {
    hide At;
    hide FindFrom;
    hide Flatten;
    hide FlattenStmt;
    AtStmt(code, pos - 1, s);
    NoToInArm(code, s.thn, pos, fn);
    NoToInArm(code, s.els, pos + 1 + |Flatten(s.thn)|, fn);
  }

  function Offset(subs: seq<Sub>, k: nat): nat
    requires k <= |subs|
  {
    if k == 0 then 0 else |SubCode(subs[0])| + Offset(subs[1..], k - 1)
  }

  lemma {:induction false} FindInSubs(code: seq<Instr>, subs: seq<Sub>, pos: int, fn: nat)
    requires At(code, pos, SubsCode(subs)) && pos + |SubsCode(subs)| == |code|
    requires forall k :: 0 <= k < |subs| ==> IsSub(subs[k])
    ensures var k := Lookup(subs, fn);
      if k == |subs| then FindFrom(code, pos, fn) == -1
      else FindFrom(code, pos, fn) == pos + Offset(subs, k) && At(code, pos + Offset(subs, k), SubCode(subs[k]))
    decreases |subs|
  {
    hide FindFrom, At, SubCode;
    if subs != [] {
      AtSplit(code, pos, SubCode(subs[0]), SubsCode(subs[1..]));
      FindAtSub(code, subs[0], pos, fn);
      if subs[0].to.arg != fn {
        FindInSubs(code, subs[1..], pos + |SubCode(subs[0])|, fn);
      }
    } else {
      FindNone(code, fn);
    }
  }

  lemma FindNone(code: seq<Instr>, fn: nat)
    ensures FindFrom(code, |code|, fn) == -1
  {
  }

  lemma FindAtSub(code: seq<Instr>, s: Sub, pos: int, fn: nat)
    requires IsSub(s) && At(code, pos, SubCode(s))
    ensures FindFrom(code, pos, fn) == if s.to.arg == fn then pos else FindFrom(code, pos + |SubCode(s)|, fn)
  {
    AtWrapped(code, pos, s.to, Flatten(s.body), END);
    if s.to.arg != fn {
      hide FindFrom;
      hide At;
      hide Flatten;
      NoToOne(code, pos, fn);
      NoToInArm(code, s.body, pos + 1, fn);
    }
  }

  /** Calling a function starts at its body: MAIN for 0 and for undefined functions, else the first definition. */
  lemma FindStartLands(p: Program, fn: nat)
    requires IsProgram(p)
    ensures var code, b := Code(p), Body(p, fn);
      var e := FindStart(code, fn) + 1 + |Flatten(b)|;
      && IsBlock(b)
      && At(code, FindStart(code, fn) + 1, Flatten(b))
      && (if IsClosed(p, fn) then e < |code| && code[e] == END
          else if p.subs == [] then e == |code| else e < |code| && IsTo(code[e]))
  {
    hide FindFrom;
    hide At;
    hide Code;
    hide MainCode;
    var code, start, k := Code(p), |MainCode(p)|, Lookup(p.subs, fn);
    LayoutOfMain(p);
    FoundAfterMain(p, fn);
    if fn != 0 && k < |p.subs| {
      AtWrapped(code, start + Offset(p.subs, k), p.subs[k].to, Flatten(p.subs[k].body), END);
    }
  }

  lemma FoundAfterMain(p: Program, fn: nat)
    requires IsProgram(p)
    ensures var code, k := Code(p), Lookup(p.subs, fn);
      if k == |p.subs| then FindFrom(code, 0, fn) == -1
      else (FindFrom(code, 0, fn) == |MainCode(p)| + Offset(p.subs, k)
            && At(code, |MainCode(p)| + Offset(p.subs, k), SubCode(p.subs[k])))
  {
    hide FindFrom;
    hide At;
    hide Code;
    hide MainCode;
    var code, start := Code(p), |MainCode(p)|;
    LayoutOfMain(p);
    FindInSubs(code, p.subs, start, fn);
    if p.closed { NoToInArm(code, p.main, 0, fn); } else { NoToInBlock(code, p.main, 0, fn); }
  }

  lemma LayoutOfMain(p: Program)
    requires IsProgram(p)
    ensures var code, start := Code(p), |MainCode(p)|;
      && At(code, 0, Flatten(p.main))
      && At(code, start, SubsCode(p.subs)) && start + |SubsCode(p.subs)| == |code|
      && start == |Flatten(p.main)| + (if p.closed then 1 else 0)
      && (p.closed ==> code[start - 1] == END)
      && (p.subs != [] ==> start < |code| && IsTo(code[start]))
  {
    var code, start := Code(p), |MainCode(p)|;
    assert code[0..|code|] == code;
    AtSplit(code, 0, MainCode(p), SubsCode(p.subs));
    AtSplit(code, 0, Flatten(p.main), if p.closed then [END] else []);
    if p.closed { AtHead(code, start - 1, END, []); }
    if p.subs != [] {
      AtSplit(code, start, SubCode(p.subs[0]), SubsCode(p.subs[1..]));
      AtWrapped(code, start, p.subs[0].to, Flatten(p.subs[0].body), END);
    }
  }
}
