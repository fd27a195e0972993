/**
 What #ifdef and #ifndef mean: they choose opposite groups, and an include guard lets its file be read just once.
 */
module Guards {
  import opened CStrings
  import opened CText
  import opened Wrappers
  import opened Cppsetup
  import opened DirectiveText
  import opened Directives
  import opened Nesting
  import opened Selection
  import O = OneTable

  // ---------- from the text ----------

  predicate IsLowerWord(word: string) { word != "" && forall i :: 0 <= i < |word| ==> IsLower(word[i]) }

  lemma LowerWords()
    ensures IsLowerWord("if") && IsLowerWord("ifdef") && IsLowerWord("ifndef") && IsLowerWord("elif") && IsLowerWord("else")
    ensures IsLowerWord("endif") && IsLowerWord("define") && IsLowerWord("undef") && IsLowerWord("include")
  {
  }

  function LineOf(word: string, p: string): string { "#" + (word + (" " + p)) }

  lemma LineKind(word: string, p: string)
    requires IsLowerWord(word) && !Starts(p, IsBlank)
    ensures KindOf(LineOf(word, p)) == KindBy(word, p)
  {
    assert "" + (word + (" " + p)) == word + (" " + p);
    WordIsFound("", word, " ", p);
  }

  predicate IsWord(name: string) { name != "" && forall i :: 0 <= i < |name| ==> IsIdent(name[i]) }

  /** The line "#ifdef X" asks for X, "#ifndef X" for its opposite, and "#undef X" undefines it. */
  lemma NameLines(name: string)
    requires IsWord(name)
    ensures KindOf(LineOf("ifdef", name)) == IfDef(name)
    ensures KindOf(LineOf("ifndef", name)) == IfNDef(name)
    ensures KindOf(LineOf("undef", name)) == Undef(name)
  {
    assert name + "" == name;
    SymbolIsFound(name, "");
    LowerWords();
    LineKind("ifdef", name);
    LineKind("ifndef", name);
    LineKind("undef", name);
    WordsMean(name);
  }

  lemma OtherLines(p: string)
    requires !Starts(p, IsBlank)
    ensures KindOf(LineOf("if", p)) == If(p) && KindOf(LineOf("elif", p)) == Elif(p)
    ensures KindOf(LineOf("define", p)) == Define(p) && KindOf(LineOf("include", p)) == Include(p)
    ensures KindOf(LineOf("else", p)) == Else && KindOf(LineOf("endif", p)) == EndIf
  {
    LowerWords();
    LineKind("if", p);
    LineKind("elif", p);
    LineKind("define", p);
    LineKind("include", p);
    LineKind("else", p);
    LineKind("endif", p);
    WordsMean(p);
  }

  // ---------- what conditionals choose ----------

  function IfElse(open: Directive, a: Block, other: Directive, b: Block, end: Directive, rest: Block): Block {
    Cond(open, a, ElseTail(other, b, end), rest)
  }

  function IfOnly(open: Directive, a: Block, end: Directive, rest: Block): Block { Cond(open, a, EndTail(end), rest) }

  /** The first group is chosen when the name is defined, the other one when it is not; with #ifndef the other way round. */
  lemma NameChooses<W>(ops: Ops<W>, trees: Trees, file: File, l: Directive, x: string, a: Block, b: Block, rest: Block, st: State<W>)
    requires l.kind == IfDef(x) || l.kind == IfNDef(x)
    ensures forall other, end ::
              Meaning(ops, trees, file, IfElse(l, a, other, b, end, rest), st)
              == Meaning(ops, trees, file, rest, Meaning(ops, trees, file, if ops.isDefined(st.w, x).0 == l.kind.IfDef? then a else b, st))
    ensures forall end ::
              Meaning(ops, trees, file, IfOnly(l, a, end, rest), st)
              == Meaning(ops, trees, file, rest,
                         if ops.isDefined(st.w, x).0 == l.kind.IfDef? then Meaning(ops, trees, file, a, st) else st)
  {
  }

  /** So #ifndef with its groups exchanged is #ifdef. */
  lemma NotDefinedIsElse<W>(ops: Ops<W>, trees: Trees, file: File, l: Directive, k: Directive, x: string, a: Block, b: Block, rest: Block,
                            other: Directive, end: Directive, st: State<W>)
    requires l.kind == IfNDef(x) && k.kind == IfDef(x)
    ensures Meaning(ops, trees, file, IfElse(l, a, other, b, end, rest), st)
            == Meaning(ops, trees, file, IfElse(k, b, other, a, end, rest), st)
    ensures Meaning(ops, trees, file, IfOnly(l, a, end, rest), st)
            == Meaning(ops, trees, file, IfElse(k, Empty, other, a, end, rest), st)
  {
    NameChooses(ops, trees, file, l, x, a, b, rest, st);
    NameChooses(ops, trees, file, k, x, b, a, rest, st);
    NameChooses(ops, trees, file, k, x, Empty, a, rest, st);
  }

  /** #if chooses by its condition. */
  lemma ConditionChooses<W>(ops: Ops<W>, trees: Trees, file: File, l: Directive, e: string, a: Block, b: Block, rest: Block,
                            other: Directive, end: Directive, st: State<W>)
    requires l.kind == If(e)
    ensures Meaning(ops, trees, file, IfElse(l, a, other, b, end, rest), st)
            == Meaning(ops, trees, file, rest, Meaning(ops, trees, file, if ops.truth(st.w, e).0 then a else b, st))
  {
  }

  /** And #elif is an #else with an #if in it. */
  lemma ElifIsElseIf<W>(ops: Ops<W>, trees: Trees, file: File, l: Directive, k: Directive, e: string, a: Block, b: Block, tail: Tail,
                        rest: Block, other: Directive, end: Directive, inner: Directive, st: State<W>)
    requires Opens(l.kind) && k.kind == Elif(e) && inner.kind == If(e)
    ensures Meaning(ops, trees, file, Cond(l, a, ElifTail(k, b, tail), rest), st)
            == Meaning(ops, trees, file, IfElse(l, a, other, Cond(inner, b, tail, Empty), end, rest), st)
  {
    var nested := Cond(inner, b, tail, Empty);
    assert Chosen(ops, st.w, inner, b, tail) == ChosenBehind(ops, st.w, ElifTail(k, b, tail));
    assert Meaning(ops, trees, file, nested, st) == Meaning(ops, trees, file, Chosen(ops, st.w, inner, b, tail), st);
  }

  // ---------- the scanners, when looking changes nothing ----------

  ghost predicate LooksOnly<W(!new)>(ops: Ops<W>) {
    forall w: W, e: string :: ops.truth(w, e).1 == w && ops.isDefined(w, e).1 == w
  }

  /** Lines are executed as their tree means. */
  lemma LinesMean<W(!new)>(ops: Ops<W>, trees: Trees, file: File, depth: nat, b: Block, more: seq<Directive>, st: State<W>)
    requires LooksOnly(ops) && AllWellNested(trees) && WellNested(b)
    ensures FindIncludes(ops, ContentsOf(trees), file, depth, Lines(b, more), st)
            == FindIncludes(ops, ContentsOf(trees), file, depth, more, Meaning(ops, trees, file, b, st))
  {
    FindBlock(ops, trees, file, depth, b, more, st);
    QuietBlock(ops, trees, file, b, st);
  }

  /** The scanners give #ifndef its groups exchanged, too. */
  lemma LinesOfNotDefined<W(!new)>(ops: Ops<W>, trees: Trees, file: File, depth: nat, l: Directive, k: Directive, x: string, a: Block,
                                   b: Block, other: Directive, end: Directive, more: seq<Directive>, st: State<W>)
    requires LooksOnly(ops) && AllWellNested(trees) && WellNested(a) && WellNested(b)
    requires l.kind == IfNDef(x) && k.kind == IfDef(x) && other.kind.Else? && end.kind.EndIf?
    ensures FindIncludes(ops, ContentsOf(trees), file, depth, [l] + Lines(a, [other] + Lines(b, [end] + more)), st)
            == FindIncludes(ops, ContentsOf(trees), file, depth, [k] + Lines(b, [other] + Lines(a, [end] + more)), st)
  {
    NotDefinedIsElse(ops, trees, file, l, k, x, a, b, Empty, other, end, st);
    LinesMean(ops, trees, file, depth, IfElse(l, a, other, b, end, Empty), more, st);
    LinesMean(ops, trees, file, depth, IfElse(k, b, other, a, end, Empty), more, st);
  }

  // ---------- ends of conditionals that no conditional began ----------

  /** Outside any conditional #endif is handed to define with its whole line, and reading goes on. */
  lemma StrayEndIf<W>(ops: Ops<W>, contents: Contents, file: File, end: Directive, more: seq<Directive>, st: State<W>)
    requires end.kind == EndIf
    ensures FindIncludes(ops, contents, file, 0, [end] + more, st)
            == FindIncludes(ops, contents, file, 0, more, st.(w := ops.define(st.w, file, end.text)))
  {
    assert ([end] + more)[1..] == more;
  }

  /** So is #else, but what stands between it and the next #endif is skipped. */
  lemma StrayElse<W(!new)>(ops: Ops<W>, trees: Trees, file: File, other: Directive, body: Block, end: Directive, more: seq<Directive>,
                           st: State<W>)
    requires LooksOnly(ops) && WellNested(body) && other.kind == Else && end.kind == EndIf
    ensures FindIncludes(ops, ContentsOf(trees), file, 0, [other] + Lines(body, [end] + more), st)
            == FindIncludes(ops, ContentsOf(trees), file, 0, more, st.(w := ops.define(st.w, file, other.text)))
  {
    var lines := [other] + Lines(body, [end] + more);
    assert lines[1..] == Lines(body, [end] + more);
    GobbleBlock(ops, body, [end] + more, st.w);
    QuietSkip(ops, body, st.w);
    assert ([end] + more)[1..] == more;
  }

  lemma {:induction false} QuietSkip<W(!new)>(ops: Ops<W>, b: Block, w: W)
    requires LooksOnly(ops)
    ensures SkipBlock(ops, b, w) == w
    decreases b
  {
    match b
    case Empty =>
    case Plain(_, rest) => QuietSkip(ops, rest, w);
    case Cond(_, body, tail, rest) =>
      QuietSkip(ops, body, w);
      QuietSkipTail(ops, tail, w);
      QuietSkip(ops, rest, w);
  }

  lemma {:induction false} QuietSkipTail<W(!new)>(ops: Ops<W>, t: Tail, w: W)
    requires LooksOnly(ops)
    ensures SkipTail(ops, t, w) == w
    decreases t
  {
    match t
    case EndTail(_) =>
    case ElseTail(_, body, _) => QuietSkip(ops, body, w);
    case ElifTail(line, body, tail) =>
      assert Test(ops, line.kind, w).1 == w;
      QuietSkip(ops, body, w);
      QuietSkipTail(ops, tail, w);
  }

  // ---------- include guards ----------

  lemma WordIsName(name: string)
    requires IsWord(name)
    ensures O.AsName(name) == name && ParseDefine(name) == (name, "1") && !Starts(name, IsBlank)
  {
    RunExact(name, "", IsIdent);
    assert name + "" == name && name[..|name|] == name;
  }

  /** The lines of a file with an include guard. */
  function Guarded(l: Directive, d: Directive, body: Block, end: Directive): seq<Directive> { [l] + ([d] + Lines(body, [end])) }

  lemma GuardedLines<W(!new)>(ops: Ops<W>, trees: Trees, file: File, l: Directive, d: Directive, body: Block, end: Directive,
                              st: State<W>)
    requires LooksOnly(ops) && AllWellNested(trees) && WellNested(body) && l.kind.IfNDef? && d.kind.Define? && end.kind.EndIf?
    ensures var r := if ops.isDefined(st.w, l.kind.symbol).0 then st
                     else Meaning(ops, trees, file, body, st.(w := ops.define(st.w, file, d.kind.def)));
            FindIncludes(ops, ContentsOf(trees), file, 0, Guarded(l, d, body, end), st)
            == Found(AtEnd, [], r.(w := ops.finish(r.w, file)))
  {
    var b := IfOnly(l, Plain(d, body), end, Empty);
    assert [end] + [] == [end];
    assert Lines(b, []) == [l] + Lines(Plain(d, body), [end] + []);
    var taken := Meaning(ops, trees, file, Plain(d, body), st);
    assert LineMeaning(ops, trees, file, d.kind, st) == st.(w := ops.define(st.w, file, d.kind.def));
    assert taken == Meaning(ops, trees, file, body, st.(w := ops.define(st.w, file, d.kind.def)));
    NameChooses(ops, trees, file, l, l.kind.symbol, Plain(d, body), Empty, Empty, st);
    assert Meaning(ops, trees, file, b, st) == if ops.isDefined(st.w, l.kind.symbol).0 then st else taken;
    LinesMean(ops, trees, file, 0, b, [], st);
  }

  /**
   Over one table of definitions: while the name of the guard is not defined it gets defined, as 1, and the body is executed;
   later nothing is.
   */
  lemma GuardLetsInOnce(locate: (File, string, bool) -> Option<File>, left: map<File, Defs>, trees: Trees, file: File, name: string,
                        behind: string, body: Block, st: State<O.View>)
    requires AllWellNested(trees) && WellNested(body) && IsWord(name) && !Starts(behind, IsBlank)
    ensures var ops := O.TheOps(locate, left);
            var lines := Guarded(Parse(LineOf("ifndef", name)), Parse(LineOf("define", name)), body, Parse(LineOf("endif", behind)));
            FindIncludes(ops, ContentsOf(trees), file, 0, lines, st)
            == Found(AtEnd, [],
                     if name in st.w.defs then st
                     else Meaning(ops, trees, file, body, st.(w := st.w.(defs := st.w.defs[name := "1"], made := st.w.made + 1))))
  {
    GuardKinds(name, behind);
    GuardOnLines(locate, left, trees, file, name, Parse(LineOf("ifndef", name)), Parse(LineOf("define", name)), body,
                 Parse(LineOf("endif", behind)), st);
  }

  lemma GuardOnLines(locate: (File, string, bool) -> Option<File>, left: map<File, Defs>, trees: Trees, file: File, name: string,
                     l: Directive, d: Directive, body: Block, end: Directive, st: State<O.View>)
    requires AllWellNested(trees) && WellNested(body) && O.AsName(name) == name && ParseDefine(name) == (name, "1")
    requires l.kind == IfNDef(name) && d.kind == Define(name) && end.kind == EndIf
    ensures var ops := O.TheOps(locate, left);
            FindIncludes(ops, ContentsOf(trees), file, 0, Guarded(l, d, body, end), st)
            == Found(AtEnd, [],
                     if name in st.w.defs then st
                     else Meaning(ops, trees, file, body, st.(w := st.w.(defs := st.w.defs[name := "1"], made := st.w.made + 1))))
  {
    OneTableDoes(locate, left, st.w, file, name);
    GuardedLines(O.TheOps(locate, left), trees, file, l, d, body, end, st);
    var defined := st.(w := st.w.(defs := st.w.defs[name := "1"], made := st.w.made + 1));
    var r := if name in st.w.defs then st else Meaning(O.TheOps(locate, left), trees, file, body, defined);
    OneTableEnds(locate, left, file, r);
  }

  lemma OneTableDoes(locate: (File, string, bool) -> Option<File>, left: map<File, Defs>, v: O.View, file: File, name: string)
    requires O.AsName(name) == name && ParseDefine(name) == (name, "1")
    ensures LooksOnly(O.TheOps(locate, left)) && O.TheOps(locate, left).isDefined(v, name).0 == (name in v.defs)
    ensures O.TheOps(locate, left).define(v, file, name) == v.(defs := v.defs[name := "1"], made := v.made + 1)
  {
  }

  lemma OneTableEnds(locate: (File, string, bool) -> Option<File>, left: map<File, Defs>, file: File, st: State<O.View>)
    ensures st.(w := O.TheOps(locate, left).finish(st.w, file)) == st
  {
  }

  lemma GuardKinds(name: string, behind: string)
    requires IsWord(name) && !Starts(behind, IsBlank)
    ensures Parse(LineOf("ifndef", name)).kind == IfNDef(name) && Parse(LineOf("define", name)).kind == Define(name)
    ensures Parse(LineOf("endif", behind)).kind == EndIf
    ensures O.AsName(name) == name && ParseDefine(name) == (name, "1")
  {
    WordIsName(name);
    NameLines(name);
    OtherLines(name);
    OtherLines(behind);
  }

  /** Over one table of definitions #define gives its name the value, "1" without one, and #undef takes it away. */
  lemma DefinesAndUndefines(locate: (File, string, bool) -> Option<File>, left: map<File, Defs>, trees: Trees, file: File, name: string,
                            ws: string, val: string, st: State<O.View>)
    requires IsWord(name) && Blanks(ws) && val != "" && !IsBlank(val[0])
    ensures var ops := O.TheOps(locate, left);
            && LineMeaning(ops, trees, file, Define(name + (" " + (ws + val))), st).w.defs == st.w.defs[name := val]
            && LineMeaning(ops, trees, file, Define(name), st).w.defs == st.w.defs[name := "1"]
            && LineMeaning(ops, trees, file, Undef(name), st).w.defs == st.w.defs - {name}
  {
    WordIsName(name);
    DefinitionIsFound(name, ' ', ws, val);
    assert name + ([' '] + (ws + val)) == name + (" " + (ws + val));
    LineDefines(locate, left, trees, file, name + (" " + (ws + val)), st);
    LineDefines(locate, left, trees, file, name, st);
    LineUndefines(locate, left, trees, file, name, st);
  }

  lemma LineDefines(locate: (File, string, bool) -> Option<File>, left: map<File, Defs>, trees: Trees, file: File, def: string,
                    st: State<O.View>)
    ensures LineMeaning(O.TheOps(locate, left), trees, file, Define(def), st).w == O.Defined(st.w, def)
  {
  }

  lemma LineUndefines(locate: (File, string, bool) -> Option<File>, left: map<File, Defs>, trees: Trees, file: File, name: string,
                      st: State<O.View>)
    requires name != ""
    ensures LineMeaning(O.TheOps(locate, left), trees, file, Undef(name), st).w == O.Undefined(st.w, name)
  {
  }
}
