/**
 What #if conditions mean, as laws of their texts.
 */
module ConditionLaws {
  import opened CStrings
  import opened CText
  import opened CNumbers
  import opened Wrappers
  import opened IfParser
  import opened IfGrammar
  import opened IfTheorems
  import opened IfCompleteness
  import opened IfLaws
  import opened IfErrors
  import opened Cppsetup
  import opened DirectiveText
  import D = Directives
  import G = Guards
  import N = Nesting
  import S = Selection
  import O = OneTable

  /** The operand has a value. */
  ghost predicate HasValue(defs: Defs, v: Value) { IsOperand(v) && exists n :: Reads(EnvOf(defs), TextOf(v), n) }

  /** !v holds exactly when v does not. */
  lemma NotHolds(defs: Defs, v: Value)
    requires HasValue(defs, v)
    ensures IsTrue(defs, "!" + TextOf(v)) <==> !IsTrue(defs, TextOf(v))
  {
    var n :| Reads(EnvOf(defs), TextOf(v), n);
    NotLaw(EnvOf(defs), v, n);
  }

  /** v&&w holds when both do, v||w when one does. */
  lemma AndOrHold(defs: Defs, v: Value, w: Value)
    requires HasValue(defs, v) && HasValue(defs, w)
    ensures IsTrue(defs, TextOf(v) + ("&&" + TextOf(w))) <==> IsTrue(defs, TextOf(v)) && IsTrue(defs, TextOf(w))
    ensures IsTrue(defs, TextOf(v) + ("||" + TextOf(w))) <==> IsTrue(defs, TextOf(v)) || IsTrue(defs, TextOf(w))
  {
    var a :| Reads(EnvOf(defs), TextOf(v), a);
    var b :| Reads(EnvOf(defs), TextOf(w), b);
    LogicLaws(EnvOf(defs), v, a, w, b);
  }

  /** v?w:u holds when the one it chooses does. */
  lemma ChoiceHolds(defs: Defs, v: Value, w: Value, u: Value)
    requires HasValue(defs, v) && HasValue(defs, w) && HasValue(defs, u)
    ensures IsTrue(defs, TextOf(v) + ("?" + (TextOf(w) + (":" + TextOf(u)))))
            <==> if IsTrue(defs, TextOf(v)) then IsTrue(defs, TextOf(w)) else IsTrue(defs, TextOf(u))
  {
    var a :| Reads(EnvOf(defs), TextOf(v), a);
    var b :| Reads(EnvOf(defs), TextOf(w), b);
    var c :| Reads(EnvOf(defs), TextOf(u), c);
    ChoiceLaw(EnvOf(defs), v, a, w, b, u, c);
  }

  function DefinedText(name: string): string { "defined" + ("(" + (name + ")")) }

  /** defined(X) holds exactly when X is defined; a name of more than 256 characters never is. */
  lemma DefinedHolds(defs: Defs, name: string)
    requires IsName(name)
    ensures IsTrue(defs, DefinedText(name)) <==> name in defs && |name| <= 256
    ensures IsTrue(defs, "!" + DefinedText(name)) <==> !(name in defs && |name| <= 256)
  {
    var v := DefinedParen("", "", "", name, "");
    DefinedLaw(EnvOf(defs), name);
    NotHolds(defs, v);
  }

  /** A name that is not defined is as good as 0. */
  lemma UndefinedIsZero(defs: Defs, name: string)
    requires IsName(name) && !IsKeyword(name) && (name !in defs || |name| > 256)
    ensures IsTrue(defs, name) == IsTrue(defs, "0") == false
  {
    NameLaw(EnvOf(defs), name);
    ValueIs(defs, [name]);
    NumberLaws(EnvOf(defs), 0, false, "");
    assert Decimal(0) + "" == "0";
  }

  /** A macro that stands for a number holds unless that is 0. */
  lemma NumberHolds(defs: Defs, name: string, n: nat)
    requires IsName(name) && !IsKeyword(name) && name in defs && |name| <= 256 && defs[name] == Decimal(n)
    ensures IsTrue(defs, name) <==> n != 0
  {
    NameLaw(EnvOf(defs), name);
    NumberHasValue(defs, name, n);
  }

  /** When nothing can be read behind an operator, what stands in front of it decides; nothing at all does not hold. */
  lemma ErrorLeavesLeft(defs: Defs, v: Value, n: int, level: nat, op: BinOp, text: string, junk: string)
    requires IsOperand(v) && Reads(EnvOf(defs), TextOf(v), n) && IsSpelling(level, op, text) && BeginsNothing(junk) && AfterOp(junk[0])
    ensures IsTrue(defs, TextOf(v) + (text + junk)) == IsTrue(defs, TextOf(v)) == IsTrue(defs, "(" + TextOf(v)) == (n != 0)
    ensures !IsTrue(defs, junk)
  {
    LeftIsKept(EnvOf(defs), v, n, level, op, text, junk);
    OpenParenIsKept(EnvOf(defs), v, n);
    JunkIsZero(EnvOf(defs), junk);
  }

  /** Nor does a text with a character constant that is not closed. */
  lemma OpenQuoteFails(defs: Defs, body: string)
    requires forall i :: 0 <= i < |body| ==> body[i] != '\''
    ensures !IsTrue(defs, "'" + body)
  {
    OpenQuoteOverruns(EnvOf(defs), body);
  }

  // ---------- over one table of definitions ----------

  type Locate = (D.File, string, bool) -> Option<D.File>

  lemma OneTableTests(locate: Locate, left: map<D.File, Defs>, v: O.View, e: string, name: string)
    requires G.IsWord(name)
    ensures O.TheOps(locate, left).truth(v, e).0 == IsTrue(v.defs, e)
    ensures O.TheOps(locate, left).isDefined(v, name).0 == (name in v.defs)
    ensures G.LooksOnly(O.TheOps(locate, left))
  {
    G.WordIsName(name);
  }

  /** #if !defined(X) chooses as #ifndef X does, and #if defined(X) as #ifdef X. */
  lemma IfDefinedIsIfDef(locate: Locate, left: map<D.File, Defs>, trees: N.Trees, file: D.File, name: string,
                         l: D.Directive, k: D.Directive,
                         a: N.Block, b: N.Block, rest: N.Block, other: D.Directive, end: D.Directive, st: D.State<O.View>)
    requires IsName(name) && |name| <= 256
    requires (l.kind == D.If(DefinedText(name)) && k.kind == D.IfDef(name))
             || (l.kind == D.If("!" + DefinedText(name)) && k.kind == D.IfNDef(name))
    ensures S.Meaning(O.TheOps(locate, left), trees, file, G.IfElse(l, a, other, b, end, rest), st)
            == S.Meaning(O.TheOps(locate, left), trees, file, G.IfElse(k, a, other, b, end, rest), st)
  {
    var ops := O.TheOps(locate, left);
    OneTableTests(locate, left, st.w, l.kind.expr, name);
    DefinedHolds(st.w.defs, name);
    G.ConditionChooses(ops, trees, file, l, l.kind.expr, a, b, rest, other, end, st);
    G.NameChooses(ops, trees, file, k, name, a, b, rest, st);
  }

  /** So do the scanners. */
  lemma LinesOfDefined(locate: Locate, left: map<D.File, Defs>, trees: N.Trees, file: D.File, depth: nat, name: string,
                       l: D.Directive, k: D.Directive, a: N.Block, b: N.Block, other: D.Directive, end: D.Directive,
                       more: seq<D.Directive>, st: D.State<O.View>)
    requires IsName(name) && |name| <= 256 && N.AllWellNested(trees) && N.WellNested(a) && N.WellNested(b)
    requires (l.kind == D.If(DefinedText(name)) && k.kind == D.IfDef(name))
             || (l.kind == D.If("!" + DefinedText(name)) && k.kind == D.IfNDef(name))
    requires other.kind.Else? && end.kind.EndIf?
    ensures D.FindIncludes(O.TheOps(locate, left), N.ContentsOf(trees), file, depth, [l] + N.Lines(a,
            [other] + N.Lines(b, [end] + more)), st)
            == D.FindIncludes(O.TheOps(locate, left), N.ContentsOf(trees), file, depth,
                              [k] + N.Lines(a, [other] + N.Lines(b, [end] + more)), st)
  {
    var ops := O.TheOps(locate, left);
    OneTableTests(locate, left, st.w, l.kind.expr, name);
    IfDefinedIsIfDef(locate, left, trees, file, name, l, k, a, b, N.Empty, other, end, st);
    G.LinesMean(ops, trees, file, depth, G.IfElse(l, a, other, b, end, N.Empty), more, st);
    G.LinesMean(ops, trees, file, depth, G.IfElse(k, a, other, b, end, N.Empty), more, st);
  }

  /** #if X, when X is not defined, chooses as #if 0 does. */
  lemma IfUndefinedIsIfZero(locate: Locate, left: map<D.File, Defs>, trees: N.Trees, file: D.File, name: string, l: D.Directive,
                            k: D.Directive, a: N.Block, b: N.Block, rest: N.Block, other: D.Directive, end: D.Directive,
                            st: D.State<O.View>)
    requires IsName(name) && !IsKeyword(name) && name !in st.w.defs && l.kind == D.If(name) && k.kind == D.If("0")
    ensures S.Meaning(O.TheOps(locate, left), trees, file, G.IfElse(l, a, other, b, end, rest), st)
            == S.Meaning(O.TheOps(locate, left), trees, file, rest, S.Meaning(O.TheOps(locate, left), trees, file, b, st))
            == S.Meaning(O.TheOps(locate, left), trees, file, G.IfElse(k, a, other, b, end, rest), st)
  {
    var ops := O.TheOps(locate, left);
    OneTableTests(locate, left, st.w, name, name);
    OneTableTests(locate, left, st.w, "0", name);
    UndefinedIsZero(st.w.defs, name);
    G.ConditionChooses(ops, trees, file, l, name, a, b, rest, other, end, st);
    G.ConditionChooses(ops, trees, file, k, "0", a, b, rest, other, end, st);
  }
}
