/**
 What the parser of #if expressions is for: it accepts exactly the language, every text has
 one value, and a tree printed with the parentheses the grammar needs is read back.
 */
module IfTheorems {
  import opened CStrings
  import opened CText
  import opened CNumbers
  import opened Wrappers
  import opened IfParser
  import opened IfGrammar
  import opened IfSoundness
  import opened IfCompleteness

  /** `s` is the text of the tree `e`, with blanks behind it. */
  ghost predicate Spells(e: Expr, ws: string, s: string) {
    WellFormed(e) && AllSpace(ws) && (EndsOpen(e) ==> ws == "") && s == Text(e, ws)
  }

  lemma SpellsIsRead(env: Env, e: Expr, ws: string, s: string)
    requires Spells(e, ws, s)
    ensures ParseIfExpression(env, s) == Ok("", Eval(env, e))
  {
    SkipSpaceOver(ws, "");
    assert ws + "" == ws;
    FirstOf(ws, "");
    CompleteLevel(env, COND, e, ws);
  }

  /** The whole text is read with value `v` if and only if it spells a tree of that value. */
  lemma AcceptsExactlyTheLanguage(env: Env, s: string, v: Num)
    ensures ParseIfExpression(env, s) == Ok("", v) <==> exists e, ws :: Spells(e, ws, s) && Eval(env, e) == v
  {
    if ParseIfExpression(env, s) == Ok("", v) {
      var e, ws := SoundLevel(env, COND, s);
      assert ws + "" == ws;
      assert Spells(e, ws, s);
    }
    if exists e, ws :: Spells(e, ws, s) && Eval(env, e) == v {
      var e, ws :| Spells(e, ws, s) && Eval(env, e) == v;
      SpellsIsRead(env, e, ws, s);
    }
  }

  /** Whatever prefix is accepted spells a tree of the returned value. */
  lemma AcceptsOnlyTheLanguage(env: Env, s: string) returns (e: Expr, ws: string)
    requires ParseIfExpression(env, s).Ok?
    ensures WellFormed(e) && AllSpace(ws) && Eval(env, e) == ParseIfExpression(env, s).val
    ensures s == Text(e, ws + ParseIfExpression(env, s).rest)
  {
    e, ws := SoundLevel(env, COND, s);
  }

  /** The grammar is not ambiguous: all trees of a text have one value. */
  lemma OneValue(env: Env, s: string, e: Expr, ws: string, f: Expr, xs: string)
    requires Spells(e, ws, s) && Spells(f, xs, s)
    ensures Eval(env, e) == Eval(env, f)
  {
    SpellsIsRead(env, e, ws, s);
    SpellsIsRead(env, f, xs, s);
  }

  // ---------- round trip ----------

  predicate ValueFull(v: Value) {
    match v
    case Empty(_) => false
    case Paren(_, e, _) => Full(e)
    case UnaryOp(_, _, x) => ValueFull(x)
    case _ => true
  }

  /** No operand is missing; the shape is arbitrary. */
  predicate Full(e: Expr) {
    match e
    case Leaf(v) => ValueFull(v)
    case Binary(_, left, _, _, _, right) => Full(left) && Full(right)
    case Cond(test, _, yes, _, no) => Full(test) && Full(yes) && Full(no)
  }

  function Wrap(e: Expr, wrap: bool): Expr {
    if wrap then Leaf(Paren("", e, "")) else e
  }

  function ParenthesizeValue(v: Value): Value {
    match v
    case Paren(ws, e, ws1) => Paren(ws, Parenthesize(e), ws1)
    case UnaryOp(ws, op, x) => UnaryOp(ws, op, ParenthesizeValue(x))
    case _ => v
  }

  /** Parentheses around a left operand of the same or a higher level and a right operand of a higher one. */
  function Parenthesize(e: Expr): Expr {
    match e
    case Leaf(v) => Leaf(ParenthesizeValue(v))
    case Binary(level, left, ws, op, text, right) =>
      var l, r := Parenthesize(left), Parenthesize(right);
      Binary(level, Wrap(l, LevelOf(l) >= level), ws, op, text, Wrap(r, LevelOf(r) > level))
    case Cond(test, ws, yes, ws1, no) =>
      var t := Parenthesize(test);
      Cond(Wrap(t, LevelOf(t) == COND), ws, Parenthesize(yes), ws1, Parenthesize(no))
  }

  lemma {:induction false} ParenthesizeValueOk(env: Env, v: Value)
    requires ValueTokens(v) && ValueFull(v)
    ensures ValueTokens(ParenthesizeValue(v)) && ValueDerives(ParenthesizeValue(v)) && !ValueEndsOpen(ParenthesizeValue(v))
    ensures ValueOf(env, ParenthesizeValue(v)) == ValueOf(env, v)
  {
    match v
    case Paren(_, e, _) => ParenthesizeOk(env, e);
    case UnaryOp(_, _, x) => ParenthesizeValueOk(env, x);
    case _ =>
  }

  lemma WrapOk(env: Env, e: Expr, wrap: bool)
    requires WellFormed(e) && !EndsOpen(e)
    ensures WellFormed(Wrap(e, wrap)) && !EndsOpen(Wrap(e, wrap)) && Eval(env, Wrap(e, wrap)) == Eval(env, e)
    ensures LevelOf(Wrap(e, wrap)) == if wrap then 0 else LevelOf(e)
  {
  }

  lemma {:induction false} ParenthesizeOk(env: Env, e: Expr)
    requires Tokens(e) && Full(e)
    ensures WellFormed(Parenthesize(e)) && !EndsOpen(Parenthesize(e)) && LevelOf(Parenthesize(e)) <= COND
    ensures Eval(env, Parenthesize(e)) == Eval(env, e)
  {
    match e
    case Leaf(v) =>
      ParenthesizeValueOk(env, v);
    case Binary(level, left, ws, op, text, right) =>
      ParenthesizeOk(env, left);
      ParenthesizeOk(env, right);
      var l, r := Parenthesize(left), Parenthesize(right);
      WrapOk(env, l, LevelOf(l) >= level);
      WrapOk(env, r, LevelOf(r) > level);
    case Cond(test, ws, yes, ws1, no) =>
      ParenthesizeOk(env, test);
      ParenthesizeOk(env, yes);
      ParenthesizeOk(env, no);
      var t := Parenthesize(test);
      WrapOk(env, t, LevelOf(t) == COND);
  }

  /** Any tree whatever, printed with those parentheses, is read back with its value to the end of the text. */
  lemma RoundTrip(env: Env, e: Expr)
    requires Tokens(e) && Full(e)
    ensures ParseIfExpression(env, Text(Parenthesize(e), "")) == Ok("", Eval(env, e))
  {
    ParenthesizeOk(env, e);
    SpellsIsRead(env, Parenthesize(e), "", Text(Parenthesize(e), ""));
  }

  /**
   Operators of one level associate to the right, unlike C's: x-y-z is x-(y-z), which is
   C's value just when z is 0.
   */
  lemma MinusAssociatesRight(env: Env, x: string, y: string, z: string)
    requires IsName(x) && IsName(y) && IsName(z) && !IsKeyword(x) && !IsKeyword(y) && !IsKeyword(z)
    ensures var a, b, c := Num(env.variable(x)), Num(env.variable(y)), Num(env.variable(z));
            var r := Apply(Sub, a, Apply(Sub, b, c));
            && ParseIfExpression(env, x + ("-" + (y + ("-" + z)))) == Ok("", r)
            && (r != Undef && Apply(Sub, Apply(Sub, a, b), c) != Undef ==>
                  (r == Apply(Sub, Apply(Sub, a, b), c) <==> c == Num(0)))
  {
    var a, b, c := Leaf(Variable("", x)), Leaf(Variable("", y)), Leaf(Variable("", z));
    MinusOk(a, b, c);
    var bc := Binary(2, b, "", Sub, "-", c);
    var e := Binary(2, a, "", Sub, "-", bc);
    NameText(z, "");
    NameText(y, "-" + z);
    NameText(x, "-" + (y + ("-" + z)));
    assert Text(bc, "") == y + ("-" + z);
    assert Text(e, "") == x + ("-" + (y + ("-" + z)));
    SpellsIsRead(env, e, "", Text(e, ""));
    assert Eval(env, bc) == Apply(Sub, Eval(env, b), Eval(env, c));
    assert Eval(env, e) == Apply(Sub, Eval(env, a), Eval(env, bc));
    var va, vb, vc := Eval(env, a), Eval(env, b), Eval(env, c);
    if Apply(Sub, va, Apply(Sub, vb, vc)) != Undef && Apply(Sub, Apply(Sub, va, vb), vc) != Undef {
      MinusDiffers(va, vb, vc);
    }
  }

  lemma MinusDiffers(a: Num, b: Num, c: Num)
    requires Apply(Sub, a, Apply(Sub, b, c)) != Undef && Apply(Sub, Apply(Sub, a, b), c) != Undef
    ensures Apply(Sub, a, Apply(Sub, b, c)) == Apply(Sub, Apply(Sub, a, b), c) <==> c == Num(0)
  {
  }

  lemma MinusOk(a: Expr, b: Expr, c: Expr)
    requires a.Leaf? && WellFormed(a) && !EndsOpen(a) && b.Leaf? && WellFormed(b) && !EndsOpen(b) && c.Leaf?
            && WellFormed(c) && !EndsOpen(c)
    ensures var e := Binary(2, a, "", Sub, "-", Binary(2, b, "", Sub, "-", c));
            WellFormed(e) && !EndsOpen(e)
  {
    var bc := Binary(2, b, "", Sub, "-", c);
    assert LevelOf(bc) == 2 && Tokens(bc) && Derives(bc) && !EndsOpen(bc);
    var e := Binary(2, a, "", Sub, "-", bc);
    assert Tokens(e) && Derives(e);
  }

  lemma NameText(name: string, s: string)
    ensures Text(Leaf(Variable("", name)), s) == name + s && "" + s == s && s + "" == s && name + "" == name
  {
  }

  // ---------- the scan stays inside the text ----------

  predicate QuoteFree(s: string) { '\'' !in s }

  lemma {:induction false} SkipSpaceQuoteFree(s: string)
    requires QuoteFree(s)
    ensures QuoteFree(SkipSpace(s))
  {
    if s != "" && IsSpace(s[0]) { SkipSpaceQuoteFree(s[1..]); }
  }

  lemma VariableQuoteFree(s: string)
    requires QuoteFree(s) && ParseVariable(s).Some?
    ensures QuoteFree(ParseVariable(s).value.0)
  {
    SkipSpaceQuoteFree(s);
  }

  lemma {:induction false} ArgsQuoteFree(s: string)
    requires s != "" && QuoteFree(s) && ParseArgs(s).Some?
    ensures QuoteFree(ParseArgs(s).value)
    decreases |s|
  {
    VariableQuoteFree(s[1..]);
    var t := SkipSpace(ParseVariable(s[1..]).value.0);
    SkipSpaceQuoteFree(ParseVariable(s[1..]).value.0);
    if t[0] != ')' { ArgsQuoteFree(t); }
  }

  lemma MacroQuoteFree(s: string)
    requires QuoteFree(s)
    ensures !ParseMacro(s).Overrun? && (ParseMacro(s).Ok? ==> QuoteFree(ParseMacro(s).rest))
  {
    if ParseMacro(s).Ok? {
      VariableQuoteFree(s);
      SkipSpaceQuoteFree(ParseVariable(s).value.0);
      ArgsQuoteFree(SkipSpace(ParseVariable(s).value.0));
    }
  }

  lemma DefinedQuoteFree(env: Env, s: string)
    requires QuoteFree(s)
    ensures !ParseDefined(env, s).Overrun? && (ParseDefined(env, s).Ok? ==> QuoteFree(ParseDefined(env, s).rest))
  {
    SkipSpaceQuoteFree(s);
    var t := SkipSpace(s);
    var t1 := if First(t) == '(' then t[1..] else t;
    if ParseVariable(t1).Some? {
      VariableQuoteFree(t1);
      SkipSpaceQuoteFree(ParseVariable(t1).value.0);
    }
  }

  lemma {:induction false} ValueQuoteFree(env: Env, s: string)
    requires QuoteFree(s)
    ensures !ParseValue(env, s).Overrun? && (ParseValue(env, s).Ok? ==> QuoteFree(ParseValue(env, s).rest))
    decreases |s|, 0
  {
    SkipSpaceQuoteFree(s);
    var t := SkipSpace(s);
    if t == "" {
    } else if t[0] == '(' {
      LevelStaysInside(env, COND, t[1..]);
      var r := ParseLevel(env, COND, t[1..]);
      if r.Ok? { SkipSpaceQuoteFree(r.rest); }
    } else if t[0] == '!' || t[0] == '-' || t[0] == '~' {
      ValueQuoteFree(env, t[1..]);
    } else {
      MacroQuoteFree(t[1..]);
      if IsKeywordAt(t) { DefinedQuoteFree(env, t[7..]); }
      if ParseVariable(t).Some? { VariableQuoteFree(t); }
    }
  }

  /** Where there is no quote the parser does not run over the terminator; where there is one it need not either. */
  lemma {:induction false} LevelStaysInside(env: Env, level: nat, s: string)
    requires 1 <= level <= COND && QuoteFree(s)
    ensures !ParseLevel(env, level, s).Overrun? && (ParseLevel(env, level, s).Ok? ==> QuoteFree(ParseLevel(env, level, s).rest))
    decreases |s|, level
  {
    if level == 1 { ValueQuoteFree(env, s); } else { LevelStaysInside(env, level - 1, s); }
    var left := ParseLeft(env, level, s);
    if left.Ok? {
      SkipSpaceQuoteFree(left.rest);
      var t := SkipSpace(left.rest);
      if level == COND && First(t) == '?' {
        LevelStaysInside(env, COND, t[1..]);
        var yes := ParseLevel(env, COND, t[1..]);
        if yes.Ok? {
          SkipSpaceQuoteFree(yes.rest);
          var u := SkipSpace(yes.rest);
          if First(u) == ':' { LevelStaysInside(env, COND, u[1..]); }
        }
      } else if level < COND && MatchOp(level, t).IsOp? {
        LevelStaysInside(env, level, t[MatchOp(level, t).len..]);
      }
    }
  }
}
