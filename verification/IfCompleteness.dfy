/**
 Every text of the language is accepted, read to its end, and given the value of its tree.
 */
module IfCompleteness {
  import opened CStrings
  import opened Sequences
  import opened CText
  import opened CNumbers
  import opened Wrappers
  import opened IfParser
  import opened IfGrammar
  import opened IfSoundness

  // ---------- tokens ----------

  lemma CompleteName(name: string, rest: string)
    requires IsName(name) && !IsIdent(First(rest))
    ensures ParseVariable(name + rest) == Some((rest, name))
    ensures SkipSpace(name + rest) == name + rest && First(name + rest) == name[0]
  {
    var t := name + rest;
    assert First(t) == name[0];
    RunExact(name, rest, IsIdent);
    assert t[..|name|] == name && t[|name|..] == rest;
  }

  lemma CompleteVariable(ws: string, name: string, rest: string)
    requires AllSpace(ws) && IsName(name) && !IsIdent(First(rest))
    ensures ParseVariable(ws + (name + rest)) == Some((rest, name))
  {
    CompleteName(name, rest);
    SkipSpaceOver(ws, name + rest);
  }

  lemma {:induction false} CompleteArgs(args: seq<Arg>, rest: string)
    requires args != [] && ArgsOk(args)
    ensures ArgsText(args, rest) != ""
    ensures ParseArgs(ArgsText(args, rest)) == Some(rest)
  {
    var a := args[0];
    var more := ArgsText(args[1..], rest);
    var s := ArgsText(args, rest);
    assert s[1..] == a.ws + (a.name + (a.ws1 + more));
    if |args| > 1 {
      assert args[1..][0] == args[1];
      assert First(more) == args[1].sep;
      CompleteArgs(args[1..], rest);
    } else {
      assert more == ")" + rest;
      assert more[1..] == rest;
    }
    FirstOf(a.ws1, more);
    CompleteVariable(a.ws, a.name, a.ws1 + more);
    SkipSpaceOver(a.ws1, more);
    assert SkipSpace(more) == more;
  }

  lemma FirstOf(a: string, b: string)
    ensures First(a + b) == if a == "" then First(b) else a[0]
  {
    if a == "" { assert a + b == b; }
  }

  lemma CompleteMacro(v: Value, rest: string)
    requires v.Macro? && ValueTokens(v)
    ensures ParseMacro(v.ws1 + (v.name + (v.ws2 + ArgsText(v.args, rest)))) == Ok(rest, Num(1))
  {
    var text := ArgsText(v.args, rest);
    CompleteArgs(v.args, rest);
    assert First(text) == '(';
    FirstOf(v.ws2, text);
    CompleteVariable(v.ws1, v.name, v.ws2 + text);
    SkipSpaceOver(v.ws2, text);
    assert SkipSpace(text) == text;
  }

  lemma CompleteCharacter(ws: string, body: string, rest: string)
    requires AllSpace(ws) && !IsSpace(First(body)) && forall i :: 0 <= i < |body| ==> NotQuote(body[i])
    ensures ParseCharacter(ws + (body + ("'" + rest))) == Ok(rest, Num(CharValue(body + "'")))
  {
    var q := "'" + rest;
    var t := body + q;
    SkipSpaceOver(ws, t);
    FirstOf(body, q);
    assert SkipSpace(t) == t;
    RunExact(body, q, NotQuote);
    assert t[|body|..] == q && t[|body| + 1..] == rest;
    Assoc(body, "'", rest);
    CharValueStops(body + "'", rest);
  }

  lemma CompleteNumber(body: string, suffix: string, rest: string)
    requires IsNumber(body) && AllQualifiers(suffix) && !IsIdent(First(rest))
    ensures ParseNumber(body + (suffix + rest)) == Ok(rest, Num(Clamp(Magnitude(body, 0).val)))
  {
    var u := suffix + rest;
    FirstOf(suffix, rest);
    FirstOf(body, u);
    var t := body + u;
    assert SkipSpace(t) == t;
    assert u != "" ==> u[0] == First(u);
    MagnitudeStops(body, u);
    assert t[|body|..] == u;
    assert rest != "" ==> !IsIdent(rest[0]);
    RunExact(suffix, rest, IsQualifier);
    assert u[|suffix|..] == rest;
  }

  lemma DefinedIs(env: Env, s: string, name: string, u: string)
    requires First(SkipSpace(s)) != '(' && ParseVariable(SkipSpace(s)) == Some((u, name))
    ensures ParseDefined(env, s) == Ok(SkipSpace(u), Truth(env.isDefined(name)))
  {
  }

  lemma CompleteDefined(env: Env, v: Value, rest: string)
    requires v.Defined? && ValueTokens(v) && !IsIdent(First(rest))
    ensures var s := v.ws1 + (v.name + (v.ws2 + rest));
            !IsAlnum(First(s)) && ParseDefined(env, s) == Ok(SkipSpace(rest), ValueOf(env, v))
  {
    var u := v.ws2 + rest;
    var t := v.name + u;
    FirstOf(v.ws1, t);
    FirstOf(v.ws2, rest);
    SkipSpaceOver(v.ws1, t);
    CompleteName(v.name, u);
    DefinedIs(env, v.ws1 + t, v.name, u);
    SkipSpaceOver(v.ws2, rest);
  }

  lemma CompleteDefinedParen(env: Env, v: Value, rest: string)
    requires v.DefinedParen? && ValueTokens(v)
    ensures var s := v.ws1 + ("(" + (v.ws2 + (v.name + (v.ws3 + (")" + rest)))));
            !IsAlnum(First(s)) && ParseDefined(env, s) == Ok(rest, ValueOf(env, v))
  {
    var w := ")" + rest;
    var u := v.ws2 + (v.name + (v.ws3 + w));
    var t := "(" + u;
    FirstOf(v.ws1, t);
    SkipSpaceOver(v.ws1, t);
    assert SkipSpace(t) == t && t[1..] == u;
    FirstOf(v.ws3, w);
    CompleteVariable(v.ws2, v.name, v.ws3 + w);
    SkipSpaceOver(v.ws3, w);
    assert SkipSpace(w) == w && w[1..] == rest;
  }

  // ---------- operators ----------

  /** A character that may follow an operator: it cannot turn it into another one. */
  predicate AfterOp(c: char) { c != '=' && c != '<' && c != '>' && c != '&' && c != '|' }

  predicate NoOpUpTo(level: nat, t: string) {
    forall l :: 1 <= l <= level ==> MatchOp(l, t) == NoOp
  }

  /** An operator is recognized at its level, and at no lower one. */
  lemma SpellingMatches(level: nat, op: BinOp, text: string, s: string)
    requires IsSpelling(level, op, text) && AfterOp(First(s))
    ensures MatchOp(level, text + s) == IsOp(op, |text|) && NoOpUpTo(level - 1, text + s)
    ensures !IsSpace(First(text + s)) && !IsIdent(First(text + s)) && (text + s)[|text|..] == s
  {
    var t := text + s;
    assert At(t, 0) == text[0] && At(t, 1) == if |text| == 2 then text[1] else First(s);
  }

  /** What may follow an expression of a level without becoming part of it. */
  predicate Follows(level: nat, rest: string) {
    && !IsIdent(First(rest))
    && NoOpUpTo(if level < COND then level else COND - 1, SkipSpace(rest))
    && (level == COND ==> First(SkipSpace(rest)) != '?')
  }

  lemma {:induction false} ValueStart(v: Value, rest: string)
    requires ValueTokens(v) && ValueDerives(v) && (ValueEndsOpen(v) ==> rest == "")
    ensures AfterOp(First(ValueText(v, rest)))
  {
    match v
    case Empty(ws) => FirstOf(ws, rest);
    case Paren(ws, e, ws1) => FirstOf(ws, "(" + Text(e, ws1 + (")" + rest)));
    case UnaryOp(ws, op, x) => FirstOf(ws, UnText(op) + ValueText(x, rest));
    case Defined(ws, ws1, name, ws2) => FirstOf(ws, "defined" + (ws1 + (name + (ws2 + rest))));
    case DefinedParen(ws, ws1, ws2, name, ws3) =>
      FirstOf(ws, "defined" + (ws1 + ("(" + (ws2 + (name + (ws3 + (")" + rest)))))));
    case Macro(ws, ws1, name, ws2, args) => FirstOf(ws, "#" + (ws1 + (name + (ws2 + ArgsText(args, rest)))));
    case Character(ws, ws1, body) => FirstOf(ws, "'" + (ws1 + (body + ("'" + rest))));
    case Number(ws, body, suffix) =>
      FirstOf(ws, body + (suffix + rest));
      FirstOf(body, suffix + rest);
    case Variable(ws, name) =>
      FirstOf(ws, name + rest);
      FirstOf(name, rest);
  }

  lemma {:induction false} ExprStart(e: Expr, rest: string)
    requires WellFormed(e) && (EndsOpen(e) ==> rest == "")
    ensures AfterOp(First(Text(e, rest)))
  {
    match e
    case Leaf(v) => ValueStart(v, rest);
    case Binary(_, left, ws, _, text, right) => ExprStart(left, ws + (text + Text(right, rest)));
    case Cond(test, ws, yes, ws1, no) => ExprStart(test, ws + ("?" + Text(yes, ws1 + (":" + Text(no, rest)))));
  }

  // ---------- values and levels ----------

  // parse_value decides by the first character behind the blanks

  lemma ReadsParen(env: Env, ws: string, s: string, val: Num, rest: string)
    requires AllSpace(ws) && ParseLevel(env, COND, s) == Ok(")" + rest, val)
    ensures ParseValue(env, ws + ("(" + s)) == Ok(rest, val)
  {
    var t, close := "(" + s, ")" + rest;
    SkipSpaceOver(ws, t);
    assert SkipSpace(t) == t && t[1..] == s;
    assert SkipSpace(close) == close && close[1..] == rest;
  }

  /** White space in front changes nothing. */
  lemma ReadsBehind(env: Env, ws: string, t: string)
    requires AllSpace(ws) && t != "" && !IsSpace(t[0])
    ensures SkipSpace(ws + t) == t && ParseValue(env, ws + t) == ParseValue(env, t)
  {
    SkipSpaceOver(ws, t);
    assert SkipSpace(t) == t;
  }

  lemma ReadsUnary(env: Env, ws: string, op: UnOp, s: string)
    requires AllSpace(ws)
    ensures ParseValue(env, ws + (UnText(op) + s)) == Unary(op, ParseValue(env, s))
  {
    var t := UnText(op) + s;
    assert t[0] == UnText(op)[0] && t[1..] == s;
    ReadsBehind(env, ws, t);
    match op
    case LogNot => assert t[0] == '!';
    case Negate => assert t[0] == '-';
    case Complement => assert t[0] == '~';
  }

  lemma ReadsMacro(env: Env, ws: string, s: string)
    requires AllSpace(ws)
    ensures ParseValue(env, ws + ("#" + s)) == ParseMacro(s)
  {
    var t := "#" + s;
    SkipSpaceOver(ws, t);
    assert SkipSpace(t) == t && t[1..] == s;
  }

  lemma ReadsCharacter(env: Env, ws: string, s: string)
    requires AllSpace(ws)
    ensures ParseValue(env, ws + ("'" + s)) == ParseCharacter(s)
  {
    var t := "'" + s;
    SkipSpaceOver(ws, t);
    assert SkipSpace(t) == t && t[1..] == s;
  }

  lemma ReadsDefined(env: Env, ws: string, s: string)
    requires AllSpace(ws) && !IsAlnum(First(s))
    ensures ParseValue(env, ws + ("defined" + s)) == ParseDefined(env, s)
  {
    var t := "defined" + s;
    assert t[0] == 'd' && t[..7] == "defined" && t[7..] == s && At(t, 7) == First(s);
    ReadsBehind(env, ws, t);
    assert IsKeywordAt(t);
  }

  lemma DigitIsNoKeyword(t: string)
    requires IsDigit(First(t))
    ensures !IsKeywordAt(t)
  {
    assert "defined"[0] == 'd';
    assert |t| >= 7 ==> t[..7][0] == t[0];
  }

  lemma ReadsNumber(env: Env, ws: string, t: string)
    requires AllSpace(ws) && IsDigit(First(t))
    ensures ParseValue(env, ws + t) == ParseNumber(t)
  {
    ReadsBehind(env, ws, t);
    DigitIsNoKeyword(t);
  }

  lemma ReadsName(env: Env, ws: string, t: string)
    requires AllSpace(ws) && IsVarFirst(First(t)) && !IsKeywordAt(t) && ParseVariable(t).Some?
    ensures ParseValue(env, ws + t) == Ok(ParseVariable(t).value.0, Num(env.variable(ParseVariable(t).value.1)))
  {
    ReadsBehind(env, ws, t);
    assert !IsDigit(t[0]) && t[0] !in {'(', '!', '-', '~', '#', '\''} && SkipSpace(t) == t;
  }

  lemma NameIsNoKeyword(name: string, rest: string)
    requires IsName(name) && !IsKeyword(name) && !IsIdent(First(rest))
    ensures !IsKeywordAt(name + rest)
  {
    var t, d := name + rest, "defined";
    assert forall i :: 0 <= i < 7 ==> IsIdent(d[i]);
    assert |name| < |t| ==> t[|name|] == First(rest);
    assert |name| < 7 <= |t| ==> t[..7][|name|] == First(rest);
    assert |name| >= 7 ==> t[..7] == name[..7];
  }

  ghost predicate ReadAs(env: Env, r: Parse, v: Value, rest: string) {
    r.Ok? && r.val == ValueOf(env, v) && SkipSpace(r.rest) == SkipSpace(rest)
  }

  lemma CompleteToken(env: Env, v: Value, rest: string)
    requires ValueTokens(v) && !v.Empty? && !v.Paren? && !v.UnaryOp? && !IsIdent(First(rest))
    ensures ReadAs(env, ParseValue(env, ValueText(v, rest)), v, rest)
  {
    match v
    case Defined(ws, ws1, name, ws2) =>
      CompleteDefined(env, v, rest);
      ReadsDefined(env, ws, ws1 + (name + (ws2 + rest)));
    case DefinedParen(ws, ws1, ws2, name, ws3) =>
      CompleteDefinedParen(env, v, rest);
      ReadsDefined(env, ws, ws1 + ("(" + (ws2 + (name + (ws3 + (")" + rest))))));
    case Macro(ws, ws1, name, ws2, args) =>
      CompleteMacro(v, rest);
      ReadsMacro(env, ws, ws1 + (name + (ws2 + ArgsText(args, rest))));
    case Character(ws, ws1, body) =>
      CompleteCharacter(ws1, body, rest);
      ReadsCharacter(env, ws, ws1 + (body + ("'" + rest)));
    case Number(ws, body, suffix) =>
      CompleteNumber(body, suffix, rest);
      FirstOf(body, suffix + rest);
      ReadsNumber(env, ws, body + (suffix + rest));
    case Variable(ws, name) =>
      CompleteName(name, rest);
      NameIsNoKeyword(name, rest);
      ReadsName(env, ws, name + rest);
  }

  /** parse_value reads a value back, except perhaps for blanks behind it. */
  lemma {:induction false} CompleteValue(env: Env, v: Value, rest: string)
    requires ValueTokens(v) && ValueDerives(v) && !IsIdent(First(rest)) && (ValueEndsOpen(v) ==> rest == "")
    ensures ReadAs(env, ParseValue(env, ValueText(v, rest)), v, rest)
    decreases v, 0
  {
    match v
    case Empty(ws) =>
      SkipSpaceOver(ws, "");
    case UnaryOp(ws, op, x) =>
      CompleteValue(env, x, rest);
      ReadsUnary(env, ws, op, ValueText(x, rest));
    case Paren(ws, e, ws1) =>
      var close := ")" + rest;
      CloserFollows(COND, ws1, close);
      CompleteLevel(env, COND, e, ws1 + close);
      ReadsParen(env, ws, Text(e, ws1 + close), Eval(env, e), rest);
    case _ =>
      CompleteToken(env, v, rest);
  }

  /** A closing parenthesis, a '?' or a ':' ends every level it does not belong to. */
  lemma CloserFollows(level: nat, ws: string, s: string)
    requires AllSpace(ws) && (First(s) == ')' || First(s) == ':' || (First(s) == '?' && level < COND))
    ensures Follows(level, ws + s) && SkipSpace(ws + s) == s
  {
    SkipSpaceOver(ws, s);
    FirstOf(ws, s);
    assert SkipSpace(s) == s;
  }

  lemma OpFollows(level: nat, op: BinOp, ws: string, text: string, s: string)
    requires IsSpelling(level, op, text) && AfterOp(First(s)) && AllSpace(ws)
    ensures Follows(level - 1, ws + (text + s)) && SkipSpace(ws + (text + s)) == text + s
  {
    SpellingMatches(level, op, text, s);
    SkipSpaceOver(ws, text + s);
    FirstOf(ws, text + s);
  }

  lemma {:induction false} CompleteLeft(env: Env, level: nat, e: Expr, rest: string)
    requires 1 <= level <= COND && WellFormed(e) && LevelOf(e) < level && Follows(level - 1, rest) && (EndsOpen(e) ==> rest == "")
    ensures var r := ParseLeft(env, level, Text(e, rest));
            r.Ok? && r.val == Eval(env, e) && SkipSpace(r.rest) == SkipSpace(rest)
    decreases e, level, 0
  {
    if level == 1 {
      CompleteValue(env, e.v, rest);
    } else {
      CompleteLevel(env, level - 1, e, rest);
      assert SkipSpace(SkipSpace(rest)) == SkipSpace(rest);
    }
  }

  /** Each level reads an expression of the level back, and the blanks behind it. */
  lemma {:induction false} CompleteLevel(env: Env, level: nat, e: Expr, rest: string)
    requires 1 <= level <= COND && WellFormed(e) && LevelOf(e) <= level && Follows(level, rest) && (EndsOpen(e) ==> rest == "")
    ensures ParseLevel(env, level, Text(e, rest)) == Ok(SkipSpace(rest), Eval(env, e))
    decreases e, level, 1
  {
    if LevelOf(e) < level {
      CompleteLeft(env, level, e, rest);
    } else if level < COND {
      var Binary(_, left, ws, op, text, right) := e;
      var more := Text(right, rest);
      ExprStart(right, rest);
      OpFollows(level, op, ws, text, more);
      SpellingMatches(level, op, text, more);
      CompleteLeft(env, level, left, ws + (text + more));
      CompleteLevel(env, level, right, rest);
    } else {
      CompleteCond(env, e, rest);
    }
  }

  lemma {:induction false} CompleteCond(env: Env, e: Expr, rest: string)
    requires e.Cond? && WellFormed(e) && Follows(COND, rest) && (EndsOpen(e) ==> rest == "")
    ensures ParseLevel(env, COND, Text(e, rest)) == Ok(SkipSpace(rest), Eval(env, e))
    decreases e, COND, 0
  {
    var Cond(test, ws, yes, ws1, no) := e;
    var s2 := ":" + Text(no, rest);
    var s1 := "?" + Text(yes, ws1 + s2);
    CloserFollows(COND - 1, ws, s1);
    CloserFollows(COND, ws1, s2);
    CompleteLeft(env, COND, test, ws + s1);
    assert s1[1..] == Text(yes, ws1 + s2) && s2[1..] == Text(no, rest);
    CompleteLevel(env, COND, yes, ws1 + s2);
    assert SkipSpace(s2) == s2;
    CompleteLevel(env, COND, no, rest);
  }
}
