/**
 Whatever the parser accepts is text of the language, up to the cursor it returns, and has
 the value it returns.
 */
module IfSoundness {
  import opened CStrings
  import opened Sequences
  import opened CText
  import opened CNumbers
  import opened Wrappers
  import opened IfParser
  import opened IfGrammar

  lemma NoBlankBefore(ws: string, s: string)
    requires AllSpace(ws) && !IsSpace(First(ws + s))
    ensures ws == ""
  {
    assert ws != "" ==> First(ws + s) == First(ws);
  }

  lemma SplitFirst(s: string)
    requires s != ""
    ensures s == [s[0]] + s[1..]
  {
  }

  lemma SoundVariable(s: string) returns (ws: string, name: string)
    requires ParseVariable(s).Some?
    ensures name == ParseVariable(s).value.1
    ensures AllSpace(ws) && IsName(name) && s == ws + (name + ParseVariable(s).value.0)
    ensures !IsIdent(First(ParseVariable(s).value.0))
  {
    ws := SkipSpaceSplits(s);
    var t := SkipSpace(s);
    var n := Run(t, IsIdent);
    name := t[..n];
    assert t == t[..n] + t[n..];
  }

  lemma {:induction false} SoundArgs(s: string) returns (args: seq<Arg>)
    requires s != "" && ParseArgs(s).Some?
    ensures args != [] && args[0].sep == s[0] && ArgsOk(args)
    ensures s == ArgsText(args, ParseArgs(s).value)
    decreases |s|
  {
    var ws, name := SoundVariable(s[1..]);
    var rest := ParseVariable(s[1..]).value.0;
    var ws1 := SkipSpaceSplits(rest);
    var t := SkipSpace(rest);
    SplitFirst(s);
    SplitFirst(t);
    var more := [];
    if t[0] != ')' {
      more := SoundArgs(t);
      assert ws1 == "" ==> t == rest;
    }
    args := [Arg(s[0], ws, name, ws1)] + more;
    assert args[1..] == more;
  }

  lemma SoundNumber(t: string) returns (body: string, suffix: string)
    requires t != "" && IsDigit(t[0])
    ensures ParseNumber(t).Ok? && IsNumber(body) && AllQualifiers(suffix)
    ensures t == body + (suffix + ParseNumber(t).rest)
    ensures ParseNumber(t).val == Num(Clamp(Magnitude(body, 0).val))
  {
    NumberParts(t);
    MagnitudePrefix(t);
    var n := Magnitude(t, 0).len;
    body := t[..n];
    suffix := NumberSuffix(t[n..]);
    assert t == body + t[n..];
  }

  lemma NumberParts(t: string)
    requires t != "" && IsDigit(t[0])
    ensures var m := Magnitude(t, 0);
            ParseNumber(t) == Ok(t[m.len..][Run(t[m.len..], IsQualifier)..], Num(Clamp(m.val)))
  {
    assert SkipSpace(t) == t;
  }

  lemma NumberSuffix(u: string) returns (suffix: string)
    ensures AllQualifiers(suffix) && u == suffix + u[Run(u, IsQualifier)..]
  {
    suffix := u[..Run(u, IsQualifier)];
  }

  lemma {:induction false} DigitRunPrefix(s: string, base: nat)
    ensures DigitRun(s[..DigitRun(s, base)], base) == DigitRun(s, base)
  {
    var n := DigitRun(s, base);
    DigitRunHolds(s, base);
    DigitRunExact(s[..n], "", base);
    assert s[..n] + "" == s[..n];
  }

  /** What strtol reads off a digit it reads again from just those characters. */
  lemma MagnitudePrefix(t: string)
    requires t != "" && IsDigit(t[0])
    ensures Magnitude(t, 0).len > 0
    ensures Magnitude(t[..Magnitude(t, 0).len], 0) == Magnitude(t, 0)
  {
    var n := Magnitude(t, 0).len;
    var body := t[..n];
    if HasHexPrefix(t) {
      DigitRunPrefix(t[2..], 16);
      assert body[2..] == t[2..][..n - 2];
      assert DigitRun(t[2..], 16) >= 1;
      assert HasHexPrefix(body);
      assert t[2..n] == body[2..n];
    } else {
      var b := if First(t) == '0' then 8 else 10;
      DigitRunPrefix(t, b);
      assert n == DigitRun(t, b) >= 1;
      assert |body| >= 3 ==> body[0] == t[0] && body[1] == t[1] && body[2] == t[2];
      assert body[..n] == t[..n];
    }
  }

  lemma CharValueStops(q: string, s: string)
    requires EndsInQuote(q)
    ensures CharValue(q + s) == CharValue(q)
  {
    SameStart(q, s);
    if First(q) == '\\' && At(q, 1) == 'x' {
      EscapeStops(q, s, 2, 16);
      HexValue(q);
      HexValue(q + s);
    } else if First(q) == '\\' {
      EscapeStops(q, s, 1, 8);
      EscapeValue(q, q + s);
    }
  }

  lemma SameStart(q: string, s: string)
    requires EndsInQuote(q)
    ensures First(q + s) == First(q) && (First(q) == '\\' ==> |q| > 1 && At(q + s, 1) == At(q, 1))
  {
  }

  lemma HexValue(t: string)
    requires First(t) == '\\' && At(t, 1) == 'x'
    ensures CharValue(t) == AsChar(Strtol(t[2..], 16).val)
  {
  }

  lemma EscapeValue(t: string, u: string)
    requires First(t) == First(u) == '\\' && At(t, 1) == At(u, 1) != 'x'
    requires Strtol(t[1..], 8).val == Strtol(u[1..], 8).val
    ensures CharValue(t) == CharValue(u)
  {
  }

  lemma EscapeStops(q: string, s: string, i: nat, base: nat)
    requires EndsInQuote(q) && i < |q| && (base == 8 || base == 16)
    ensures Strtol((q + s)[i..], base).val == Strtol(q[i..], base).val
  {
    assert (q + s)[i..] == q[i..] + s;
    StrtolStopsAtQuote(q[i..], s, base);
  }

  lemma SoundCharacter(s: string) returns (ws: string, body: string)
    requires ParseCharacter(s).Ok?
    ensures AllSpace(ws) && !IsSpace(First(body)) && forall i :: 0 <= i < |body| ==> NotQuote(body[i])
    ensures s == ws + (body + ("'" + ParseCharacter(s).rest))
    ensures ParseCharacter(s).val == Num(CharValue(body + "'"))
  {
    ws := SkipSpaceSplits(s);
    var t := SkipSpace(s);
    var n := Run(t, NotQuote);
    body := t[..n];
    SplitFirst(t[n..]);
    assert t == body + t[n..] && t[n..][1..] == t[n + 1..];
    Assoc(body, "'", t[n + 1..]);
    CharValueStops(body + "'", t[n + 1..]);
  }

  lemma SoundDefined(env: Env, ws: string, s: string) returns (v: Value)
    requires AllSpace(ws) && !IsAlnum(First(s))
    requires ParseDefined(env, s).Ok?
    ensures ValueTokens(v) && ValueDerives(v) && !ValueEndsOpen(v)
    ensures ws + ("defined" + s) == ValueText(v, ParseDefined(env, s).rest)
    ensures ValueOf(env, v) == ParseDefined(env, s).val
  {
    var ws1 := SkipSpaceSplits(s);
    var t := SkipSpace(s);
    var paren := First(t) == '(';
    var t1 := if paren then t[1..] else t;
    var ws2, name := SoundVariable(t1);
    var ws3 := SkipSpaceSplits(ParseVariable(t1).value.0);
    var u := SkipSpace(ParseVariable(t1).value.0);
    if paren {
      SplitFirst(t);
      SplitFirst(u);
      v := DefinedParen(ws, ws1, ws2, name, ws3);
    } else {
      NoBlankBefore(ws2, name + ParseVariable(t).value.0);
      assert t == name + (ws3 + u);
      v := Defined(ws, ws1, name, ws3);
      assert ws1 == "" ==> First(s) == name[0];
    }
  }

  // ---------- values and levels ----------

  /** The tree of what parse_value read, blanks in front included. */
  lemma {:induction false} SoundUnary(env: Env, ws: string, op: UnOp, t: string) returns (v: Value)
    requires AllSpace(ws) && t != "" && [t[0]] == UnText(op) && ParseValue(env, t[1..]).Ok?
    ensures ValueTokens(v) && ValueDerives(v)
    ensures var r := ParseValue(env, t[1..]);
            ws + t == ValueText(v, r.rest) && ValueOf(env, v) == ApplyUn(op, r.val) && (ValueEndsOpen(v) ==> r.rest == "")
    decreases |t|, 0, 0
  {
    SplitFirst(t);
    var x := SoundValue(env, t[1..]);
    v := UnaryOp(ws, op, x);
  }

  lemma {:induction false} SoundValue(env: Env, s: string) returns (v: Value)
    requires ParseValue(env, s).Ok?
    ensures ValueTokens(v) && ValueDerives(v)
    ensures s == ValueText(v, ParseValue(env, s).rest)
    ensures ValueOf(env, v) == ParseValue(env, s).val
    ensures ValueEndsOpen(v) ==> ParseValue(env, s).rest == ""
    decreases |s|, 0
  {
    var ws := SkipSpaceSplits(s);
    var t := SkipSpace(s);
    if t == "" {
      v := Empty(ws);
    } else {
      SplitFirst(t);
      if t[0] == '(' {
        var e, ws1 := SoundLevel(env, COND, t[1..]);
        var r := ParseLevel(env, COND, t[1..]);
        SplitFirst(r.rest);
        v := Paren(ws, e, ws1);
      } else if t[0] == '!' {
        v := SoundUnary(env, ws, LogNot, t);
      } else if t[0] == '-' {
        v := SoundUnary(env, ws, Negate, t);
      } else if t[0] == '~' {
        v := SoundUnary(env, ws, Complement, t);
      } else {
        v := SoundToken(env, ws, t);
      }
    }
  }

  /** The remaining cases of parse_value, which do not recurse into expressions. */
  lemma SoundToken(env: Env, ws: string, t: string) returns (v: Value)
    requires AllSpace(ws) && t != "" && !IsSpace(t[0]) && t[0] != '(' && t[0] != '!' && t[0] != '-' && t[0] != '~'
    requires ParseValue(env, t).Ok?
    ensures ValueTokens(v) && ValueDerives(v) && !ValueEndsOpen(v)
    ensures ws + t == ValueText(v, ParseValue(env, t).rest)
    ensures ValueOf(env, v) == ParseValue(env, t).val
  {
    SplitFirst(t);
    if t[0] == '#' {
      v := SoundMacro(env, ws, t[1..]);
    } else if t[0] == '\'' {
      var ws1, body := SoundCharacter(t[1..]);
      v := Character(ws, ws1, body);
    } else if IsKeywordAt(t) {
      KeywordSplits(t);
      v := SoundDefined(env, ws, t[7..]);
    } else if IsDigit(t[0]) {
      v := SoundNumberToken(env, ws, t);
    } else {
      v := SoundVariableToken(env, ws, t);
    }
  }

  lemma KeywordSplits(t: string)
    requires IsKeywordAt(t)
    ensures t == "defined" + t[7..] && !IsAlnum(First(t[7..]))
  {
  }

  lemma SoundNumberToken(env: Env, ws: string, t: string) returns (v: Value)
    requires AllSpace(ws) && t != "" && IsDigit(t[0])
    ensures ParseNumber(t).Ok? && ValueTokens(v) && ValueDerives(v) && !ValueEndsOpen(v)
    ensures ws + t == ValueText(v, ParseNumber(t).rest)
    ensures ValueOf(env, v) == ParseNumber(t).val
  {
    var body, suffix := SoundNumber(t);
    v := Number(ws, body, suffix);
  }

  lemma SoundVariableToken(env: Env, ws: string, t: string) returns (v: Value)
    requires AllSpace(ws) && !IsSpace(First(t)) && !IsKeywordAt(t) && ParseVariable(t).Some?
    ensures ValueTokens(v) && ValueDerives(v) && !ValueEndsOpen(v)
    ensures ws + t == ValueText(v, ParseVariable(t).value.0)
    ensures ValueOf(env, v) == Num(env.variable(ParseVariable(t).value.1))
  {
    var name := SoundName(t);
    NotKeyword(name, ParseVariable(t).value.0);
    v := Variable(ws, name);
  }

  lemma SoundName(t: string) returns (name: string)
    requires !IsSpace(First(t)) && ParseVariable(t).Some?
    ensures name == ParseVariable(t).value.1 && IsName(name) && t == name + ParseVariable(t).value.0
    ensures !IsIdent(First(ParseVariable(t).value.0))
  {
    var ws;
    ws, name := SoundVariable(t);
    NoBlankBefore(ws, name + ParseVariable(t).value.0);
  }

  lemma SoundMacro(env: Env, ws: string, s: string) returns (v: Value)
    requires AllSpace(ws) && ParseMacro(s).Ok?
    ensures ValueTokens(v) && ValueDerives(v) && !ValueEndsOpen(v)
    ensures ws + ("#" + s) == ValueText(v, ParseMacro(s).rest)
    ensures ValueOf(env, v) == ParseMacro(s).val
  {
    var ws1, name := SoundVariable(s);
    var ws2 := SkipSpaceSplits(ParseVariable(s).value.0);
    var args := SoundArgs(SkipSpace(ParseVariable(s).value.0));
    v := Macro(ws, ws1, name, ws2, args);
  }

  lemma NotKeyword(name: string, rest: string)
    requires !IsKeywordAt(name + rest) && !IsIdent(First(rest))
    ensures !IsKeyword(name)
  {
    if |name| >= 7 {
      assert (name + rest)[..7] == name[..7];
    }
  }

  lemma SpellingOfMatch(level: nat, t: string)
    requires MatchOp(level, t).IsOp?
    ensures 1 <= level < COND
    ensures IsSpelling(level, MatchOp(level, t).op, t[..MatchOp(level, t).len])
  {
  }

  /** The left operand of a level. */
  function ParseLeft(env: Env, level: nat, s: string): Parse
    requires 1 <= level <= COND
  {
    if level == 1 then ParseValue(env, s) else ParseLevel(env, level - 1, s)
  }

  lemma {:induction false} SoundLeft(env: Env, level: nat, s: string) returns (e: Expr, ws: string)
    requires 1 <= level <= COND && ParseLeft(env, level, s).Ok?
    ensures WellFormed(e) && LevelOf(e) < level && AllSpace(ws)
    ensures s == Text(e, ws + SkipSpace(ParseLeft(env, level, s).rest))
    ensures Eval(env, e) == ParseLeft(env, level, s).val
    ensures EndsOpen(e) ==> ws == "" && SkipSpace(ParseLeft(env, level, s).rest) == ""
    decreases |s|, level, 0
  {
    var rest := ParseLeft(env, level, s).rest;
    if level == 1 {
      var v := SoundValue(env, s);
      e := Leaf(v);
      ws := SkipSpaceSplits(rest);
    } else {
      e, ws := SoundLevel(env, level - 1, s);
      assert SkipSpace(rest) == rest;
    }
  }

  /** The tree of what one level read, and the blanks skipped behind it. */
  lemma {:induction false} SoundLevel(env: Env, level: nat, s: string) returns (e: Expr, ws: string)
    requires 1 <= level <= COND && ParseLevel(env, level, s).Ok?
    ensures WellFormed(e) && LevelOf(e) <= level && AllSpace(ws)
    ensures s == Text(e, ws + ParseLevel(env, level, s).rest)
    ensures Eval(env, e) == ParseLevel(env, level, s).val
    ensures EndsOpen(e) ==> ws == "" && ParseLevel(env, level, s).rest == ""
    decreases |s|, level, 1
  {
    e, ws := SoundLeft(env, level, s);
    var left := ParseLeft(env, level, s);
    var t := SkipSpace(left.rest);
    if level == COND {
      if First(t) == '?' {
        e, ws := SoundCond(env, s, e, ws, t);
      }
    } else {
      var m := MatchOp(level, t);
      if m.IsOp? {
        var right, ws2 := SoundLevel(env, level, t[m.len..]);
        e := SoundBinary(level, t, s, e, ws, right, ws2 + ParseLevel(env, level, t[m.len..]).rest);
        ws := ws2;
      }
    }
  }

  lemma SoundBinary(level: nat, t: string, s: string, left: Expr, ws: string, right: Expr, rest: string) returns (e: Expr)
    requires MatchOp(level, t).IsOp? && s == Text(left, ws + t) && t[MatchOp(level, t).len..] == Text(right, rest)
    requires WellFormed(left) && LevelOf(left) < level && !EndsOpen(left) && AllSpace(ws)
    requires WellFormed(right) && LevelOf(right) <= level
    ensures e == Binary(level, left, ws, MatchOp(level, t).op, t[..MatchOp(level, t).len], right)
    ensures WellFormed(e) && s == Text(e, rest)
  {
    SpellingOfMatch(level, t);
    var n := MatchOp(level, t).len;
    assert t == t[..n] + t[n..];
    e := Binary(level, left, ws, MatchOp(level, t).op, t[..n], right);
  }

  lemma {:induction false} SoundCond(env: Env, s: string, test: Expr, ws: string, t: string) returns (e: Expr, ws': string)
    requires ParseLevel(env, COND, s).Ok? && ParseLeft(env, COND, s).Ok? && t == SkipSpace(ParseLeft(env, COND, s).rest)
    requires First(t) == '?' && |t| <= |s|
    requires WellFormed(test) && LevelOf(test) < COND && AllSpace(ws) && !EndsOpen(test)
    requires s == Text(test, ws + t) && Eval(env, test) == ParseLeft(env, COND, s).val
    ensures WellFormed(e) && LevelOf(e) <= COND && AllSpace(ws')
    ensures s == Text(e, ws' + ParseLevel(env, COND, s).rest)
    ensures Eval(env, e) == ParseLevel(env, COND, s).val
    ensures EndsOpen(e) ==> ws' == "" && ParseLevel(env, COND, s).rest == ""
    decreases |s|, COND, 0
  {
    SplitFirst(t);
    var yes, ws1 := SoundLevel(env, COND, t[1..]);
    var u := ParseLevel(env, COND, t[1..]).rest;
    assert SkipSpace(u) == u;
    SplitFirst(u);
    var no, ws2 := SoundLevel(env, COND, u[1..]);
    e, ws' := Cond(test, ws, yes, ws1, no), ws2;
  }
}
