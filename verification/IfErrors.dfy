/**
 What is left when an #if expression cannot be read to its end: the operand in front of the error keeps its value.
 */
module IfErrors {
  import opened CStrings
  import opened CText
  import opened CNumbers
  import opened Wrappers
  import opened IfParser
  import opened IfGrammar
  import opened IfSoundness
  import opened IfCompleteness
  import opened IfTheorems
  import opened IfLaws

  /** No operand begins like this. */
  predicate BeginsNothing(s: string) {
    && s != "" && !IsSpace(s[0]) && !IsDigit(s[0]) && !IsVarFirst(s[0])
    && s[0] != '(' && s[0] != '!' && s[0] != '-' && s[0] != '~' && s[0] != '#' && s[0] != '\''
  }

  lemma NothingIsRead(env: Env, s: string)
    requires BeginsNothing(s)
    ensures ParseValue(env, s) == Fail(Num(0)) && ParseVariable(s) == None
  {
    assert SkipSpace(s) == s;
    assert !IsKeywordAt(s);
  }

  lemma {:induction false} FailsAbove(env: Env, level: nat, up: nat, s: string, n: Num)
    requires 1 <= level <= up <= COND && ParseLevel(env, level, s) == Fail(n)
    ensures ParseLevel(env, up, s) == Fail(n)
    decreases up
  {
    if level < up { FailsAbove(env, level, up - 1, s, n); }
  }

  lemma NoLevelReads(env: Env, level: nat, s: string)
    requires 1 <= level <= COND && BeginsNothing(s)
    ensures ParseLevel(env, level, s) == Fail(Num(0))
  {
    NothingIsRead(env, s);
    FailsAbove(env, 1, level, s, Num(0));
  }

  /** Nothing readable has value 0. */
  lemma JunkIsZero(env: Env, junk: string)
    requires BeginsNothing(junk)
    ensures ParseIfExpression(env, junk) == Fail(Num(0))
  {
    NoLevelReads(env, COND, junk);
  }

  /** When there is no right operand the left one counts. */
  lemma LeftIsKept(env: Env, v: Value, n: int, level: nat, op: BinOp, text: string, junk: string)
    requires IsOperand(v) && Reads(env, TextOf(v), n) && IsSpelling(level, op, text) && BeginsNothing(junk) && AfterOp(junk[0])
    ensures ParseIfExpression(env, TextOf(v) + (text + junk)) == Fail(Num(n))
  {
    var s := TextOf(v) + (text + junk);
    LeftIsRead(env, v, n, level, op, text, junk);
    SpellingMatches(level, op, text, junk);
    NoLevelReads(env, level, junk);
    RightFails(env, level, s, text + junk, n, op, |text|);
    FailsAbove(env, level, COND, s, Num(n));
  }

  lemma LeftIsRead(env: Env, v: Value, n: int, level: nat, op: BinOp, text: string, junk: string)
    requires IsOperand(v) && Reads(env, TextOf(v), n) && IsSpelling(level, op, text) && BeginsNothing(junk) && AfterOp(junk[0])
    ensures var r := ParseLeft(env, level, TextOf(v) + (text + junk)); r.Ok? && r.val == Num(n) && SkipSpace(r.rest) == text + junk
  {
    OperandIsRead(env, v);
    Behind(v, text + junk);
    assert "" + (text + junk) == text + junk;
    OpFollows(level, op, "", text, junk);
    LeafOk(v);
    CompleteLeft(env, level, Leaf(v), text + junk);
  }

  lemma RightFails(env: Env, level: nat, s: string, t: string, n: int, op: BinOp, len: nat)
    requires 1 <= level < COND && len <= |t| && MatchOp(level, t) == IsOp(op, len) && ParseLevel(env, level, t[len..]) == Fail(Num(0))
    requires var left := ParseLeft(env, level, s); left.Ok? && left.val == Num(n) && SkipSpace(left.rest) == t
    ensures ParseLevel(env, level, s) == Fail(Num(n))
  {
  }

  /** So it does in front of a '?' with nothing behind it. */
  lemma TestIsKept(env: Env, v: Value, n: int, junk: string)
    requires IsOperand(v) && Reads(env, TextOf(v), n) && BeginsNothing(junk)
    ensures ParseIfExpression(env, TextOf(v) + ("?" + junk)) == Fail(Num(n))
  {
    var rest := "?" + junk;
    OperandIsRead(env, v);
    Behind(v, rest);
    assert "" + rest == rest && rest[1..] == junk;
    CloserFollows(COND - 1, "", rest);
    LeafOk(v);
    CompleteLeft(env, COND, Leaf(v), rest);
    NoLevelReads(env, COND, junk);
  }

  /** And in front of "?w", with no ':' or nothing behind that. */
  lemma TestIsKeptOn(env: Env, v: Value, n: int, w: Value, m: int, junk: string)
    requires Operands(env, v, n, w, m) && BeginsNothing(junk)
    ensures ParseIfExpression(env, TextOf(v) + ("?" + TextOf(w))) == Fail(Num(n))
    ensures ParseIfExpression(env, TextOf(v) + ("?" + (TextOf(w) + (":" + junk)))) == Fail(Num(n))
  {
    TestIsRead(env, v, n, TextOf(w));
    OperandIsRead(env, w);
    TestIsRead(env, v, n, TextOf(w) + (":" + junk));
    ChoiceIsRead(env, w, m, junk);
    NoLevelReads(env, COND, junk);
  }

  lemma TestIsRead(env: Env, v: Value, n: int, s: string)
    requires IsOperand(v) && Reads(env, TextOf(v), n)
    ensures var r := ParseLeft(env, COND, TextOf(v) + ("?" + s));
            r.Ok? && r.val == Num(n) && SkipSpace(r.rest) == "?" + s && ("?" + s)[1..] == s
  {
    var rest := "?" + s;
    OperandIsRead(env, v);
    Behind(v, rest);
    assert "" + rest == rest;
    CloserFollows(COND - 1, "", rest);
    LeafOk(v);
    CompleteLeft(env, COND, Leaf(v), rest);
    assert SkipSpace(rest) == rest;
  }

  lemma ChoiceIsRead(env: Env, w: Value, m: int, junk: string)
    requires IsOperand(w) && Reads(env, TextOf(w), m)
    ensures ParseLevel(env, COND, TextOf(w) + (":" + junk)) == Ok(":" + junk, Num(m)) && (":" + junk)[1..] == junk
  {
    var rest := ":" + junk;
    OperandIsRead(env, w);
    Behind(w, rest);
    assert "" + rest == rest;
    CloserFollows(COND, "", rest);
    LeafOk(w);
    CompleteLevel(env, COND, Leaf(w), rest);
    assert SkipSpace(rest) == rest;
  }

  /** An operand whose parenthesis is not closed has its value all the same. */
  lemma OpenParenIsKept(env: Env, v: Value, n: int)
    requires IsOperand(v) && Reads(env, TextOf(v), n)
    ensures ParseIfExpression(env, "(" + TextOf(v)) == Fail(Num(n))
  {
    var s := "(" + TextOf(v);
    assert SkipSpace(s) == s && s[1..] == TextOf(v);
    assert SkipSpace("") == "" && First("") == NUL;
    assert ParseValue(env, s) == Fail(Num(n));
    assert ParseLevel(env, 1, s) == Fail(Num(n));
    FailsAbove(env, 1, COND, s, Num(n));
  }

  /** "defined" without a name, or with a parenthesis that is not closed, is 0; */
  lemma NotDefinedIsZero(env: Env, name: string, junk: string)
    requires IsName(name) && BeginsNothing(junk)
    ensures ParseIfExpression(env, "defined" + junk) == Fail(Num(0))
    ensures ParseIfExpression(env, "defined" + ("(" + name)) == Fail(Num(0))
  {
    NothingIsRead(env, junk);
    CompleteName(name, "");
    assert name + "" == name;
    DefinedFails(env, junk);
    DefinedFails(env, "(" + name);
  }

  lemma DefinedFails(env: Env, rest: string)
    requires !IsAlnum(First(rest)) && ParseDefined(env, rest) == Fail(Num(0))
    ensures ParseIfExpression(env, "defined" + rest) == Fail(Num(0))
  {
    var s := "defined" + rest;
    assert s[0] == 'd' && SkipSpace(s) == s && s[..7] == "defined" && s[7..] == rest;
    assert At(s, 7) == First(rest);
    assert ParseLevel(env, 1, s) == Fail(Num(0));
    FailsAbove(env, 1, COND, s, Num(0));
  }

  /** and so is a '#' with anything but a name and arguments behind it. */
  lemma NoAssertionIsZero(env: Env, name: string, junk: string)
    requires IsName(name) && BeginsNothing(junk)
    ensures ParseIfExpression(env, "#" + junk) == Fail(Num(0)) && ParseIfExpression(env, "#" + name) == Fail(Num(0))
    ensures ParseIfExpression(env, "#" + (name + ("(" + junk))) == Fail(Num(0))
  {
    NothingIsRead(env, junk);
    CompleteName(name, "");
    assert name + "" == name && First("") == NUL;
    HashFails(env, junk);
    HashFails(env, name);
    var args := "(" + junk;
    CompleteName(name, args);
    assert args[1..] == junk && SkipSpace(args) == args;
    HashFails(env, name + args);
  }

  lemma HashFails(env: Env, rest: string)
    requires ParseMacro(rest) == Fail(Num(0))
    ensures ParseIfExpression(env, "#" + rest) == Fail(Num(0))
  {
    var s := "#" + rest;
    assert SkipSpace(s) == s && s[1..] == rest;
    assert ParseLevel(env, 1, s) == Fail(Num(0));
    FailsAbove(env, 1, COND, s, Num(0));
  }

  /** The search for the end of a character constant that is not closed goes on behind the text. */
  lemma OpenQuoteOverruns(env: Env, body: string)
    requires forall i :: 0 <= i < |body| ==> body[i] != '\''
    ensures ParseIfExpression(env, "'" + body) == Overrun
  {
    var s := "'" + body;
    assert SkipSpace(s) == s && s[1..] == body;
    var ws := SkipSpaceSplits(body);
    var t := SkipSpace(body);
    assert forall i :: 0 <= i < |t| ==> t[i] == body[|ws| + i];
    RunExact(t, "", NotQuote);
    assert t + "" == t;
    assert ParseLevel(env, 1, s) == Overrun;
    OverrunsAbove(env, COND, s);
  }

  lemma {:induction false} OverrunsAbove(env: Env, up: nat, s: string)
    requires 1 <= up <= COND && ParseLevel(env, 1, s) == Overrun
    ensures ParseLevel(env, up, s) == Overrun
    decreases up
  {
    if up > 1 { OverrunsAbove(env, up - 1, s); }
  }
}
