/**
 What the operators of #if mean, as laws of parsed texts.
 */
module IfLaws {
  import opened CStrings
  import opened CText
  import opened CNumbers
  import opened IfParser
  import opened IfGrammar
  import opened IfCompleteness
  import opened IfTheorems

  /** The whole text is read, as the number. */
  predicate Reads(env: Env, s: string, n: int) { ParseIfExpression(env, s) == Ok("", Num(n)) }

  /** It is read, but C gives it no value. */
  predicate HasNoValue(env: Env, s: string) { ParseIfExpression(env, s) == Ok("", Undef) }

  /** The form of an operand: a number, a name, a character, something in parentheses, and so on. */
  predicate IsOperand(v: Value) { ValueTokens(v) && ValueDerives(v) && !ValueEndsOpen(v) }

  function TextOf(v: Value): string { ValueText(v, "") }

  // ---------- text behind text ----------

  lemma {:induction false} ArgsTextOn(args: seq<Arg>, s: string, rest: string)
    ensures ArgsText(args, s + rest) == ArgsText(args, s) + rest
  {
    if args != [] { ArgsTextOn(args[1..], s, rest); }
  }

  lemma {:induction false} ValueTextOn(v: Value, s: string, rest: string)
    ensures ValueText(v, s + rest) == ValueText(v, s) + rest
  {
    match v
    case Empty(ws) =>
    case Paren(ws, e, ws1) =>
      TextOn(e, ws1 + (")" + s), rest);
      Three(ws1, ")", "", s, rest);
      Three(ws, "(", "", Text(e, ws1 + (")" + s)), rest);
    case UnaryOp(ws, op, x) =>
      ValueTextOn(x, s, rest);
      Three(ws, UnText(op), "", ValueText(x, s), rest);
    case Macro(ws, ws1, name, ws2, args) =>
      ArgsTextOn(args, s, rest);
      Six(ws, "#", ws1, name, ws2, ArgsText(args, s), rest);
    case Defined(ws, ws1, name, ws2) => Six(ws, "defined", ws1, name, ws2, s, rest);
    case DefinedParen(ws, ws1, ws2, name, ws3) => ParenOn(ws, ws1, ws2, name, ws3, s, rest);
    case Character(ws, ws1, body) => Six(ws, "'", ws1, body, "'", s, rest);
    case Number(ws, body, suffix) => Three(ws, body, suffix, s, rest);
    case Variable(ws, name) => Three(ws, name, "", s, rest);
  }

  lemma ParenOn(ws: string, ws1: string, ws2: string, name: string, ws3: string, s: string, rest: string)
    ensures ws + ("defined" + (ws1 + ("(" + (ws2 + (name + (ws3 + (")" + (s + rest))))))))
            == (ws + ("defined" + (ws1 + ("(" + (ws2 + (name + (ws3 + (")" + s)))))))) + rest
  {
    Six(ws2, name, ws3, ")", "", s, rest);
    Six(ws, "defined", ws1, "(", "", ws2 + (name + (ws3 + (")" + s))), rest);
  }

  /** An empty part changes nothing. */
  lemma Three(a: string, b: string, c: string, s: string, rest: string)
    ensures a + (b + (c + (s + rest))) == (a + (b + (c + s))) + rest
    ensures c == "" ==> a + (b + (s + rest)) == (a + (b + s)) + rest
  {
    assert c == "" ==> c + s == s && c + (s + rest) == s + rest;
  }

  lemma Six(a: string, b: string, c: string, d: string, e: string, s: string, rest: string)
    ensures a + (b + (c + (d + (e + (s + rest))))) == (a + (b + (c + (d + (e + s))))) + rest
    ensures e == "" ==> a + (b + (c + (d + (s + rest)))) == (a + (b + (c + (d + s)))) + rest
  {
    assert e == "" ==> e + s == s && e + (s + rest) == s + rest;
  }

  lemma {:induction false} TextOn(e: Expr, s: string, rest: string)
    ensures Text(e, s + rest) == Text(e, s) + rest
  {
    match e
    case Leaf(v) => ValueTextOn(v, s, rest);
    case Binary(_, left, ws, _, text, right) =>
      TextOn(right, s, rest);
      TextOn(left, ws + (text + Text(right, s)), rest);
      assert ws + (text + (Text(right, s) + rest)) == (ws + (text + Text(right, s))) + rest;
    case Cond(test, ws, yes, ws1, no) =>
      TextOn(no, s, rest);
      var tail := ws1 + (":" + Text(no, s));
      assert ws1 + (":" + (Text(no, s) + rest)) == tail + rest;
      TextOn(yes, tail, rest);
      TextOn(test, ws + ("?" + Text(yes, tail)), rest);
      assert ws + ("?" + (Text(yes, tail) + rest)) == (ws + ("?" + Text(yes, tail))) + rest;
  }

  lemma Behind(v: Value, rest: string)
    ensures ValueText(v, rest) == TextOf(v) + rest
  {
    ValueTextOn(v, "", rest);
    assert "" + rest == rest;
  }

  lemma OperandIsRead(env: Env, v: Value)
    requires IsOperand(v)
    ensures ParseIfExpression(env, TextOf(v)) == Ok("", ValueOf(env, v))
  {
    SpellsIsRead(env, Leaf(v), "", Text(Leaf(v), ""));
  }

  lemma UnaryIsRead(env: Env, op: UnOp, v: Value)
    requires IsOperand(v)
    ensures IsOperand(UnaryOp("", op, v)) && TextOf(UnaryOp("", op, v)) == UnText(op) + TextOf(v)
    ensures ParseIfExpression(env, UnText(op) + TextOf(v)) == Ok("", ValueOf(env, UnaryOp("", op, v)))
  {
    var u := UnaryOp("", op, v);
    assert "" + (UnText(op) + TextOf(v)) == UnText(op) + TextOf(v);
    OperandIsRead(env, u);
  }

  // ---------- operators with one operand ----------

  /** !v is 1 when v is 0, and 0 when it is not. */
  lemma NotLaw(env: Env, v: Value, n: int)
    requires IsOperand(v) && Reads(env, TextOf(v), n)
    ensures Reads(env, "!" + TextOf(v), if n == 0 then 1 else 0)
  {
    OperandIsRead(env, v);
    UnaryIsRead(env, LogNot, v);
  }

  /** -v added to v gives 0; the least long has no negative. */
  lemma MinusLaw(env: Env, v: Value, n: int) returns (m: int)
    requires IsOperand(v) && Reads(env, TextOf(v), n) && LONG_MIN <= n <= LONG_MAX
    ensures m + n == 0 && (n != LONG_MIN ==> Reads(env, "-" + TextOf(v), m)) && (n == LONG_MIN ==> HasNoValue(env, "-" + TextOf(v)))
  {
    OperandIsRead(env, v);
    UnaryIsRead(env, Negate, v);
    m := -n;
  }

  /** Every bit of ~v is the opposite of that of v. */
  lemma ComplementLaw(env: Env, v: Value, n: int) returns (m: int)
    requires IsOperand(v) && Reads(env, TextOf(v), n)
    ensures Reads(env, "~" + TextOf(v), m) && forall k: nat :: Bit(m, k) != Bit(n, k)
  {
    OperandIsRead(env, v);
    UnaryIsRead(env, Complement, v);
    m := -n - 1;
    forall k: nat ensures Bit(m, k) != Bit(n, k) { OppositeBits(n, k); }
  }

  lemma {:induction false} OppositeBits(n: int, k: nat)
    ensures Bit(-n - 1, k) != Bit(n, k)
    decreases k
  {
    if k > 0 {
      assert (-n - 1) / 2 == -(n / 2) - 1;
      OppositeBits(n / 2, k - 1);
    }
  }

  // ---------- operators with two operands ----------

  lemma BinaryIsRead(env: Env, v: Value, level: nat, op: BinOp, text: string, w: Value)
    requires IsOperand(v) && IsOperand(w) && IsSpelling(level, op, text)
    ensures ParseIfExpression(env, TextOf(v) + (text + TextOf(w))) == Ok("", Apply(op, ValueOf(env, v), ValueOf(env, w)))
  {
    var e := Binary(level, Leaf(v), "", op, text, Leaf(w));
    assert "" + (text + TextOf(w)) == text + TextOf(w);
    Behind(v, text + TextOf(w));
    assert Tokens(Leaf(v)) && Derives(Leaf(v)) && !EndsOpen(Leaf(v)) && Tokens(Leaf(w)) && Derives(Leaf(w)) && !EndsOpen(Leaf(w));
    assert Tokens(e) && Derives(e) && !EndsOpen(e);
    assert Text(e, "") == ValueText(v, "" + (text + TextOf(w)));
    SpellsIsRead(env, e, "", Text(e, ""));
  }

  /** Two operands with their numbers. */
  predicate Operands(env: Env, v: Value, a: int, w: Value, b: int) {
    IsOperand(v) && IsOperand(w) && Reads(env, TextOf(v), a) && Reads(env, TextOf(w), b)
  }

  /** The number if it is a long, and no value if not. */
  predicate ReadsIfLong(env: Env, s: string, n: int) {
    if LONG_MIN <= n <= LONG_MAX then Reads(env, s, n) else HasNoValue(env, s)
  }

  lemma SumLaws(env: Env, v: Value, a: int, w: Value, b: int)
    requires Operands(env, v, a, w, b)
    ensures ReadsIfLong(env, TextOf(v) + ("+" + TextOf(w)), a + b)
    ensures ReadsIfLong(env, TextOf(v) + ("-" + TextOf(w)), a - b)
    ensures ReadsIfLong(env, TextOf(v) + ("*" + TextOf(w)), a * b)
  {
    OperandIsRead(env, v);
    OperandIsRead(env, w);
    BinaryIsRead(env, v, 2, Add, "+", w);
    BinaryIsRead(env, v, 2, Sub, "-", w);
    BinaryIsRead(env, v, 1, Mul, "*", w);
  }

  /** A quotient toward 0 and a remainder with the sign of the dividend; nothing by 0. */
  lemma QuotientLaws(env: Env, v: Value, a: int, w: Value, b: int) returns (q: int, r: int)
    requires Operands(env, v, a, w, b) && LONG_MIN < a <= LONG_MAX && LONG_MIN <= b <= LONG_MAX
    ensures b == 0 ==> HasNoValue(env, TextOf(v) + ("/" + TextOf(w))) && HasNoValue(env, TextOf(v) + ("%" + TextOf(w)))
    ensures b != 0 ==> Reads(env, TextOf(v) + ("/" + TextOf(w)), q) && Reads(env, TextOf(v) + ("%" + TextOf(w)), r)
    ensures b != 0 ==> a == b * q + r && Abs(r) < Abs(b) && (r != 0 ==> (r < 0 <==> a < 0))
  {
    OperandIsRead(env, v);
    OperandIsRead(env, w);
    BinaryIsRead(env, v, 1, Div, "/", w);
    BinaryIsRead(env, v, 1, Mod, "%", w);
    q, r := 0, 0;
    if b != 0 {
      QuotientTruncates(a, b);
      QuotientFits(a, b);
      q, r := Quotient(a, b), Remainder(a, b);
    }
  }

  lemma QuotientFits(a: int, b: int)
    requires b != 0 && LONG_MIN < a <= LONG_MAX
    ensures LONG_MIN < Quotient(a, b) <= LONG_MAX
  {
    var m: nat, n: nat := Abs(a), Abs(b);
    Smaller(m, n);
  }

  lemma Smaller(m: nat, n: nat)
    requires n > 0
    ensures m / n <= m
  {
    var q: nat, r: nat := m / n, m % n;
    DivMod(m, n, q, r);
    TimesGrows(q, n);
  }

  lemma {:induction false} TimesGrows(q: nat, n: nat)
    requires n > 0
    ensures q <= n * q
  {
    if n > 1 {
      TimesGrows(q, n - 1);
      assert n * q == (n - 1) * q + q;
    }
  }

  lemma ComparisonLaws(env: Env, v: Value, a: int, w: Value, b: int)
    requires Operands(env, v, a, w, b)
    ensures Reads(env, TextOf(v) + ("<" + TextOf(w)), if a < b then 1 else 0)
    ensures Reads(env, TextOf(v) + (">" + TextOf(w)), if b < a then 1 else 0)
    ensures Reads(env, TextOf(v) + ("<=" + TextOf(w)), if b < a then 0 else 1)
    ensures Reads(env, TextOf(v) + (">=" + TextOf(w)), if a < b then 0 else 1)
    ensures Reads(env, TextOf(v) + ("==" + TextOf(w)), if a == b then 1 else 0)
    ensures Reads(env, TextOf(v) + ("=" + TextOf(w)), if a == b then 1 else 0)
    ensures Reads(env, TextOf(v) + ("!=" + TextOf(w)), if a == b then 0 else 1)
  {
    OperandIsRead(env, v);
    OperandIsRead(env, w);
    BinaryIsRead(env, v, 4, Lt, "<", w);
    BinaryIsRead(env, v, 4, Gt, ">", w);
    BinaryIsRead(env, v, 4, Le, "<=", w);
    BinaryIsRead(env, v, 4, Ge, ">=", w);
    BinaryIsRead(env, v, 5, Eq, "==", w);
    BinaryIsRead(env, v, 5, Eq, "=", w);
    BinaryIsRead(env, v, 5, Ne, "!=", w);
  }

  lemma LogicLaws(env: Env, v: Value, a: int, w: Value, b: int)
    requires Operands(env, v, a, w, b)
    ensures Reads(env, TextOf(v) + ("&&" + TextOf(w)), if a == 0 || b == 0 then 0 else 1)
    ensures Reads(env, TextOf(v) + ("||" + TextOf(w)), if a == 0 && b == 0 then 0 else 1)
  {
    OperandIsRead(env, v);
    OperandIsRead(env, w);
    BinaryIsRead(env, v, 9, LAnd, "&&", w);
    BinaryIsRead(env, v, 10, LOr, "||", w);
  }

  /** Bit by bit. */
  lemma BitLaws(env: Env, v: Value, a: int, w: Value, b: int) returns (and: int, xor: int, or: int)
    requires Operands(env, v, a, w, b)
    ensures Reads(env, TextOf(v) + ("&" + TextOf(w)), and) && Reads(env, TextOf(v) + ("^" + TextOf(w)), xor)
    ensures Reads(env, TextOf(v) + ("|" + TextOf(w)), or)
    ensures forall k: nat :: Bit(and, k) == (Bit(a, k) && Bit(b, k))
    ensures forall k: nat :: Bit(xor, k) == (Bit(a, k) != Bit(b, k))
    ensures forall k: nat :: Bit(or, k) == (Bit(a, k) || Bit(b, k))
  {
    OperandIsRead(env, v);
    OperandIsRead(env, w);
    BinaryIsRead(env, v, 6, BAnd, "&", w);
    BinaryIsRead(env, v, 7, BXor, "^", w);
    BinaryIsRead(env, v, 8, BOr, "|", w);
    and, xor, or := Bitwise(a, b, Both), Bitwise(a, b, Differ), Bitwise(a, b, Either);
    forall k: nat
      ensures Bit(and, k) == (Bit(a, k) && Bit(b, k)) && Bit(xor, k) == (Bit(a, k) != Bit(b, k)) && Bit(or, k) == (Bit(a, k) || Bit(b, k))
    {
      BitwiseBits(a, b, Both, k);
      BitwiseBits(a, b, Differ, k);
      BitwiseBits(a, b, Either, k);
    }
  }

  /** A shift moves every bit; one to the left of a negative number, or by 64 places or more, has no value. */
  lemma ShiftLaws(env: Env, v: Value, a: int, w: Value, b: int) returns (up: int, down: int)
    requires Operands(env, v, a, w, b)
    ensures b < 0 || b >= 64 ==>
              HasNoValue(env, TextOf(v) + ("<<" + TextOf(w))) && HasNoValue(env, TextOf(v) + (">>" + TextOf(w)))
    ensures 0 <= b < 64 ==>
              && Reads(env, TextOf(v) + (">>" + TextOf(w)), down) && (forall k: nat :: Bit(down, k) == Bit(a, k + b))
              && (if a < 0 then HasNoValue(env, TextOf(v) + ("<<" + TextOf(w)))
                  else ReadsIfLong(env, TextOf(v) + ("<<" + TextOf(w)), up))
              && forall k: nat :: Bit(up, k) == (k >= b && Bit(a, k - b))
  {
    OperandIsRead(env, v);
    OperandIsRead(env, w);
    BinaryIsRead(env, v, 3, Shl, "<<", w);
    BinaryIsRead(env, v, 3, Shr, ">>", w);
    up, down := 0, 0;
    if 0 <= b < 64 {
      Pow2Positive(b);
      up, down := a * Pow2(b), a / Pow2(b);
      forall k: nat ensures Bit(down, k) == Bit(a, k + b) && Bit(up, k) == (k >= b && Bit(a, k - b)) {
        BitsMoveUp(a, b, k);
        BitsMoveDown(a, b, k);
      }
    }
  }

  /** The second operand of ?: is chosen when the first is not 0, the third when it is. */
  lemma ChoiceLaw(env: Env, v: Value, a: int, w: Value, b: int, u: Value, c: int)
    requires Operands(env, v, a, w, b) && Operands(env, w, b, u, c)
    ensures Reads(env, TextOf(v) + ("?" + (TextOf(w) + (":" + TextOf(u)))), if a != 0 then b else c)
  {
    var e := Cond(Leaf(v), "", Leaf(w), "", Leaf(u));
    OperandIsRead(env, v);
    OperandIsRead(env, w);
    OperandIsRead(env, u);
    Behind(w, ":" + TextOf(u));
    Behind(v, "?" + (TextOf(w) + (":" + TextOf(u))));
    LeafOk(v);
    LeafOk(w);
    LeafOk(u);
    assert "" + (":" + TextOf(u)) == ":" + TextOf(u);
    assert "" + ("?" + (TextOf(w) + (":" + TextOf(u)))) == "?" + (TextOf(w) + (":" + TextOf(u)));
    assert Text(e, "") == TextOf(v) + ("?" + (TextOf(w) + (":" + TextOf(u))));
    assert Tokens(e) && Derives(e) && !EndsOpen(e);
    SpellsIsRead(env, e, "", Text(e, ""));
  }

  lemma LeafOk(v: Value)
    requires IsOperand(v)
    ensures Tokens(Leaf(v)) && Derives(Leaf(v)) && !EndsOpen(Leaf(v)) && LevelOf(Leaf(v)) == 0
  {
  }

  // ---------- parentheses ----------

  function InParens(s: string): string { "(" + (s + ")") }

  /** Any expression in parentheses is an operand. */
  lemma ParensLaw(env: Env, e: Expr)
    requires WellFormed(e) && !EndsOpen(e)
    ensures IsOperand(Paren("", e, "")) && TextOf(Paren("", e, "")) == InParens(Text(e, ""))
    ensures ValueOf(env, Paren("", e, "")) == Eval(env, e)
    ensures ParseIfExpression(env, InParens(Text(e, ""))) == ParseIfExpression(env, Text(e, ""))
  {
    TextOn(e, "", ")");
    assert "" + (")" + "") == ")" && "" + ")" == ")";
    assert "" + ("(" + Text(e, ")")) == "(" + Text(e, ")");
    SpellsIsRead(env, e, "", Text(e, ""));
    OperandIsRead(env, Paren("", e, ""));
  }

  lemma PairIsExpr(env: Env, v: Value, level: nat, op: BinOp, text: string, w: Value) returns (e: Expr)
    requires IsOperand(v) && IsOperand(w) && IsSpelling(level, op, text)
    ensures WellFormed(e) && !EndsOpen(e) && Text(e, "") == TextOf(v) + (text + TextOf(w))
  {
    e := Binary(level, Leaf(v), "", op, text, Leaf(w));
    assert "" + (text + TextOf(w)) == text + TextOf(w);
    Behind(v, text + TextOf(w));
    LeafOk(v);
    LeafOk(w);
  }

  /** De Morgan's laws: !(v&&w) is !v||!w, and !(v||w) is !v&&!w. */
  lemma DeMorgan(env: Env, v: Value, a: int, w: Value, b: int)
    requires Operands(env, v, a, w, b)
    ensures ParseIfExpression(env, "!" + InParens(TextOf(v) + ("&&" + TextOf(w))))
            == ParseIfExpression(env, ("!" + TextOf(v)) + ("||" + ("!" + TextOf(w))))
    ensures ParseIfExpression(env, "!" + InParens(TextOf(v) + ("||" + TextOf(w))))
            == ParseIfExpression(env, ("!" + TextOf(v)) + ("&&" + ("!" + TextOf(w))))
  {
    var both := PairIsExpr(env, v, 9, LAnd, "&&", w);
    var either := PairIsExpr(env, v, 10, LOr, "||", w);
    LogicLaws(env, v, a, w, b);
    ParensLaw(env, both);
    ParensLaw(env, either);
    NotLaw(env, Paren("", both, ""), if a == 0 || b == 0 then 0 else 1);
    NotLaw(env, Paren("", either, ""), if a == 0 && b == 0 then 0 else 1);
    NotLaw(env, v, a);
    NotLaw(env, w, b);
    UnaryIsRead(env, LogNot, v);
    UnaryIsRead(env, LogNot, w);
    LogicLaws(env, UnaryOp("", LogNot, v), if a == 0 then 1 else 0, UnaryOp("", LogNot, w), if b == 0 then 1 else 0);
  }

  // ---------- operands ----------

  /** "defined X" and "defined(X)" ask whether X is defined. */
  lemma DefinedLaw(env: Env, name: string)
    requires IsName(name)
    ensures Reads(env, "defined" + ("(" + (name + ")")), if env.isDefined(name) then 1 else 0)
    ensures Reads(env, "defined" + (" " + name), if env.isDefined(name) then 1 else 0)
    ensures IsOperand(DefinedParen("", "", "", name, "")) && TextOf(DefinedParen("", "", "", name, "")) == "defined" + ("(" + (name + ")"))
  {
    var v, w := DefinedParen("", "", "", name, ""), Defined("", " ", name, "");
    Front("defined" + ("" + ("(" + ("" + (name + ("" + (")" + "")))))));
    Front("(" + ("" + (name + ("" + (")" + "")))));
    Front(name + ("" + (")" + "")));
    Front(")" + "");
    assert ")" + "" == ")";
    Front("defined" + (" " + (name + ("" + ""))));
    assert name + ("" + "") == name;
    OperandIsRead(env, v);
    OperandIsRead(env, w);
  }

  lemma Front(s: string)
    ensures "" + s == s
  {
  }

  /** A name stands for its value, and an empty text for 0. */
  lemma NameLaw(env: Env, name: string)
    requires IsName(name) && !IsKeyword(name)
    ensures Reads(env, name, env.variable(name)) && Reads(env, "", 0)
    ensures IsOperand(Variable("", name)) && TextOf(Variable("", name)) == name
  {
    NameText(name, "");
    OperandIsRead(env, Variable("", name));
  }

  /** A number in any of C's bases, with any of its suffixes, is its value, or the greatest long. */
  lemma NumberLaws(env: Env, n: nat, large: bool, suffix: string)
    requires forall i :: 0 <= i < |suffix| ==> suffix[i] in "uUlL"
    ensures Reads(env, Decimal(n) + suffix, if n <= LONG_MAX then n else LONG_MAX)
    ensures Reads(env, ("0x" + InBase(n, 16, large)) + suffix, if n <= LONG_MAX then n else LONG_MAX)
    ensures Reads(env, ("0X" + InBase(n, 16, large)) + suffix, if n <= LONG_MAX then n else LONG_MAX)
    ensures Reads(env, ("0" + InBase(n, 8, large)) + suffix, if n <= LONG_MAX then n else LONG_MAX)
  {
    DecimalMagnitude(n);
    PrefixedMagnitude(n, large);
    NumberIsRead(env, Decimal(n), suffix, n);
    NumberIsRead(env, "0x" + InBase(n, 16, large), suffix, n);
    NumberIsRead(env, "0X" + InBase(n, 16, large), suffix, n);
    NumberIsRead(env, "0" + InBase(n, 8, large), suffix, n);
  }

  lemma NumberIsRead(env: Env, body: string, suffix: string, n: nat)
    requires body != "" && IsDigit(body[0]) && Magnitude(body, 0) == Scan(|body|, n)
    requires forall i :: 0 <= i < |suffix| ==> suffix[i] in "uUlL"
    ensures Reads(env, body + suffix, if n <= LONG_MAX then n else LONG_MAX)
  {
    var v := Number("", body, suffix);
    forall i | 0 <= i < |suffix| ensures IsQualifier(suffix[i]) { assert suffix[i] in "uUlL"; }
    assert suffix + "" == suffix && "" + (body + suffix) == body + suffix;
    OperandIsRead(env, v);
  }

  lemma CharacterIsRead(env: Env, body: string)
    requires !IsSpace(First(body)) && forall i :: 0 <= i < |body| ==> body[i] != '\''
    ensures Reads(env, "'" + (body + "'"), CharValue(body + "'"))
  {
    var v := Character("", "", body);
    Front("'" + ("" + (body + ("'" + ""))));
    Front(body + ("'" + ""));
    assert "'" + "" == "'";
    OperandIsRead(env, v);
  }

  /** A character has its code, as a char of 8 bits with a sign; ... */
  lemma CharacterLaws(env: Env, c: char)
    requires c != '\'' && c != '\\' && !IsSpace(c)
    ensures exists m :: IsCharOf(m, c as int) && Reads(env, "'" + ([c] + "'"), m)
  {
    CharacterIsRead(env, [c]);
    assert IsCharOf(AsChar(c as int), c as int);
  }

  /** ... the escapes of section 6.4.4.4 of ISO/IEC 9899:1999 have theirs. */
  lemma EscapeLaws(env: Env, c: char, n: int)
    requires (c, n) in [('a', 7), ('b', 8), ('t', 9), ('n', 10), ('v', 11), ('f', 12), ('r', 13), ('"', 34), ('?', 63), ('\\', 92)]
    ensures Reads(env, "'" + (['\\', c] + "'"), n)
  {
    CharacterIsRead(env, ['\\', c]);
    assert (['\\', c] + "'")[1] == c;
  }

  /** The char that a number is cut down to: 8 bits with a sign. */
  predicate IsCharOf(m: int, n: int) { -128 <= m < 128 && (n - m) % 256 == 0 }

  lemma CutDown(n: int)
    ensures IsCharOf(AsChar(n), n)
  {
  }

  /** Behind a backslash there is a number, in base 8, or with an x in base 16. */
  lemma CodeLaws(env: Env, n: nat, large: bool) returns (m: int)
    requires n <= LONG_MAX
    ensures IsCharOf(m, n)
    ensures Reads(env, "'" + (("\\" + InBase(n, 8, large)) + "'"), m) && Reads(env, "'" + (("\\x" + InBase(n, 16, large)) + "'"), m)
  {
    m := AsChar(n);
    CutDown(n);
    OctalLaw(env, n, large);
    HexLaw(env, n, large);
  }

  lemma OctalLaw(env: Env, n: nat, large: bool)
    requires n <= LONG_MAX
    ensures Reads(env, "'" + (("\\" + InBase(n, 8, large)) + "'"), AsChar(n))
  {
    DigitsUpToQuote(n, 8, large);
    NoQuotes(n, 8, large);
    OctalCode(env, InBase(n, 8, large), n);
  }

  lemma HexLaw(env: Env, n: nat, large: bool)
    requires n <= LONG_MAX
    ensures Reads(env, "'" + (("\\x" + InBase(n, 16, large)) + "'"), AsChar(n))
  {
    DigitsUpToQuote(n, 16, large);
    NoQuotes(n, 16, large);
    HexCode(env, InBase(n, 16, large), n);
  }

  lemma NoQuotes(n: nat, base: nat, large: bool)
    requires base == 8 || base == 16
    ensures forall i :: 0 <= i < |InBase(n, base, large)| ==> InBase(n, base, large)[i] != '\''
    ensures base == 8 ==> InBase(n, base, large)[0] in "01234567"
  {
  }

  lemma OctalCode(env: Env, d: string, n: nat)
    requires Strtol(d + "'", 8).val == n && d != "" && d[0] in "01234567" && forall i :: 0 <= i < |d| ==> d[i] != '\''
    ensures Reads(env, "'" + (("\\" + d) + "'"), AsChar(n))
  {
    var t := ("\\" + d) + "'";
    assert t[1..] == d + "'" && t[1] == d[0];
    CharacterIsRead(env, "\\" + d);
  }

  lemma HexCode(env: Env, d: string, n: nat)
    requires Strtol(d + "'", 16).val == n && forall i :: 0 <= i < |d| ==> d[i] != '\''
    ensures Reads(env, "'" + (("\\x" + d) + "'"), AsChar(n))
  {
    var t := ("\\x" + d) + "'";
    assert t[2..] == d + "'" && t[1] == 'x';
    CharacterIsRead(env, "\\x" + d);
  }

  /** What `long` is: 64 bits, one of them the sign. */
  lemma LongHas64Bits()
    ensures LONG_MAX + 1 == Pow2(63) && LONG_MIN + Pow2(63) == 0 && LONG_BITS == 64
  {
    assert Pow2(7) == 128;
    EightMore(7);
    EightMore(15);
    EightMore(23);
    EightMore(31);
    EightMore(39);
    EightMore(47);
    EightMore(55);
  }

  lemma EightMore(n: nat)
    ensures Pow2(n + 8) == 256 * Pow2(n)
  {
    assert Pow2(n + 2) == 2 * Pow2(n + 1) == 4 * Pow2(n);
    assert Pow2(n + 4) == 2 * Pow2(n + 3) == 4 * Pow2(n + 2);
    assert Pow2(n + 6) == 2 * Pow2(n + 5) == 4 * Pow2(n + 4);
    assert Pow2(n + 8) == 2 * Pow2(n + 7) == 4 * Pow2(n + 6);
  }
}
