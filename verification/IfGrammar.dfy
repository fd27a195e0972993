/**
 The language of #if expressions, independently of the parser: trees with every token and
 every blank, their text, and their value.
 */
module IfGrammar {
  import opened CStrings
  import opened CText
  import opened CNumbers
  import opened IfParser

  /** An argument of "# variable (...)" with the character in front of it. */
  datatype Arg = Arg(sep: char, ws: string, name: string, ws1: string)

  /** `ws` is the white space in front. */
  datatype Value =
    | Empty(ws: string)
    | Paren(ws: string, e: Expr, ws1: string)
    | UnaryOp(ws: string, op: UnOp, v: Value)
    | Defined(ws: string, ws1: string, name: string, ws2: string)
    | DefinedParen(ws: string, ws1: string, ws2: string, name: string, ws3: string)
    | Macro(ws: string, ws1: string, name: string, ws2: string, args: seq<Arg>)
    | Character(ws: string, ws1: string, body: string)
    | Number(ws: string, body: string, suffix: string)
    | Variable(ws: string, name: string)

  datatype Expr =
    | Leaf(v: Value)
    | Binary(level: nat, left: Expr, ws: string, op: BinOp, text: string, right: Expr)
    | Cond(test: Expr, ws: string, yes: Expr, ws1: string, no: Expr)

  // ---------- text ----------

  function UnText(op: UnOp): string {
    match op
    case LogNot => "!"
    case Negate => "-"
    case Complement => "~"
  }

  /** Each of the following gives the text of its first argument with `rest` after it. */
  function ArgsText(args: seq<Arg>, rest: string): string {
    if args == [] then ")" + rest
    else [args[0].sep] + (args[0].ws + (args[0].name + (args[0].ws1 + ArgsText(args[1..], rest))))
  }

  function ValueText(v: Value, rest: string): string {
    match v
    case Empty(ws) => ws + rest
    case Paren(ws, e, ws1) => ws + ("(" + Text(e, ws1 + (")" + rest)))
    case UnaryOp(ws, op, x) => ws + (UnText(op) + ValueText(x, rest))
    case Defined(ws, ws1, name, ws2) => ws + ("defined" + (ws1 + (name + (ws2 + rest))))
    case DefinedParen(ws, ws1, ws2, name, ws3) => ws + ("defined" + (ws1 + ("(" + (ws2 + (name + (ws3 + (")" + rest)))))))
    case Macro(ws, ws1, name, ws2, args) => ws + ("#" + (ws1 + (name + (ws2 + ArgsText(args, rest)))))
    case Character(ws, ws1, body) => ws + ("'" + (ws1 + (body + ("'" + rest))))
    case Number(ws, body, suffix) => ws + (body + (suffix + rest))
    case Variable(ws, name) => ws + (name + rest)
  }

  function Text(e: Expr, rest: string): string {
    match e
    case Leaf(v) => ValueText(v, rest)
    case Binary(_, left, ws, _, text, right) => Text(left, ws + (text + Text(right, rest)))
    case Cond(test, ws, yes, ws1, no) => Text(test, ws + ("?" + Text(yes, ws1 + (":" + Text(no, rest)))))
  }

  // ---------- value ----------

  function ValueOf(env: Env, v: Value): Num {
    match v
    case Empty(_) => Num(0)
    case Paren(_, e, _) => Eval(env, e)
    case UnaryOp(_, op, x) => ApplyUn(op, ValueOf(env, x))
    case Defined(_, _, name, _) => Truth(env.isDefined(name))
    case DefinedParen(_, _, _, name, _) => Truth(env.isDefined(name))
    case Macro(_, _, _, _, _) => Num(1)
    case Character(_, _, body) => Num(CharValue(body + "'"))
    case Number(_, body, _) => Num(Clamp(Magnitude(body, 0).val))
    case Variable(_, name) => Num(env.variable(name))
  }

  function Eval(env: Env, e: Expr): Num {
    match e
    case Leaf(v) => ValueOf(env, v)
    case Binary(_, left, _, op, _, right) => Apply(op, Eval(env, left), Eval(env, right))
    case Cond(test, _, yes, _, no) => Choose(Eval(env, test), Eval(env, yes), Eval(env, no))
  }

  // ---------- well-formed tokens ----------

  predicate IsName(s: string) {
    s != "" && IsVarFirst(s[0]) && forall i :: 0 <= i < |s| ==> IsIdent(s[i])
  }

  /** "defined" followed by anything but a letter or digit is not a variable. */
  predicate IsKeyword(s: string) { IsKeywordAt(s) }

  predicate IsNumber(s: string) {
    s != "" && IsDigit(s[0]) && Magnitude(s, 0).len == |s|
  }

  predicate AllQualifiers(s: string) { forall i :: 0 <= i < |s| ==> IsQualifier(s[i]) }

  /** A separator is neither a blank nor ')', and a name needs a blank before a separator that could extend it. */
  predicate SepOk(before: Arg, arg: Arg) {
    arg.sep != ')' && !IsSpace(arg.sep) && (IsIdent(arg.sep) ==> before.ws1 != "")
  }

  predicate ArgOk(arg: Arg) { AllSpace(arg.ws) && IsName(arg.name) && AllSpace(arg.ws1) }

  predicate ArgsOk(args: seq<Arg>) {
    args != [] ==> ArgOk(args[0]) && (|args| > 1 ==> SepOk(args[0], args[1])) && ArgsOk(args[1..])
  }

  /** The spelling of each operator at its level. */
  predicate IsSpelling(level: nat, op: BinOp, text: string) {
    match op
    case Mul => level == 1 && text == "*"
    case Div => level == 1 && text == "/"
    case Mod => level == 1 && text == "%"
    case Add => level == 2 && text == "+"
    case Sub => level == 2 && text == "-"
    case Shl => level == 3 && text == "<<"
    case Shr => level == 3 && text == ">>"
    case Le => level == 4 && text == "<="
    case Lt => level == 4 && text == "<"
    case Ge => level == 4 && text == ">="
    case Gt => level == 4 && text == ">"
    case Eq => level == 5 && (text == "==" || text == "=")
    case Ne => level == 5 && text == "!="
    case BAnd => level == 6 && text == "&"
    case BXor => level == 7 && text == "^"
    case BOr => level == 8 && text == "|"
    case LAnd => level == 9 && text == "&&"
    case LOr => level == 10 && text == "||"
  }

  predicate ValueTokens(v: Value) {
    match v
    case Empty(ws) => AllSpace(ws)
    case Paren(ws, e, ws1) => AllSpace(ws) && Tokens(e) && AllSpace(ws1)
    case UnaryOp(ws, _, x) => AllSpace(ws) && ValueTokens(x)
    case Defined(ws, ws1, name, ws2) =>
      AllSpace(ws) && AllSpace(ws1) && IsName(name) && (ws1 == "" ==> name[0] == '_') && AllSpace(ws2)
    case DefinedParen(ws, ws1, ws2, name, ws3) =>
      AllSpace(ws) && AllSpace(ws1) && AllSpace(ws2) && IsName(name) && AllSpace(ws3)
    case Macro(ws, ws1, name, ws2, args) =>
      AllSpace(ws) && AllSpace(ws1) && IsName(name) && AllSpace(ws2) && ArgsOk(args) && args != [] && args[0].sep == '('
    case Character(ws, ws1, body) =>
      AllSpace(ws) && AllSpace(ws1) && !IsSpace(First(body)) && forall i :: 0 <= i < |body| ==> NotQuote(body[i])
    case Number(ws, body, suffix) => AllSpace(ws) && IsNumber(body) && AllQualifiers(suffix)
    case Variable(ws, name) => AllSpace(ws) && IsName(name) && !IsKeyword(name)
  }

  predicate Tokens(e: Expr) {
    match e
    case Leaf(v) => ValueTokens(v)
    case Binary(level, left, ws, op, text, right) => IsSpelling(level, op, text) && Tokens(left) && AllSpace(ws) && Tokens(right)
    case Cond(test, ws, yes, ws1, no) => Tokens(test) && AllSpace(ws) && Tokens(yes) && AllSpace(ws1) && Tokens(no)
  }

  // ---------- the grammar ----------

  function LevelOf(e: Expr): nat {
    match e
    case Leaf(_) => 0
    case Binary(level, _, _, _, _, _) => level
    case Cond(_, _, _, _, _) => COND
  }

  /** The text ends in an empty value, which only the end of the whole text can follow. */
  predicate ValueEndsOpen(v: Value) {
    v.Empty? || (v.UnaryOp? && ValueEndsOpen(v.v))
  }

  predicate EndsOpen(e: Expr) {
    match e
    case Leaf(v) => ValueEndsOpen(v)
    case Binary(_, _, _, _, _, right) => EndsOpen(right)
    case Cond(_, _, _, _, no) => EndsOpen(no)
  }

  /** Binary operators are right-recursive within their level; the left operand is of a lower one. */
  predicate ValueDerives(v: Value) {
    match v
    case Paren(_, e, _) => Derives(e) && !EndsOpen(e)
    case UnaryOp(_, _, x) => ValueDerives(x)
    case _ => true
  }

  predicate Derives(e: Expr) {
    match e
    case Leaf(v) => ValueDerives(v)
    case Binary(level, left, _, _, _, right) =>
      1 <= level < COND && Derives(left) && Derives(right) && LevelOf(left) < level && LevelOf(right) <= level && !EndsOpen(left)
    case Cond(test, _, yes, _, no) =>
      Derives(test) && Derives(yes) && Derives(no) && LevelOf(test) < COND && !EndsOpen(test) && !EndsOpen(yes)
  }

  /** A tree of the language. */
  predicate WellFormed(e: Expr) { Tokens(e) && Derives(e) }
}
