/**
 The parser of #if expressions: one recursive function for each precedence level of the
 source, all of the same shape, so that here the level is a parameter.
 */
module IfParser {
  import opened CStrings
  import opened CText
  import opened CNumbers
  import opened Wrappers

  // ---------- operators ----------

  datatype UnOp = LogNot | Negate | Complement

  datatype BinOp = Mul | Div | Mod | Add | Sub | Shl | Shr | Le | Lt | Ge | Gt | Eq | Ne
                 | BAnd | BXor | BOr | LAnd | LOr

  function Truth(b: bool): Num { Num(if b then 1 else 0) }

  function ApplyUn(op: UnOp, v: Num): Num {
    if v == Undef then Undef
    else match op
      case LogNot => Truth(v.n == 0)
      case Negate => Fit(-v.n)
      case Complement => Num(-v.n - 1)
  }

  /** Both operands are always evaluated. */
  function Apply(op: BinOp, l: Num, r: Num): Num {
    if l == Undef || r == Undef then Undef
    else
      var a, b := l.n, r.n;
      match op
      case Mul => Fit(a * b)
      case Div => if b == 0 then Undef else Fit(Quotient(a, b))
      case Mod => if b == 0 || Fit(Quotient(a, b)) == Undef then Undef else Num(Remainder(a, b))
      case Add => Fit(a + b)
      case Sub => Fit(a - b)
      case Shl => ShiftLeft(a, b)
      case Shr => ShiftRight(a, b)
      case Le => Truth(a <= b)
      case Lt => Truth(a < b)
      case Ge => Truth(a >= b)
      case Gt => Truth(a > b)
      case Eq => Truth(a == b)
      case Ne => Truth(a != b)
      case BAnd => Num(Bitwise(a, b, Both))
      case BXor => Num(Bitwise(a, b, Differ))
      case BOr => Num(Bitwise(a, b, Either))
      case LAnd => Truth(a != 0 && b != 0)
      case LOr => Truth(a != 0 || b != 0)
  }

  function Choose(test: Num, yes: Num, no: Num): Num {
    if test == Undef || yes == Undef || no == Undef then Undef
    else if test.n != 0 then yes else no
  }

  /** What the switch of one level finds at the cursor: no operator, an operator, or an error. */
  datatype Match = NoOp | BadOp | IsOp(op: BinOp, len: nat)

  const COND: nat := 11

  function MatchOp(level: nat, t: string): (m: Match)
    ensures m.IsOp? ==> 1 <= m.len <= |t|
  {
    var c, d := At(t, 0), At(t, 1);
    match level
    case 1 => if c == '*' then IsOp(Mul, 1) else if c == '/' then IsOp(Div, 1) else if c == '%' then IsOp(Mod, 1) else NoOp
    case 2 => if c == '+' then IsOp(Add, 1) else if c == '-' then IsOp(Sub, 1) else NoOp
    case 3 => if c == '<' && d == '<' then IsOp(Shl, 2) else if c == '>' && d == '>' then IsOp(Shr, 2) else NoOp
    case 4 =>
      if c == '<' then (if d == '=' then IsOp(Le, 2) else IsOp(Lt, 1))
      else if c == '>' then (if d == '=' then IsOp(Ge, 2) else IsOp(Gt, 1))
      else NoOp
    case 5 =>
      if c == '=' then IsOp(Eq, if d == '=' then 2 else 1)
      else if c == '!' && d == '=' then IsOp(Ne, 2)
      else NoOp
    case 6 => if c == '&' && d != '&' then IsOp(BAnd, 1) else NoOp
    case 7 => if c == '^' then IsOp(BXor, 1) else NoOp
    case 8 => if c == '|' && d != '|' then IsOp(BOr, 1) else NoOp
    case 9 => if c == '&' then (if d == '&' then IsOp(LAnd, 2) else BadOp) else NoOp
    case 10 => if c == '|' then (if d == '|' then IsOp(LOr, 2) else BadOp) else NoOp
    case _ => NoOp
  }

  // ---------- the parser ----------

  /** The callbacks: the value of a macro and whether it is defined. */
  datatype Env = Env(variable: string -> int, isDefined: string -> bool)

  /**
   A result with the cursor after it, an error (the caller's *valp then holds `val`), or a scan
   that ran over the terminator in search of a closing quote.
   */
  datatype Parse = Ok(rest: string, val: Num) | Fail(val: Num) | Overrun

  function ParseVariable(s: string): (r: Option<(string, string)>)
    ensures r.Some? ==> |r.value.0| < |s|
  {
    var t := SkipSpace(s);
    if !IsVarFirst(First(t)) then None
    else
      var n := Run(t, IsIdent);
      Some((t[n..], t[..n]))
  }

  /** The loop of parse_variable: `varp` is where the name begins, `cp` where it ends. */
  method ScanVariable(s: string, start: nat) returns (ok: bool, varp: nat, cp: nat)
    requires start <= |s|
    ensures ok <==> ParseVariable(s[start..]).Some?
    ensures ok ==> varp < cp <= |s| && ParseVariable(s[start..]) == Some((s[cp..], s[varp..cp]))
  {
    cp := SkipSpaceScan(s, start);
    varp := cp;
    if !IsVarFirst(At(s, cp)) {
      return false, varp, cp;
    }
    cp := cp + 1;
    while IsIdent(At(s, cp))
      invariant varp < cp <= |s|
      invariant forall k :: varp <= k < cp ==> IsIdent(s[k])
      decreases |s| - cp
    {
      cp := cp + 1;
    }
    RunBetween(s, varp, cp, IsIdent);
    ok := true;
  }

  predicate IsQualifier(c: char) { c == 'U' || c == 'u' || c == 'L' || c == 'l' }

  function ParseNumber(s: string): (r: Parse)
    ensures r.Ok? ==> |r.rest| <= |s|
  {
    var t := SkipSpace(s);
    if !IsDigit(First(t)) then Fail(Num(0))
    else
      var m := Magnitude(t, 0);
      var u := t[m.len..];
      Ok(u[Run(u, IsQualifier)..], Num(Clamp(m.val)))
  }

  /** (char) of a long, as a signed 8-bit value. */
  function AsChar(n: int): int {
    var m := n % 256;
    if m >= 128 then m - 256 else m
  }

  /** The value parse_character gives a character or an escape. */
  function CharValue(t: string): int {
    if First(t) != '\\' then AsChar(First(t) as int)
    else
      match At(t, 1)
      case 'n' => 10
      case 't' => 9
      case 'v' => 11
      case 'b' => 8
      case 'r' => 13
      case 'f' => 12
      case 'a' => 7
      case '\\' => 92
      case '?' => 63
      case '\'' => 39
      case '"' => 34
      case 'x' => AsChar(Strtol(t[2..], 16).val)
      case _ => AsChar(Strtol(t[1..], 8).val)
  }

  predicate NotQuote(c: char) { c != '\'' }

  /** A character constant after its opening quote: the scan for the closing one knows no escapes. */
  function ParseCharacter(s: string): (r: Parse)
    ensures r.Ok? ==> |r.rest| < |s|
  {
    var t := SkipSpace(s);
    var n := Run(t, NotQuote);
    if n == |t| then Overrun else Ok(t[n + 1..], Num(CharValue(t)))
  }

  /** The argument list of "# variable (...)": any character but ')' separates two names. */
  function ParseArgs(s: string): (r: Option<string>)
    requires s != ""
    ensures r.Some? ==> |r.value| < |s|
    decreases |s|
  {
    var v := ParseVariable(s[1..]);
    if v == None then None
    else
      var t := SkipSpace(v.value.0);
      if t == "" then None
      else if t[0] == ')' then Some(t[1..])
      else ParseArgs(t)
  }

  function ParseMacro(s: string): (r: Parse)
    ensures r.Ok? ==> |r.rest| <= |s|
  {
    var v := ParseVariable(s);
    if v == None then Fail(Num(0))
    else
      var u := SkipSpace(v.value.0);
      if First(u) != '(' then Fail(Num(0))
      else
        var a := ParseArgs(u);
        if a == None then Fail(Num(0)) else Ok(a.value, Num(1))
  }

  predicate IsKeywordAt(t: string) {
    |t| >= 7 && t[..7] == "defined" && !IsAlnum(At(t, 7))
  }

  function ParseDefined(env: Env, s: string): (r: Parse)
    ensures r.Ok? ==> |r.rest| <= |s|
  {
    var t := SkipSpace(s);
    var paren := First(t) == '(';
    var v := ParseVariable(if paren then t[1..] else t);
    if v == None then Fail(Num(0))
    else
      var u := SkipSpace(v.value.0);
      if paren && First(u) != ')' then Fail(Num(0))
      else Ok(if paren then u[1..] else u, Truth(env.isDefined(v.value.1)))
  }

  function ParseValue(env: Env, s: string): (r: Parse)
    ensures r.Ok? ==> |r.rest| <= |s|
    decreases |s|, 0
  {
    var t := SkipSpace(s);
    if t == "" then Ok("", Num(0))
    else if t[0] == '(' then
      var r := ParseLevel(env, COND, t[1..]);
      if !r.Ok? then r
      else
        var u := SkipSpace(r.rest);
        if First(u) != ')' then Fail(r.val) else Ok(u[1..], r.val)
    else if t[0] == '!' then Unary(LogNot, ParseValue(env, t[1..]))
    else if t[0] == '-' then Unary(Negate, ParseValue(env, t[1..]))
    else if t[0] == '~' then Unary(Complement, ParseValue(env, t[1..]))
    else if t[0] == '#' then ParseMacro(t[1..])
    else if t[0] == '\'' then ParseCharacter(t[1..])
    else if IsKeywordAt(t) then ParseDefined(env, t[7..])
    else if IsDigit(t[0]) then ParseNumber(t)
    else
      var v := ParseVariable(t);
      if v == None then Fail(Num(0)) else Ok(v.value.0, Num(env.variable(v.value.1)))
  }

  function Unary(op: UnOp, r: Parse): Parse {
    if r.Ok? then Ok(r.rest, ApplyUn(op, r.val)) else r
  }

  /** What an error in a right operand leaves: the left operand's value, unless C had gone wrong by then. */
  function FailRight(left: Num, r: Parse): Parse {
    if r.Fail? && r.val != Undef then Fail(left) else r
  }

  /** parse_product (1) to parse_lor (10) and parse_cond (11). */
  function ParseLevel(env: Env, level: nat, s: string): (r: Parse)
    requires 1 <= level <= COND
    ensures r.Ok? ==> |r.rest| <= |s| && !IsSpace(First(r.rest))
    decreases |s|, level
  {
    var left := if level == 1 then ParseValue(env, s) else ParseLevel(env, level - 1, s);
    if !left.Ok? then left
    else
      var t := SkipSpace(left.rest);
      if level == COND then
        if First(t) != '?' then Ok(t, left.val)
        else
          var yes := ParseLevel(env, COND, t[1..]);
          if !yes.Ok? then FailRight(left.val, yes)
          else
            var u := SkipSpace(yes.rest);
            if First(u) != ':' then Fail(if yes.val == Undef then Undef else left.val)
            else
              var no := ParseLevel(env, COND, u[1..]);
              if !no.Ok? then FailRight(if yes.val == Undef then Undef else left.val, no)
              else Ok(no.rest, Choose(left.val, yes.val, no.val))
      else
        match MatchOp(level, t)
        case NoOp => Ok(t, left.val)
        case BadOp => Fail(left.val)
        case IsOp(op, len) =>
          var right := ParseLevel(env, level, t[len..]);
          if !right.Ok? then FailRight(left.val, right)
          else Ok(right.rest, Apply(op, left.val, right.val))
  }

  /** The entry point. */
  function ParseIfExpression(env: Env, s: string): Parse {
    ParseLevel(env, COND, s)
  }
}
