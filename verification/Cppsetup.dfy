/**
 Where expressions meet the symbol tables: macro values, #if conditions, and an #include that names
 a macro.  `defs` are the definitions visible from the file at that moment.
 */
module Cppsetup {
  import opened CStrings
  import opened CText
  import opened CNumbers
  import opened Wrappers
  import opened IfParser
  import opened IfGrammar
  import opened IfTheorems
  import opened AliasChain

  type Defs = map<string, string>

  const MAXNAMELEN: nat := 256

  /** lookup_variable: a longer name is never found. */
  function LookupVariable(defs: Defs, name: string): Option<string> {
    if |name| > MAXNAMELEN || name !in defs then None else Some(defs[name])
  }

  /** The links my_eval_variable follows: only text that begins like a name is looked up. */
  function Aliases(defs: Defs): Links {
    map name | name in defs && |name| <= MAXNAMELEN && IsVarFirst(First(name)) :: defs[name]
  }

  /** The number a name stands for; an undefined name stands for 0. */
  function Value(defs: Defs, name: string): int {
    if name in Aliases(defs) then Strtol(End(Aliases(defs), name), 0).val else 0
  }

  /** A text that my_eval_variable follows: it begins with a letter or '_', is at most 256 characters long, and is defined. */
  predicate IsFollowed(defs: Defs, text: string) {
    text in defs && 0 < |text| <= 256 && ('a' <= text[0] <= 'z' || 'A' <= text[0] <= 'Z' || text[0] == '_')
  }

  /** The texts that are followed from one to the next, and the one that is not followed. */
  predicate IsFollowedThrough(defs: Defs, chain: seq<string>) {
    && chain != [] && !IsFollowed(defs, chain[|chain| - 1])
    && forall k :: 0 <= k < |chain| - 1 ==> IsFollowed(defs, chain[k]) && defs[chain[k]] == chain[k + 1]
  }

  /** 0 for what is not defined or too long; else the number at the front of the last text. */
  method EvalVariable(defs: Defs, name: string) returns (value: int, ghost chain: seq<string>)
    requires IsVarFirst(First(name)) && Ends(Aliases(defs), name)
    ensures value == Value(defs, name)
    ensures IsFollowedThrough(defs, chain) && chain[0] == name
    ensures value == if name !in defs || |name| > 256 then 0 else Strtol(chain[|chain| - 1], 0).val
  {
    chain := [name];
    var s := LookupVariable(defs, name);
    if s == None {
      return 0, chain;
    }
    ghost var links := Aliases(defs);
    ghost var bound: nat := |links|;
    EndsIffAcyclic(links, name);
    var text := name;
    while true
      invariant chain != [] && chain[0] == name
      invariant chain[|chain| - 1] in links && s == Some(links[chain[|chain| - 1]])
      invariant forall k :: 0 <= k < |chain| - 1 ==> IsFollowed(defs, chain[k]) && defs[chain[k]] == chain[k + 1]
      invariant EndsAt(links, chain[|chain| - 1], bound) && End(links, chain[|chain| - 1]) == End(links, name)
      decreases bound
    {
      EndOfLink(links, chain[|chain| - 1], bound);
      text := s.value;
      chain, bound := chain + [text], bound - 1;
      if !IsVarFirst(First(text)) {
        break;
      }
      s := LookupVariable(defs, text);
      if s == None {
        break;
      }
    }
    return Strtol(text, 0).val, chain;
  }

  /** The value depends on the texts followed only. */
  lemma ValueIs(defs: Defs, chain: seq<string>)
    requires IsFollowedThrough(defs, chain)
    ensures Value(defs, chain[0]) == if |chain| == 1 then 0 else Strtol(chain[|chain| - 1], 0).val
  {
    assert forall x :: x in Aliases(defs) <==> IsFollowed(defs, x);
    assert |chain| > 1 ==> IsFollowed(defs, chain[0]);
    ChainEnds(Aliases(defs), chain);
  }

  lemma IsAlias(defs: Defs, text: string)
    ensures text in Aliases(defs) <==> IsFollowed(defs, text)
  {
  }

  /** A macro that stands for a macro has its value, ... */
  lemma AliasHasValue(defs: Defs, name: string)
    requires IsFollowed(defs, name) && IsFollowed(defs, defs[name]) && Ends(Aliases(defs), name)
    ensures Value(defs, name) == Value(defs, defs[name])
  {
    IsAlias(defs, name);
    IsAlias(defs, defs[name]);
    EndsIffAcyclic(Aliases(defs), name);
    EndOfLink(Aliases(defs), name, |Aliases(defs)|);
  }

  /** ... and one that stands for a number that number. */
  lemma NumberHasValue(defs: Defs, name: string, n: nat)
    requires IsFollowed(defs, name)
    ensures defs[name] == Decimal(n) ==> Value(defs, name) == if n <= LONG_MAX then n else LONG_MAX
    ensures defs[name] == "-" + Decimal(n) ==> Value(defs, name) == if n <= LONG_MAX + 1 then -(n as int) else LONG_MIN
  {
    if defs[name] == Decimal(n) || defs[name] == "-" + Decimal(n) { ValueIs(defs, [name, defs[name]]); }
    DecimalRoundTrip(n);
  }

  /** The text an #include stands for: here any text is looked up, whatever it begins with. */
  method ExpandInclude(defs: Defs, text: string) returns (p: string)
    requires Ends(defs, text)
    ensures p == End(defs, text)
  {
    p := text;
    ghost var bound: nat := |defs|;
    EndsIffAcyclic(defs, text);
    while p in defs
      invariant EndsAt(defs, p, bound) && End(defs, p) == End(defs, text)
      decreases bound
    {
      EndOfLink(defs, p, bound);
      bound := bound - 1;
      p := defs[p];
    }
  }

  // ---------- conditions ----------

  function EnvOf(defs: Defs): Env {
    Env(name => Value(defs, name), name => LookupVariable(defs, name).Some?)
  }

  predicate NonZero(v: Num) { v.Num? && v.n != 0 }

  /** zero_value: true for every value but 0; after an error the value reached so far counts. */
  function IsTrue(defs: Defs, line: string): bool {
    match ParseIfExpression(EnvOf(defs), line)
    case Ok(_, v) => NonZero(v)
    case Fail(v) => NonZero(v)
    case Overrun => false
  }

  /** The parser asks for the value of every variable it reads: the chains of all of them end. */
  ghost predicate ValueEnds(links: Links, v: Value) {
    match v
    case Paren(_, e, _) => AllEnd(links, e)
    case UnaryOp(_, _, x) => ValueEnds(links, x)
    case Variable(_, name) => Ends(links, name)
    case _ => true
  }

  ghost predicate AllEnd(links: Links, e: Expr) {
    match e
    case Leaf(v) => ValueEnds(links, v)
    case Binary(_, left, _, _, _, right) => AllEnd(links, left) && AllEnd(links, right)
    case Cond(test, _, yes, _, no) => AllEnd(links, test) && AllEnd(links, yes) && AllEnd(links, no)
  }

  /** The condition of a line that spells an expression whose names all have values is the value of the expression. */
  lemma TrueIffNonZero(defs: Defs, e: Expr, ws: string, line: string)
    requires Spells(e, ws, line) && AllEnd(Aliases(defs), e)
    ensures IsTrue(defs, line) <==> NonZero(Eval(EnvOf(defs), e))
  {
    AcceptsExactlyTheLanguage(EnvOf(defs), line, Eval(EnvOf(defs), e));
  }
}
