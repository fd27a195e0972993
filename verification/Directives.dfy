/**
 What kind of directive a line is (deftype, apart from evaluating conditions), and the
 two mutually dependent scanners find_includes and gobble as functions on the remaining lines.
 */
module Directives {
  import opened CStrings
  import opened CText
  import opened Wrappers

  type File = nat

  // ---------- the text of a directive ----------

  datatype Kind =
    | If(expr: string) | IfDef(symbol: string) | IfNDef(symbol: string)
    | Else | EndIf | Elif(expr: string)
    | Define(def: string) | Undef(symbol: string) | Include(text: string)
    | Other | Unknown

  predicate IsLower(c: char) { 'a' <= c <= 'z' }

  function SkipBlanks(s: string): string { s[Run(s, IsBlank)..] }

  /** The directive word stands between the '#', blanks and the first character that is no lower-case letter. */
  function KindOf(line: string): Kind {
    var d := SkipBlanks(if line == "" then "" else line[1..]);
    var n := Run(d, IsLower);
    KindBy(d[..n], SkipBlanks(d[n..]))
  }

  function Symbol(p: string): string { p[..Run(p, IsIdent)] }

  function KindBy(word: string, p: string): Kind {
    if word == "if" then If(p)
    else if word == "ifdef" then IfDef(Symbol(p))
    else if word == "ifndef" then IfNDef(Symbol(p))
    else if word == "else" then Else
    else if word == "endif" then EndIf
    else if word == "elif" then Elif(p)
    else if word == "define" then Define(p)
    else if word == "undef" then Undef(Symbol(p))
    else if word == "include" then Include(p)
    else if word in {"line", "pragma", "error", "ident", "sccs", "eject", "warning"} then Other
    else Unknown
  }

  /** The file name of an #include: up to the closing quote or bracket, or the end of the line. */
  datatype IncludeName = NoName | Quoted(name: string) | Bracketed(name: string)

  function ParseInclude(p: string): IncludeName {
    var s := p[Run(p, c => c != '"' && c != '<')..];
    if s == "" then NoName
    else if s[0] == '"' then Quoted(s[1..][..Run(s[1..], c => c != '"')])
    else Bracketed(s[1..][..Run(s[1..], c => c != '>')])
  }

  /** A line that begins with '#', and what it says. */
  datatype Directive = Directive(text: string, kind: Kind)

  function Parse(line: string): Directive { Directive(line, KindOf(line)) }

  // ---------- what the scanners work on ----------

  /**
   The rest of the program, for one command-line file.  `w` is its whole state; looking at a condition
   may change it, because a lookup merges tables.
   */
  datatype Ops<!W> = Ops(
    truth: (W, string) -> (bool, W),
    isDefined: (W, string) -> (bool, W),
    define: (W, File, string) -> W,
    undefine: (W, string) -> W,
    includeName: (W, File, string) -> (IncludeName, W),
    find: (W, File, string, bool) -> (Option<File>, W),
    includedBy: (W, File, File) -> W,
    finish: (W, File) -> W)

  /** The lines of every file that can be opened. */
  type Contents = map<File, seq<Directive>>

  /** `searched` are the files marked SEARCHED; `scanned` the files add_include has read, in order. */
  datatype State<W> = State(w: W, searched: set<File>, scanned: seq<File>)

  predicate Opens(k: Kind) { k.If? || k.IfDef? || k.IfNDef? }

  /** The condition of an #if, #ifdef, #ifndef or #elif. */
  function Test<W>(ops: Ops<W>, kind: Kind, w: W): (bool, W) {
    match kind
    case If(expr) => ops.truth(w, expr)
    case Elif(expr) => ops.truth(w, expr)
    case IfDef(symbol) => ops.isDefined(w, symbol)
    case IfNDef(symbol) => var (b, w1) := ops.isDefined(w, symbol); (!b, w1)
    case _ => (false, w)
  }

  /** What a scanner returns: the directive that stopped it, or the end of the input. */
  datatype Stop = AtElse | AtEndIf | AtElif | AtElifFalse | AtEnd

  predicate IsElif(t: Stop) { t == AtElif || t == AtElifFalse }

  // ---------- gobble ----------

  datatype Gobbled<W> = Gobbled(stop: Stop, rest: seq<Directive>, w: W)

  /** Skips to the end of the group: only #elif conditions are looked at. */
  function Gobble<W>(ops: Ops<W>, lines: seq<Directive>, w: W): (r: Gobbled<W>)
    ensures |r.rest| <= |lines| && (r.stop != AtEnd ==> |r.rest| < |lines|)
    ensures r.stop == AtEnd ==> r.rest == []
    decreases |lines|, 0
  {
    if lines == [] then Gobbled(AtEnd, [], w)
    else
      var kind := lines[0].kind;
      if Opens(kind) then
        var r := GobbleIf(ops, lines[1..], w);
        Gobble(ops, r.rest, r.w)
      else if kind.Elif? then
        var (b, w1) := Test(ops, kind, w);
        Gobbled(if b then AtElif else AtElifFalse, lines[1..], w1)
      else if kind.Else? then Gobbled(AtElse, lines[1..], w)
      else if kind.EndIf? then Gobbled(AtEndIf, lines[1..], w)
      else Gobble(ops, lines[1..], w)
  }

  /** The rest of a conditional inside skipped text. */
  function GobbleIf<W>(ops: Ops<W>, lines: seq<Directive>, w: W): (r: Gobbled<W>)
    ensures |r.rest| <= |lines|
    decreases |lines|, 3
  {
    var r := Gobble(ops, lines, w);
    GobbleRest(ops, r.stop, r.rest, r.w)
  }

  /** All remaining groups: while at an #elif, then once more at an #else. */
  function GobbleRest<W>(ops: Ops<W>, stop: Stop, lines: seq<Directive>, w: W): (r: Gobbled<W>)
    ensures |r.rest| <= |lines|
    decreases |lines|, if IsElif(stop) then 2 else 1
  {
    if IsElif(stop) then
      var r := Gobble(ops, lines, w);
      GobbleRest(ops, r.stop, r.rest, r.w)
    else if stop == AtElse then Gobble(ops, lines, w)
    else Gobbled(stop, lines, w)
  }

  // ---------- find_includes ----------

  datatype Found<W> = Found(stop: Stop, rest: seq<Directive>, st: State<W>)

  ghost function Unsearched<W>(contents: Contents, st: State<W>): set<File> { contents.Keys - st.searched }

  /** The directives that do something. */
  function Execute<W>(ops: Ops<W>, contents: Contents, file: File, kind: Kind, st: State<W>): (st': State<W>)
    ensures st.searched <= st'.searched
    decreases Unsearched(contents, st), 0, 1
  {
    match kind
    case Define(def) => st.(w := ops.define(st.w, file, def))
    case Undef(symbol) => if symbol == "" then st else st.(w := ops.undefine(st.w, symbol))
    case Include(text) =>
      var (name, w1) := ops.includeName(st.w, file, text);
      (match name
       case NoName => st.(w := w1)
       case Quoted(name) => AddInclude(ops, contents, file, ops.find(w1, file, name, true), st)
       case Bracketed(name) => AddInclude(ops, contents, file, ops.find(w1, file, name, false), st))
    case _ => st
  }

  /** add_include reads a file that was not SEARCHED before; one that cannot be opened reads as empty. */
  function AddInclude<W>(ops: Ops<W>, contents: Contents, file: File, found: (Option<File>, W), st: State<W>): (st': State<W>)
    ensures st.searched <= st'.searched
    decreases Unsearched(contents, st), 0, 0
  {
    match found.0
    case None => st.(w := found.1)
    case Some(f) =>
      var st1 := st.(w := ops.includedBy(found.1, file, f));
      if f in st1.searched then st1
      else
        var st2 := st1.(searched := st1.searched + {f}, scanned := st1.scanned + [f]);
        if f in contents then FindIncludes(ops, contents, f, 0, contents[f], st2).st
        else st2.(w := ops.finish(st2.w, f))
  }

  /** Reads lines up to the directive that ends the group it was called for, or to the end of the file. */
  function FindIncludes<W>(ops: Ops<W>, contents: Contents, file: File, depth: nat, lines: seq<Directive>, st: State<W>): (r: Found<W>)
    ensures |r.rest| <= |lines| && (r.stop != AtEnd ==> |r.rest| < |lines|)
    ensures st.searched <= r.st.searched
    decreases Unsearched(contents, st), |lines|, 2
  {
    if lines == [] then Found(AtEnd, [], st.(w := ops.finish(st.w, file)))
    else
      var kind := lines[0].kind;
      if Opens(kind) then
        var (b, w1) := Test(ops, kind, st.w);
        var r := Conditional(ops, contents, file, depth, b, lines[1..], st.(w := w1));
        FindIncludes(ops, contents, file, depth, r.rest, r.st)
      else if kind.Else? || kind.Elif? then
        Stray(ops, contents, file, depth, if kind.Else? then AtElse else AtElif, lines, st)
      else if kind.EndIf? then
        if depth > 0 then Found(AtEndIf, lines[1..], st)
        else FindIncludes(ops, contents, file, depth, lines[1..], st.(w := ops.define(st.w, file, lines[0].text)))
      else
        FindIncludes(ops, contents, file, depth, lines[1..], Execute(ops, contents, file, kind, st))
  }

  /** #else and #elif end a group; outside any they skip one and fall through into define. */
  function Stray<W>(ops: Ops<W>, contents: Contents, file: File, depth: nat, stop: Stop, lines: seq<Directive>, st: State<W>): (r: Found<W>)
    requires lines != []
    ensures |r.rest| <= |lines| && (r.stop != AtEnd ==> |r.rest| < |lines|)
    ensures st.searched <= r.st.searched
    decreases Unsearched(contents, st), |lines|, 0
  {
    if depth > 0 then Found(stop, lines[1..], st)
    else
      var g := Gobble(ops, lines[1..], st.w);
      FindIncludes(ops, contents, file, depth, g.rest, st.(w := ops.define(g.w, file, lines[0].text)))
  }

  /** The labels doif and doiffalse: the groups of a conditional, after its first condition came out as `taken`. */
  function Conditional<W>(ops: Ops<W>, contents: Contents, file: File, depth: nat, taken: bool,
                          lines: seq<Directive>, st: State<W>): (r: Found<W>)
    ensures |r.rest| <= |lines|
    ensures st.searched <= r.st.searched
    decreases Unsearched(contents, st), |lines|, 3
  {
    if taken then
      var r := FindIncludes(ops, contents, file, depth + 1, lines, st);
      var g := GobbleRest(ops, r.stop, r.rest, r.st.w);
      Found(AtEnd, g.rest, r.st.(w := g.w))
    else
      var g := Gobble(ops, lines, st.w);
      var st1 := st.(w := g.w);
      match g.stop
      case AtElse => FindIncludes(ops, contents, file, depth + 1, g.rest, st1)
      case AtElif => Conditional(ops, contents, file, depth, true, g.rest, st1)
      case AtElifFalse => Conditional(ops, contents, file, depth, false, g.rest, st1)
      case _ => Found(AtEnd, g.rest, st1)
  }
}
