/**
 Well-nested input as a tree of groups, what it means, and the proof that the two scanners
 on the flat stream of lines do exactly that.
 */
module Nesting {
  import opened CStrings
  import opened Wrappers
  import opened Directives

  /** A sequence of lines and conditionals, and what can follow the first group of a conditional. */
  datatype Block = Empty | Plain(line: Directive, rest: Block) | Cond(open: Directive, body: Block, tail: Tail, rest: Block)

  datatype Tail =
    | EndTail(line: Directive)
    | ElseTail(line: Directive, body: Block, end: Directive)
    | ElifTail(line: Directive, body: Block, tail: Tail)

  predicate Closes(k: Kind) { k.Else? || k.EndIf? || k.Elif? }

  /** Every line is the directive its place in the tree says. */
  predicate WellNested(b: Block) {
    match b
    case Empty => true
    case Plain(line, rest) => !Opens(line.kind) && !Closes(line.kind) && WellNested(rest)
    case Cond(open, body, tail, rest) => Opens(open.kind) && WellNested(body) && WellNestedTail(tail) && WellNested(rest)
  }

  predicate WellNestedTail(t: Tail) {
    match t
    case EndTail(line) => line.kind.EndIf?
    case ElseTail(line, body, end) => line.kind.Else? && WellNested(body) && end.kind.EndIf?
    case ElifTail(line, body, tail) => line.kind.Elif? && WellNested(body) && WellNestedTail(tail)
  }

  /** The lines of a block with `more` after them. */
  function Lines(b: Block, more: seq<Directive>): seq<Directive> {
    match b
    case Empty => more
    case Plain(line, rest) => [line] + Lines(rest, more)
    case Cond(open, body, tail, rest) => [open] + Lines(body, TailLines(tail, Lines(rest, more)))
  }

  function TailLines(t: Tail, more: seq<Directive>): seq<Directive> {
    match t
    case EndTail(line) => [line] + more
    case ElseTail(line, body, end) => [line] + Lines(body, [end] + more)
    case ElifTail(line, body, tail) => [line] + Lines(body, TailLines(tail, more))
  }

  type Trees = map<File, Block>

  function ContentsOf(trees: Trees): Contents { map f | f in trees :: Lines(trees[f], []) }

  ghost predicate AllWellNested(trees: Trees) { forall f :: f in trees ==> WellNested(trees[f]) }

  // ---------- what a tree means ----------

  /** Skipped text: every #elif in it is looked at, whatever it is nested in. */
  function SkipBlock<W>(ops: Ops<W>, b: Block, w: W): W {
    match b
    case Empty => w
    case Plain(_, rest) => SkipBlock(ops, rest, w)
    case Cond(_, body, tail, rest) => SkipBlock(ops, rest, SkipTail(ops, tail, SkipBlock(ops, body, w)))
  }

  function SkipTail<W>(ops: Ops<W>, t: Tail, w: W): W {
    match t
    case EndTail(_) => w
    case ElseTail(_, body, _) => SkipBlock(ops, body, w)
    case ElifTail(line, body, tail) => SkipTail(ops, tail, SkipBlock(ops, body, Test(ops, line.kind, w).1))
  }

  /** After a group that was taken the next #elif is not looked at; those behind it are. */
  function SkipAfterTaken<W>(ops: Ops<W>, t: Tail, w: W): W {
    match t
    case EndTail(_) => w
    case ElseTail(_, body, _) => SkipBlock(ops, body, w)
    case ElifTail(_, body, tail) => SkipTail(ops, tail, SkipBlock(ops, body, w))
  }

  function Size(b: Block): nat {
    match b
    case Empty => 0
    case Plain(_, rest) => 1 + Size(rest)
    case Cond(_, body, tail, rest) => 1 + Size(body) + TailSize(tail) + Size(rest)
  }

  function TailSize(t: Tail): nat {
    match t
    case EndTail(_) => 1
    case ElseTail(_, body, _) => 1 + Size(body)
    case ElifTail(_, body, tail) => 1 + Size(body) + TailSize(tail)
  }

  ghost function Unread<W>(trees: Trees, st: State<W>): set<File> { trees.Keys - st.searched }

  function ExecBlock<W>(ops: Ops<W>, trees: Trees, file: File, b: Block, st: State<W>): (st': State<W>)
    ensures st.searched <= st'.searched
    decreases Unread(trees, st), Size(b), 1
  {
    match b
    case Empty => st
    case Plain(line, rest) =>
      var st1 := ExecLine(ops, trees, file, line.kind, st);
      ExecBlock(ops, trees, file, rest, st1)
    case Cond(open, body, tail, rest) =>
      var (taken, w1) := Test(ops, open.kind, st.w);
      var st1 := ExecGroups(ops, trees, file, taken, body, tail, st.(w := w1));
      ExecBlock(ops, trees, file, rest, st1)
  }

  /** The first group if its condition held, else the groups behind it. */
  function ExecGroups<W>(ops: Ops<W>, trees: Trees, file: File, taken: bool, body: Block, tail: Tail, st: State<W>): (st': State<W>)
    ensures st.searched <= st'.searched
    decreases Unread(trees, st), Size(body) + TailSize(tail), 1
  {
    if taken then
      var st1 := ExecBlock(ops, trees, file, body, st);
      st1.(w := SkipAfterTaken(ops, tail, st1.w))
    else
      ExecTail(ops, trees, file, tail, st.(w := SkipBlock(ops, body, st.w)))
  }

  function ExecTail<W>(ops: Ops<W>, trees: Trees, file: File, t: Tail, st: State<W>): (st': State<W>)
    ensures st.searched <= st'.searched
    decreases Unread(trees, st), TailSize(t), 0
  {
    match t
    case EndTail(_) => st
    case ElseTail(_, body, _) => ExecBlock(ops, trees, file, body, st)
    case ElifTail(line, body, tail) =>
      var (taken, w1) := Test(ops, line.kind, st.w);
      ExecGroups(ops, trees, file, taken, body, tail, st.(w := w1))
  }

  /** A directive that does something; an #include executes the tree of the file. */
  function ExecLine<W>(ops: Ops<W>, trees: Trees, file: File, kind: Kind, st: State<W>): (st': State<W>)
    ensures st.searched <= st'.searched
    decreases Unread(trees, st), 0, 1
  {
    match kind
    case Define(def) => st.(w := ops.define(st.w, file, def))
    case Undef(symbol) => if symbol == "" then st else st.(w := ops.undefine(st.w, symbol))
    case Include(text) =>
      var (name, w1) := ops.includeName(st.w, file, text);
      (match name
       case NoName => st.(w := w1)
       case Quoted(name) => ExecInclude(ops, trees, file, ops.find(w1, file, name, true), st)
       case Bracketed(name) => ExecInclude(ops, trees, file, ops.find(w1, file, name, false), st))
    case _ => st
  }

  function ExecInclude<W>(ops: Ops<W>, trees: Trees, file: File, found: (Option<File>, W), st: State<W>): (st': State<W>)
    ensures st.searched <= st'.searched
    decreases Unread(trees, st), 0, 0
  {
    match found.0
    case None => st.(w := found.1)
    case Some(f) =>
      var st1 := st.(w := ops.includedBy(found.1, file, f));
      if f in st1.searched then st1
      else
        var st2 := st1.(searched := st1.searched + {f}, scanned := st1.scanned + [f]);
        if f in trees then ExecFile(ops, trees, f, st2) else st2.(w := ops.finish(st2.w, f))
  }

  /** A whole file: its tree, then the FINISHED mark. */
  function ExecFile<W>(ops: Ops<W>, trees: Trees, file: File, st: State<W>): (st': State<W>)
    requires file in trees
    ensures st.searched <= st'.searched
    decreases Unread(trees, st), Size(trees[file]), 2
  {
    var st1 := ExecBlock(ops, trees, file, trees[file], st);
    st1.(w := ops.finish(st1.w, file))
  }

  // ---------- gobble skips a group ----------

  lemma {:induction false} GobbleBlock<W>(ops: Ops<W>, b: Block, more: seq<Directive>, w: W)
    requires WellNested(b)
    ensures Gobble(ops, Lines(b, more), w) == Gobble(ops, more, SkipBlock(ops, b, w))
    decreases Size(b), 1
  {
    match b
    case Empty =>
    case Plain(line, rest) =>
      assert Lines(b, more)[1..] == Lines(rest, more);
      GobbleBlock(ops, rest, more, w);
    case Cond(open, body, tail, rest) =>
      var k := Lines(rest, more);
      assert Lines(b, more)[1..] == Lines(body, TailLines(tail, k));
      GobbleBlock(ops, body, TailLines(tail, k), w);
      GobbleTail(ops, tail, k, SkipBlock(ops, body, w));
      GobbleBlock(ops, rest, more, SkipTail(ops, tail, SkipBlock(ops, body, w)));
  }

  function FirstOf(t: Tail): Directive {
    match t
    case EndTail(line) => line
    case ElseTail(line, _, _) => line
    case ElifTail(line, _, _) => line
  }

  /** The lines behind the first one of a tail. */
  function AfterFirst(t: Tail, more: seq<Directive>): seq<Directive> {
    match t
    case EndTail(_) => more
    case ElseTail(_, body, end) => Lines(body, [end] + more)
    case ElifTail(_, body, tail) => Lines(body, TailLines(tail, more))
  }

  lemma TailSplits(t: Tail, more: seq<Directive>)
    ensures TailLines(t, more) == [FirstOf(t)] + AfterFirst(t, more)
    ensures TailLines(t, more) != [] && TailLines(t, more)[0] == FirstOf(t) && TailLines(t, more)[1..] == AfterFirst(t, more)
  {
  }

  function GobbledAt<W>(ops: Ops<W>, t: Tail, more: seq<Directive>, w: W): Gobbled<W> {
    match t
    case EndTail(_) => Gobbled(AtEndIf, AfterFirst(t, more), w)
    case ElseTail(_, _, _) => Gobbled(AtElse, AfterFirst(t, more), w)
    case ElifTail(line, _, _) =>
      var (b, w1) := Test(ops, line.kind, w);
      Gobbled(if b then AtElif else AtElifFalse, AfterFirst(t, more), w1)
  }

  /** Where gobble stops: it looks at the condition of an #elif. */
  lemma GobbleStops<W>(ops: Ops<W>, t: Tail, more: seq<Directive>, w: W)
    requires WellNestedTail(t)
    ensures Gobble(ops, TailLines(t, more), w) == GobbledAt(ops, t, more, w)
  {
    TailSplits(t, more);
  }

  lemma GobbleElse<W>(ops: Ops<W>, body: Block, end: Directive, more: seq<Directive>, w: W)
    requires WellNested(body) && end.kind.EndIf?
    ensures Gobble(ops, Lines(body, [end] + more), w) == Gobbled(AtEndIf, more, SkipBlock(ops, body, w))
    decreases Size(body), 2
  {
    GobbleBlock(ops, body, [end] + more, w);
    GobbleStops(ops, EndTail(end), more, SkipBlock(ops, body, w));
  }

  /** From the end of a group, the remaining groups of the conditional. */
  lemma {:induction false} GobbleTail<W>(ops: Ops<W>, t: Tail, more: seq<Directive>, w: W)
    requires WellNestedTail(t)
    ensures var r := Gobble(ops, TailLines(t, more), w);
            var g := GobbleRest(ops, r.stop, r.rest, r.w);
            g.rest == more && g.w == SkipTail(ops, t, w)
    decreases TailSize(t), 0
  {
    GobbleStops(ops, t, more, w);
    match t
    case EndTail(line) =>
    case ElseTail(line, body, end) => GobbleElse(ops, body, end, more, w);
    case ElifTail(line, body, tail) =>
      var w1 := Test(ops, line.kind, w).1;
      GobbleBlock(ops, body, TailLines(tail, more), w1);
      GobbleTail(ops, tail, more, SkipBlock(ops, body, w1));
  }

  // ---------- find_includes executes the chosen groups ----------

  /** Where find_includes stops inside a group: it does not look at the condition of an #elif. */
  lemma FindStops<W>(ops: Ops<W>, contents: Contents, file: File, depth: nat, t: Tail, more: seq<Directive>, st: State<W>)
    requires WellNestedTail(t) && depth > 0
    ensures FindIncludes(ops, contents, file, depth, TailLines(t, more), st) ==
            Found(if t.EndTail? then AtEndIf else if t.ElseTail? then AtElse else AtElif, AfterFirst(t, more), st)
  {
    TailSplits(t, more);
  }

  /** At the end of a group that was taken, the other groups are skipped. */
  lemma AfterTaken<W>(ops: Ops<W>, contents: Contents, file: File, depth: nat, t: Tail, more: seq<Directive>, st: State<W>)
    requires WellNestedTail(t) && depth > 0
    ensures var r := FindIncludes(ops, contents, file, depth, TailLines(t, more), st);
            var g := GobbleRest(ops, r.stop, r.rest, r.st.w);
            r.st == st && g.rest == more && g.w == SkipAfterTaken(ops, t, st.w)
  {
    FindStops(ops, contents, file, depth, t, more, st);
    match t
    case EndTail(line) =>
    case ElseTail(line, body, end) => GobbleElse(ops, body, end, more, st.w);
    case ElifTail(line, body, tail) =>
      GobbleBlock(ops, body, TailLines(tail, more), st.w);
      GobbleTail(ops, tail, more, SkipBlock(ops, body, st.w));
  }

  lemma {:induction false} FindBlock<W>(ops: Ops<W>, trees: Trees, file: File, depth: nat, b: Block, more: seq<Directive>, st: State<W>)
    requires AllWellNested(trees) && WellNested(b)
    ensures FindIncludes(ops, ContentsOf(trees), file, depth, Lines(b, more), st)
            == FindIncludes(ops, ContentsOf(trees), file, depth, more, ExecBlock(ops, trees, file, b, st))
    decreases Unread(trees, st), Size(b), 1
  {
    match b
    case Empty =>
    case Plain(line, rest) =>
      assert Lines(b, more)[1..] == Lines(rest, more);
      FindLine(ops, trees, file, line.kind, st);
      FindBlock(ops, trees, file, depth, rest, more, ExecLine(ops, trees, file, line.kind, st));
    case Cond(open, body, tail, rest) =>
      var k := Lines(rest, more);
      assert Lines(b, more)[1..] == Lines(body, TailLines(tail, k));
      var (taken, w1) := Test(ops, open.kind, st.w);
      var st1 := st.(w := w1);
      FindGroups(ops, trees, file, depth, taken, body, tail, k, st1);
      FindBlock(ops, trees, file, depth, rest, more, ExecGroups(ops, trees, file, taken, body, tail, st1));
  }

  lemma {:induction false} FindGroups<W>(ops: Ops<W>, trees: Trees, file: File, depth: nat, taken: bool, body: Block, tail: Tail,
                                         more: seq<Directive>, st: State<W>)
    requires AllWellNested(trees) && WellNested(body) && WellNestedTail(tail)
    ensures var r := Conditional(ops, ContentsOf(trees), file, depth, taken, Lines(body, TailLines(tail, more)), st);
            r.rest == more && r.st == ExecGroups(ops, trees, file, taken, body, tail, st)
    decreases Unread(trees, st), Size(body) + TailSize(tail), 1
  {
    if taken {
      FindBlock(ops, trees, file, depth + 1, body, TailLines(tail, more), st);
      AfterTaken(ops, ContentsOf(trees), file, depth + 1, tail, more, ExecBlock(ops, trees, file, body, st));
    } else {
      GobbleBlock(ops, body, TailLines(tail, more), st.w);
      FindTail(ops, trees, file, depth, tail, more, st.(w := SkipBlock(ops, body, st.w)));
    }
  }

  /** What Conditional does once the group that is not taken has been skipped. */
  lemma {:induction false} FindTail<W>(ops: Ops<W>, trees: Trees, file: File, depth: nat, t: Tail, more: seq<Directive>, st: State<W>)
    requires AllWellNested(trees) && WellNestedTail(t)
    ensures var r := Conditional(ops, ContentsOf(trees), file, depth, false, TailLines(t, more), st);
            r.rest == more && r.st == ExecTail(ops, trees, file, t, st)
    decreases Unread(trees, st), TailSize(t), 0
  {
    GobbleStops(ops, t, more, st.w);
    match t
    case EndTail(line) =>
    case ElseTail(line, body, end) => FindElse(ops, trees, file, depth, body, end, more, st);
    case ElifTail(line, body, tail) =>
      var (taken, w1) := Test(ops, line.kind, st.w);
      FindGroups(ops, trees, file, depth, taken, body, tail, more, st.(w := w1));
  }

  lemma {:induction false} FindElse<W>(ops: Ops<W>, trees: Trees, file: File, depth: nat, body: Block, end: Directive,
                                       more: seq<Directive>, st: State<W>)
    requires AllWellNested(trees) && WellNested(body) && end.kind.EndIf?
    ensures FindIncludes(ops, ContentsOf(trees), file, depth + 1, Lines(body, [end] + more), st)
            == Found(AtEndIf, more, ExecBlock(ops, trees, file, body, st))
    decreases Unread(trees, st), Size(body), 2
  {
    FindBlock(ops, trees, file, depth + 1, body, [end] + more, st);
    FindStops(ops, ContentsOf(trees), file, depth + 1, EndTail(end), more, ExecBlock(ops, trees, file, body, st));
  }

  lemma {:induction false} FindLine<W>(ops: Ops<W>, trees: Trees, file: File, kind: Kind, st: State<W>)
    requires AllWellNested(trees)
    ensures Execute(ops, ContentsOf(trees), file, kind, st) == ExecLine(ops, trees, file, kind, st)
    decreases Unread(trees, st), 0, 1
  {
    if kind.Include? {
      var (name, w1) := ops.includeName(st.w, file, kind.text);
      match name
      case NoName =>
      case Quoted(name) => FindInclude(ops, trees, file, ops.find(w1, file, name, true), st);
      case Bracketed(name) => FindInclude(ops, trees, file, ops.find(w1, file, name, false), st);
    }
  }

  lemma {:induction false} FindInclude<W>(ops: Ops<W>, trees: Trees, file: File, found: (Option<File>, W), st: State<W>)
    requires AllWellNested(trees)
    ensures AddInclude(ops, ContentsOf(trees), file, found, st) == ExecInclude(ops, trees, file, found, st)
    decreases Unread(trees, st), 0, 0
  {
    if found.0.Some? && found.0.value !in st.searched && found.0.value in trees {
      var f := found.0.value;
      var st1 := st.(w := ops.includedBy(found.1, file, f));
      FindFile(ops, trees, f, st1.(searched := st1.searched + {f}, scanned := st1.scanned + [f]));
    }
  }

  /** find_includes on the lines of a well-nested file executes its tree and reads it to the end. */
  lemma {:induction false} FindFile<W>(ops: Ops<W>, trees: Trees, file: File, st: State<W>)
    requires AllWellNested(trees) && file in trees
    ensures FindIncludes(ops, ContentsOf(trees), file, 0, ContentsOf(trees)[file], st)
            == Found(AtEnd, [], ExecFile(ops, trees, file, st))
    decreases Unread(trees, st), Size(trees[file]), 2
  {
    FindBlock(ops, trees, file, 0, trees[file], [], st);
  }
}
