/**
 Any sequence of what happens to the tables of a program: lookups, #undef, #define, new edges, and files that
 come to their end.
 */
module Runs {
  import opened CStrings
  import opened SymbolTable
  import opened LookupSpec
  import opened Visibility
  import opened Including
  import opened Defining
  import opened Wrappers

  /** `vals` are the cells there are, with their values. */
  datatype State = State(g: Graph, w: World, vals: map<Symtab, string>) {
    /** Between two operations no file is marked DEFCHECKED. */
    ghost predicate Ok() { g.Valid() && w.Valid(g) && w.checked == {} && CellsIn(w, vals.Keys) }
  }

  /** `cell` is the one that carries the definition afterwards. */
  datatype Op =
    | Look(symbol: CString, file: File)
    | Undef(symbol: CString, file: File)
    | Def(cell: Symtab, value: string, file: File)
    | Include(file: File, child: File)
    | Finish(file: File)

  ghost predicate Fits(s: State, op: Op)
    requires s.Ok()
  {
    && op.file < |s.g.lists|
    && (op.Include? ==> op.child < |s.g.lists| && op.file != s.g.main)
    && (op.Def? ==> IsCellFor(s, op.cell, op.file))
  }

  /** The file's own entry for the name, or a new cell. */
  ghost predicate IsCellFor(s: State, cell: Symtab, file: File)
    requires file < |s.w.tables|
  {
    if Holds(s.w.tables[file], cell.name) then cell == Lookup(s.w.tables[file], cell.name) else cell !in s.vals
  }

  ghost function Perform(s: State, op: Op): (s': State)
    requires s.Ok() && Fits(s, op)
    ensures s'.Ok() && |s'.g.lists| == |s.g.lists| && s'.g.main == s.g.main
  {
    match op
    case Look(symbol, file) =>
      LookupCells(s.g, s.w, symbol, file, s.vals.Keys);
      s.(w := IsDefined(s.g, s.w, symbol, file).1)
    case Undef(symbol, file) =>
      UndefineCells(s.g, s.w, symbol, file, s.vals.Keys);
      s.(w := Undefine(s.g, s.w, symbol, file))
    case Def(cell, value, file) =>
      DefineCells(s.g, s.w, file, cell, s.vals.Keys);
      s.(w := DefineIn(s.g, s.w, file, cell), vals := s.vals[cell := value])
    case Include(file, child) => s.(g := IncludeIn(s.g, file, child), w := Unmerged(s.g, s.w, file, child))
    case Finish(file) => s.(g := s.g.(finished := s.g.finished + {file}))
  }

  /** Each operation fits when its turn comes. */
  ghost predicate AllFit(s: State, ops: seq<Op>)
    requires s.Ok()
    decreases |ops|
  {
    ops == [] || (Fits(s, ops[0]) && AllFit(Perform(s, ops[0]), ops[1..]))
  }

  /** Whatever is done, all tables stay sorted, and every merge mark belongs to an edge. */
  ghost function Run(s: State, ops: seq<Op>): (s': State)
    requires s.Ok() && AllFit(s, ops)
    ensures s'.Ok() && |s'.g.lists| == |s.g.lists| && s'.g.main == s.g.main
    decreases |ops|
  {
    if ops == [] then s else Run(Perform(s, ops[0]), ops[1..])
  }

  lemma {:induction false} RunConcat(s: State, ops: seq<Op>, op: Op)
    requires s.Ok() && AllFit(s, ops) && Fits(Run(s, ops), op)
    ensures AllFit(s, ops + [op]) && Run(s, ops + [op]) == Perform(Run(s, ops), op)
    decreases |ops|
  {
    if ops == [] {
      assert [] + [op] == [op] && [op][1..] == [];
      assert AllFit(Perform(s, op), []);
    } else {
      assert (ops + [op])[1..] == ops[1..] + [op];
      RunConcat(Perform(s, ops[0]), ops[1..], op);
    }
  }

  // ---------- what can become visible ----------

  ghost predicate Sees(s: State, start: File, name: CString)
    requires s.Ok()
  {
    Visible(s.g, s.w, start, name)
  }

  /** The operation can bring the name into view: it defines it, or adds an edge to a file that sees it. */
  ghost predicate Brings(s: State, op: Op, name: CString)
    requires s.Ok() && Fits(s, op)
  {
    match op
    case Def(cell, _, _) => cell.name == name
    case Include(file, child) => IsNew(s.g, s.w, file, child) && Sees(s, child, name)
    case _ => false
  }

  lemma FinishShowsNothing(s: State, file: File, start: File, name: CString)
    requires s.Ok() && file < |s.g.lists|
    ensures Sees(Perform(s, Finish(file)), start, name) <==> Sees(s, start, name)
  {
    var t := Perform(s, Finish(file));
    if Sees(t, start, name) && !Holds(s.w.tables[s.g.main], name) {
      var h: File :| h < |s.g.lists| && Reaches(t.g, t.w, start, h) && Holds(s.w.tables[h], name);
      var p :| Path(t.g, t.w, p) && p[0] == start && p[|p| - 1] == h;
      forall k | 0 <= k < |p| - 1 ensures Open(s.g, s.w, p[k], p[k + 1]) { assert Open(t.g, t.w, p[k], p[k + 1]); }
      assert Path(s.g, s.w, p);
    }
    if Sees(s, start, name) && !Holds(s.w.tables[s.g.main], name) {
      var h: File :| h < |s.g.lists| && Reaches(s.g, s.w, start, h) && Holds(s.w.tables[h], name);
      var p :| Path(s.g, s.w, p) && p[0] == start && p[|p| - 1] == h;
      forall k | 0 <= k < |p| - 1 ensures Open(t.g, t.w, p[k], p[k + 1]) { assert Open(s.g, s.w, p[k], p[k + 1]); }
      assert Path(t.g, t.w, p);
    }
  }

  lemma OnlyBroughtIsSeen(s: State, op: Op, start: File, name: CString)
    requires s.Ok() && Fits(s, op) && start < |s.g.lists| && !Brings(s, op, name) && !Sees(s, start, name)
    ensures !Sees(Perform(s, op), start, name)
  {
    match op
    case Look(symbol, file) => LookupAddsNothing(s.g, s.w, symbol, file);
    case Undef(symbol, file) => UndefineAddsNothing(s.g, s.w, symbol, file);
    case Def(cell, _, file) => DefineShows(s.g, s.w, file, cell, start, name);
    case Include(file, child) => if IsNew(s.g, s.w, file, child) { IncludeShows(s.g, s.w, file, child, start, name); }
    case Finish(file) => FinishShowsNothing(s, file, start, name);
  }

  ghost predicate NeverBrings(s: State, ops: seq<Op>, name: CString)
    requires s.Ok() && AllFit(s, ops)
    decreases |ops|
  {
    ops != [] ==> !Brings(s, ops[0], name) && NeverBrings(Perform(s, ops[0]), ops[1..], name)
  }

  /** A symbol that a file does not see stays so until an operation brings it. */
  lemma {:induction false} HiddenStaysHidden(s: State, ops: seq<Op>, file: File, symbol: CString)
    requires s.Ok() && AllFit(s, ops) && file < |s.g.lists| && !Sees(s, file, symbol) && NeverBrings(s, ops, symbol)
    ensures var t := Run(s, ops); IsDefined(t.g, t.w, symbol, file).0 == None
    decreases |ops|
  {
    if ops == [] {
      IsDefinedIffVisible(s.g, s.w, symbol, file);
    } else {
      OnlyBroughtIsSeen(s, ops[0], file, symbol);
      HiddenStaysHidden(Perform(s, ops[0]), ops[1..], file, symbol);
    }
  }

  // ---------- cells ----------

  /** All tables are made of cells from `cells`. */
  ghost predicate CellsIn(w: World, cells: set<Symtab>) {
    forall f, k :: 0 <= f < |w.tables| && 0 <= k < |w.tables[f]| ==> w.tables[f][k] in cells
  }

  lemma {:induction false} MergeCells(a: Table, b: Table, k: nat)
    requires k < |Merge(a, b)|
    ensures Merge(a, b)[k] in a || Merge(a, b)[k] in b
  {
    if a != [] && b != [] {
      if Less(a[0].name, b[0].name) {
        if k > 0 { MergeCells(a[1..], b, k - 1); }
      } else if Less(b[0].name, a[0].name) {
        if k > 0 { MergeCells(a, b[1..], k - 1); }
      } else {
        if k > 0 { MergeCells(a[1..], b[1..], k - 1); }
      }
    }
  }

  lemma AfterChildCells(g: Graph, w: World, file: File, i: nat, cells: set<Symtab>)
    requires g.Valid() && w.Valid(g) && file < |g.lists| && i < |g.lists[file]| && CellsIn(w, cells)
    ensures CellsIn(AfterChild(g, w, file, i), cells)
  {
    var a, b := w.tables[file], w.tables[g.lists[file][i]];
    forall k | 0 <= k < |Merge(a, b)| ensures Merge(a, b)[k] in cells { MergeCells(a, b, k); }
  }

  lemma {:induction false} LookupCells(g: Graph, w: World, symbol: CString, file: File, cells: set<Symtab>)
    requires g.Valid() && w.Valid(g) && file < |g.lists| && CellsIn(w, cells)
    ensures CellsIn(FDefined(g, w, symbol, file).1, cells)
    decreases g.Files() - w.checked, 0
  {
    if file !in w.checked && !Holds(w.tables[file], symbol) {
      LookupBelowCells(g, w.(checked := w.checked + {file}), symbol, file, 0, cells);
    }
  }

  lemma {:induction false} LookupBelowCells(g: Graph, w: World, symbol: CString, file: File, i: nat, cells: set<Symtab>)
    requires g.Valid() && w.Valid(g) && file < |g.lists| && file in w.checked && i <= |g.lists[file]| && CellsIn(w, cells)
    ensures CellsIn(Children(g, w, symbol, file, i).1, cells)
    decreases g.Files() - w.checked, 1 + |g.lists[file]| - i
  {
    if i < |g.lists[file]| {
      if w.merged[file][i] {
        LookupBelowCells(g, w, symbol, file, i + 1, cells);
      } else {
        var (owner, w1) := FDefined(g, w, symbol, g.lists[file][i]);
        LookupCells(g, w, symbol, g.lists[file][i], cells);
        AfterChildCells(g, w1, file, i, cells);
        if owner == None { LookupBelowCells(g, AfterChild(g, w1, file, i), symbol, file, i + 1, cells); }
      }
    }
  }

  lemma {:induction false} UndefineCells(g: Graph, w: World, symbol: CString, file: File, cells: set<Symtab>)
    requires g.Valid() && w.Valid(g) && file < |g.lists| && w.checked == {} && CellsIn(w, cells)
    ensures CellsIn(Undefine(g, w, symbol, file), cells)
    decreases OpenEdges(g, w), Holders(w, symbol)
  {
    var (owner, w1) := IsDefined(g, w, symbol, file);
    LookupCells(g, w, symbol, file, cells);
    if owner.Some? {
      UndefineProgress(g, w, symbol, file);
      UndefineCells(g, RemoveStep(g, w1, owner.value, symbol), symbol, file, cells);
    }
  }

  lemma DefineCells(g: Graph, w: World, file: File, cell: Symtab, cells: set<Symtab>)
    requires g.Valid() && w.Valid(g) && file < |g.lists| && CellsIn(w, cells)
    ensures CellsIn(DefineIn(g, w, file, cell), cells + {cell})
  {
  }
}
