/**
 How many new cells a program can need: no more than its files have #define lines, since no header is read twice.
 */
module Supply {
  import opened CStrings
  import opened SymbolTable
  import opened Wrappers
  import opened Cppsetup
  import opened DirectiveText
  import opened OneTable
  import opened GraphOps
  import opened FlatOps
  import opened Directives
  import opened Nesting
  import opened Selection
  import R = Runs

  // ---------- #define lines ----------

  /** The names defined anywhere in the lines of a tree, in order and as often as they are. */
  function DefinesIn(b: Block): seq<CString> {
    match b
    case Empty => []
    case Plain(line, rest) => (if line.kind.Define? then [AsName(ParseDefine(line.kind.def).0)] else []) + DefinesIn(rest)
    case Cond(_, body, tail, rest) => DefinesIn(body) + DefinesInTail(tail) + DefinesIn(rest)
  }

  function DefinesInTail(t: Tail): seq<CString> {
    match t
    case EndTail(_) => []
    case ElseTail(_, body, _) => DefinesIn(body)
    case ElifTail(_, body, tail) => DefinesIn(body) + DefinesInTail(tail)
  }

  ghost function DefinesOf(trees: Trees, files: set<File>): nat {
    if files == {} then 0
    else
      var f :| f in files;
      (if f in trees then |DefinesIn(trees[f])| else 0) + DefinesOf(trees, files - {f})
  }

  ghost function DefinesOfFile(trees: Trees, f: File): nat { if f in trees then |DefinesIn(trees[f])| else 0 }

  lemma {:induction false} WithoutFile(trees: Trees, files: set<File>, f: File)
    requires f in files
    ensures DefinesOf(trees, files) == DefinesOfFile(trees, f) + DefinesOf(trees, files - {f})
    decreases files
  {
    var g :| g in files && DefinesOf(trees, files) == DefinesOfFile(trees, g) + DefinesOf(trees, files - {g});
    if g != f {
      WithoutFile(trees, files - {g}, f);
      WithoutFile(trees, files - {f}, g);
      assert files - {g} - {f} == files - {f} - {g};
    }
  }

  lemma {:induction false} ChosenBehindDefines<W>(ops: Ops<W>, w: W, t: Tail)
    ensures |DefinesIn(ChosenBehind(ops, w, t))| <= |DefinesInTail(t)|
    ensures forall n :: n in DefinesIn(ChosenBehind(ops, w, t)) ==> n in DefinesInTail(t)
    decreases t
  {
    if t.ElifTail? { ChosenBehindDefines(ops, w, t.tail); }
  }

  lemma ChosenDefines<W>(ops: Ops<W>, w: W, b: Block)
    requires b.Cond?
    ensures var chosen := Chosen(ops, w, b.open, b.body, b.tail);
            |DefinesIn(chosen)| + |DefinesIn(b.rest)| <= |DefinesIn(b)| && forall n :: n in DefinesIn(chosen) ==> n in DefinesIn(b)
  {
    ChosenBehindDefines(ops, w, b.tail);
  }

  // ---------- how many of them are executed ----------

  ghost function MadeAndLeft(trees: Trees, st: State<View>): nat { st.w.made + DefinesOf(trees, Unread(trees, st)) }

  type Locate = (File, string, bool) -> Option<File>

  lemma {:induction false} MeaningMakes(locate: Locate, left: map<File, Defs>, trees: Trees, file: File, b: Block, st: State<View>)
    ensures MadeAndLeft(trees, Meaning(TheOps(locate, left), trees, file, b, st)) <= MadeAndLeft(trees, st) + |DefinesIn(b)|
    decreases Unread(trees, st), Size(b), 1
  {
    var ops := TheOps(locate, left);
    match b
    case Empty =>
    case Plain(line, rest) =>
      LineMakes(locate, left, trees, file, line.kind, st);
      MeaningMakes(locate, left, trees, file, rest, LineMeaning(ops, trees, file, line.kind, st));
    case Cond(open, body, tail, rest) =>
      var chosen := Chosen(ops, st.w, open, body, tail);
      ChosenDefines(ops, st.w, b);
      MeaningMakes(locate, left, trees, file, chosen, st);
      MeaningMakes(locate, left, trees, file, rest, Meaning(ops, trees, file, chosen, st));
  }

  lemma {:induction false} LineMakes(locate: Locate, left: map<File, Defs>, trees: Trees, file: File, kind: Kind, st: State<View>)
    ensures MadeAndLeft(trees, LineMeaning(TheOps(locate, left), trees, file, kind, st))
            <= MadeAndLeft(trees, st) + if kind.Define? then 1 else 0
    decreases Unread(trees, st), 0, 1
  {
    if kind.Include? {
      var ops := TheOps(locate, left);
      var name := ops.includeName(st.w, file, kind.text).0;
      if name != NoName {
        IncludeMakes(locate, left, trees, file, ops.find(st.w, file, name.name, name.Quoted?), st);
      }
    }
  }

  lemma {:induction false} IncludeMakes(locate: Locate, left: map<File, Defs>, trees: Trees, file: File,
                                        found: (Option<File>, View), st: State<View>)
    requires found.1.made == st.w.made
    ensures MadeAndLeft(trees, IncludeMeaning(TheOps(locate, left), trees, file, found, st)) <= MadeAndLeft(trees, st)
    decreases Unread(trees, st), 0, 0
  {
    if found.0.Some? && found.0.value !in st.searched && found.0.value in trees {
      var ops, f := TheOps(locate, left), found.0.value;
      var st2 := State(ops.includedBy(found.1, file, f), st.searched + {f}, st.scanned + [f]);
      WithoutFile(trees, Unread(trees, st), f);
      assert Unread(trees, st2) == Unread(trees, st) - {f};
      MeaningMakes(locate, left, trees, f, trees[f], st2);
    } else if found.0.Some? {
      assert trees.Keys - (st.searched + {found.0.value}) == Unread(trees, st);
    }
  }

  // ---------- so the supply lasts ----------

  ghost predicate Named(h: Host, trees: Trees) { forall f: File, n :: f in trees && n in DefinesIn(trees[f]) ==> n in h.names }

  lemma {:induction false} Lasts(h: Host, s0: R.State, trees: Trees, file: File, b: Block, st: State<View>)
    requires Tame(Ideal(h, s0), Constraints(h, s0), trees, file, b, st)
    requires Named(h, trees) && forall n :: n in DefinesIn(b) ==> n in h.names
    requires |s0.vals| + MadeAndLeft(trees, st) + |DefinesIn(b)| <= h.limit
    ensures Tame(Ideal(h, s0), RulesOf(h, s0), trees, file, b, st)
    decreases Unread(trees, st), Size(b), 1
  {
    var ideal, left := Ideal(h, s0), LeftIn(h, s0);
    match b
    case Empty =>
    case Plain(line, rest) =>
      LineLasts(h, s0, trees, file, line, rest, st);
      LineMakes(h.locate, left, trees, file, line.kind, st);
      Lasts(h, s0, trees, file, rest, LineMeaning(ideal, trees, file, line.kind, st));
    case Cond(open, body, tail, rest) =>
      var chosen := Chosen(ideal, st.w, open, body, tail);
      ChosenDefines(ideal, st.w, b);
      Lasts(h, s0, trees, file, chosen, st);
      MeaningMakes(h.locate, left, trees, file, chosen, st);
      Lasts(h, s0, trees, file, rest, Meaning(ideal, trees, file, chosen, st));
  }

  lemma {:induction false} LineLasts(h: Host, s0: R.State, trees: Trees, file: File, line: Directive, rest: Block, st: State<View>)
    requires TameLine(Ideal(h, s0), Constraints(h, s0), trees, file, line.kind, st)
    requires Named(h, trees) && forall n :: n in DefinesIn(Plain(line, rest)) ==> n in h.names
    requires |s0.vals| + MadeAndLeft(trees, st) + |DefinesIn(Plain(line, rest))| <= h.limit
    ensures TameLine(Ideal(h, s0), RulesOf(h, s0), trees, file, line.kind, st)
    decreases Unread(trees, st), 0, 1
  {
    if line.kind.Define? {
      assert DefinesIn(Plain(line, rest))[0] in h.names;
    } else if line.kind.Include? {
      var name := Ideal(h, s0).includeName(st.w, file, line.kind.text).0;
      if name != NoName { IncludeLasts(h, s0, trees, file, name.name, name.Quoted?, st); }
    }
  }

  lemma {:induction false} IncludeLasts(h: Host, s0: R.State, trees: Trees, file: File, name: string, quoted: bool, st: State<View>)
    requires TameInclude(Ideal(h, s0), Constraints(h, s0), trees, file, name, quoted, st)
    requires Named(h, trees) && |s0.vals| + MadeAndLeft(trees, st) <= h.limit
    ensures TameInclude(Ideal(h, s0), RulesOf(h, s0), trees, file, name, quoted, st)
    decreases Unread(trees, st), 0, 0
  {
    var (found, v1) := Resolve(Ideal(h, s0), st.w, file, name, quoted);
    if found.Some? && found.value !in st.searched && found.value in trees {
      var f := found.value;
      var st2 := State(v1, st.searched + {f}, st.scanned + [f]);
      WithoutFile(trees, Unread(trees, st), f);
      assert Unread(trees, st2) == Unread(trees, st) - {f};
      Lasts(h, s0, trees, f, trees[f], st2);
    }
  }

  // ---------- a supply ----------

  /** There is a supply for any names, of any size, that shares no cell with the state it is for. */
  method Allocate(names: set<CString>, limit: nat) returns (cell: (CString, nat) -> Symtab)
    ensures forall name: CString, k: nat :: name in names && k < limit ==> fresh(cell(name, k)) && cell(name, k).name == name
    ensures forall name: CString, k: nat, other: CString, j: nat :: name in names && other in names && j < k < limit ==>
              cell(name, k) != cell(other, j)
  {
    var none := new Symtab("", "");
    var cells: map<(CString, nat), Symtab> := map[];
    for k := 0 to limit
      invariant forall name: CString, i: nat :: (name, i) in cells <==> name in names && i < k
      invariant forall p: (CString, nat) :: p in cells ==> fresh(cells[p]) && cells[p].name == p.0
      invariant forall p: (CString, nat), q: (CString, nat) :: p in cells && q in cells && p.1 != q.1 ==> cells[p] != cells[q]
    {
      var rest := names;
      while rest != {}
        invariant rest <= names
        invariant forall name: CString, i: nat :: (name, i) in cells <==> name in names && (i < k || (i == k && name !in rest))
        invariant forall p: (CString, nat) :: p in cells ==> fresh(cells[p]) && cells[p].name == p.0
        invariant forall p: (CString, nat), q: (CString, nat) :: p in cells && q in cells && p.1 != q.1 ==> cells[p] != cells[q]
      {
        var name :| name in rest;
        var c := new Symtab(name, "");
        cells := cells[(name, k) := c];
        rest := rest - {name};
      }
    }
    cell := (name: CString, k: nat) => if (name, k) in cells then cells[(name, k)] else none;
  }
}
