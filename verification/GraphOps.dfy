/**
 The engine of conditionals over the real symbol tables: lookups merge, #undef removes what a lookup finds, and every
 #include adds an edge.
 */
module GraphOps {
  import opened CStrings
  import opened SymbolTable
  import opened LookupSpec
  import opened Runs
  import opened AliasChain
  import opened Cppsetup
  import opened DirectiveText
  import opened OneTable
  import opened Wrappers
  import D = Directives

  /**
   The parts of the program that are not its tables.  `asks` are the names looked up while a condition is evaluated, in
   order, and `refers` those for the text of an #include.  `root` is the command-line file being read, `leaves` are the
   headers.  `cell` is the supply of new cells, numbered up to `limit`, for each of `names`.
   */
  datatype Host = Host(
    root: File,
    leaves: set<File>,
    locate: (File, string, bool) -> Option<File>,
    asks: (string, Defs) -> seq<CString>,
    refers: (string, Defs) -> seq<CString>,
    cell: (CString, nat) -> Symtab,
    names: set<CString>,
    limit: nat)

  ghost predicate InSupply(h: Host, name: CString, k: nat) { name in h.names && k < h.limit }

  /** Cells have the name asked for, and those with different numbers are different. */
  ghost predicate IsSupply(h: Host) {
    && (forall name: CString, k: nat :: InSupply(h, name, k) ==> h.cell(name, k).name == name)
    && (forall name: CString, k: nat, other: CString, j: nat :: InSupply(h, name, k) && InSupply(h, other, j) && k != j ==>
          h.cell(name, k) != h.cell(other, j))
  }

  /** None of the numbers from the number of cells on has been used. */
  ghost predicate Supplied(h: Host, s: State) {
    forall name: CString, k: nat :: InSupply(h, name, k) && |s.vals| <= k ==> h.cell(name, k) !in s.vals
  }

  // ---------- the operations ----------

  ghost function LookAll(s: State, root: File, names: seq<CString>): (t: State)
    requires s.Ok() && root < |s.g.lists|
    ensures t.Ok() && t.g == s.g
    decreases |names|
  {
    if names == [] then s else LookAll(Perform(s, Look(names[0], root)), root, names[1..])
  }

  ghost function Do(s: State, op: Op): State { if s.Ok() && Fits(s, op) then Perform(s, op) else s }

  ghost predicate Ready(s: State, root: File) { s.Ok() && root < |s.g.lists| }

  /** The value of a file's own entry. */
  ghost function EntryValue(s: State, f: File, name: CString): string {
    if f < |s.w.tables| && Lookup(s.w.tables[f], name) != null && Lookup(s.w.tables[f], name) in s.vals
    then s.vals[Lookup(s.w.tables[f], name)] else ""
  }

  ghost function Names(s: State): set<CString> { set c: Symtab | c in s.vals :: c.name }

  /** The names that the root sees, with the values that isdefined answers with. */
  ghost function Visibles(s: State, root: File): Defs
    requires Ready(s, root)
  {
    map name: CString | name in Names(s) && IsDefined(s.g, s.w, name, root).0.Some?
      :: name := EntryValue(s, IsDefined(s.g, s.w, name, root).0.value, name)
  }

  ghost function Truth(h: Host, s: State, e: string): (bool, State) {
    if Ready(s, h.root) then (IsTrue(Visibles(s, h.root), e), LookAll(s, h.root, h.asks(e, Visibles(s, h.root)))) else (false, s)
  }

  ghost function IsDefinedIn(h: Host, s: State, n: string): (bool, State) {
    if Ready(s, h.root) then (IsDefined(s.g, s.w, AsName(n), h.root).0.Some?, Perform(s, Look(AsName(n), h.root))) else (false, s)
  }

  ghost function IncludeName(h: Host, s: State, t: string): (D.IncludeName, State) {
    if Ready(s, h.root)
    then (D.ParseInclude(End(Visibles(s, h.root), t)), LookAll(s, h.root, h.refers(t, Visibles(s, h.root))))
    else (D.NoName, s)
  }

  /** The file's own cell for the name, or a new one. */
  ghost function CellFor(h: Host, s: State, f: File, name: CString): Symtab {
    if f < |s.w.tables| && Holds(s.w.tables[f], name) && Lookup(s.w.tables[f], name) != null
    then Lookup(s.w.tables[f], name) else h.cell(name, |s.vals|)
  }

  ghost function DefineOp(h: Host, s: State, f: File, d: string): Op {
    Def(CellFor(h, s, f, AsName(ParseDefine(d).0)), ParseDefine(d).1, f)
  }

  /** Lookups and #undef start at the command-line file, definitions go to the file being read. */
  ghost function TableOps(h: Host): D.Ops<State> {
    D.Ops(
      (s: State, e: string) => Truth(h, s, e),
      (s: State, n: string) => IsDefinedIn(h, s, n),
      (s: State, f: File, d: string) => Do(s, DefineOp(h, s, f, d)),
      (s: State, n: string) => Do(s, Undef(AsName(n), h.root)),
      (s: State, f: File, t: string) => IncludeName(h, s, t),
      (s: State, f: File, n: string, quoted: bool) => (h.locate(f, n, quoted), s),
      (s: State, f: File, c: File) => Do(s, Include(f, c)),
      (s: State, f: File) => Do(s, Finish(f)))
  }

  lemma EntryIsCell(s: State, f: File, name: CString)
    requires s.Ok() && f < |s.g.lists| && Holds(s.w.tables[f], name)
    ensures var c := Lookup(s.w.tables[f], name); c != null && c in s.vals && c.name == name && EntryValue(s, f, name) == s.vals[c]
  {
    var i :| 0 <= i < |s.w.tables[f]| && s.w.tables[f][i].name == name;
    LookupAt(s.w.tables[f], i);
  }

  lemma HeldIsNamed(s: State, f: File, name: CString)
    requires s.Ok() && f < |s.g.lists| && Holds(s.w.tables[f], name)
    ensures name in Names(s)
  {
    EntryIsCell(s, f, name);
  }
}
