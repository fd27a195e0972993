/**
 The symbol tables of any include graph, however deep, against one table of definitions: over every run they answer alike, as
 long as lookups hide nothing and no macro is defined again otherwise than it is.
 */
module TablesAsOne {
  import opened CStrings
  import opened SymbolTable
  import opened LookupSpec
  import opened Visibility
  import opened Hiding
  import opened Settling
  import opened Including
  import opened Defining
  import opened Runs
  import opened Trails
  import opened Cppsetup
  import opened OneTable
  import opened GraphOps
  import opened Wrappers
  import L = Lasting
  import M = Misses

  // ---------- what the tables stand for ----------

  /** The cells that carry what the definitions say. */
  ghost function Fitting(vals: map<Symtab, string>, defs: Defs): set<Symtab> {
    set c: Symtab | c in vals && c.name in defs && vals[c] == defs[c.name]
  }

  ghost predicate MadeOf(w: World, files: set<File>, cells: set<Symtab>) {
    forall f: File, k :: f in files && f < |w.tables| && 0 <= k < |w.tables[f]| ==> w.tables[f][k] in cells
  }

  /** The files whose entries count: the command line, and what the root comes to. */
  ghost function Seen(g: Graph, w: World, root: File): set<File>
    requires g.Valid() && w.Valid(g)
  {
    set f: File | f < |g.lists| && (f == g.main || Reaches(g, w, root, f))
  }

  /** Every entry that counts has the value that the definitions say, and every definition is seen. */
  ghost predicate Stands(s: State, root: File, defs: Defs)
    requires s.Ok()
  {
    && root < |s.g.lists| && MadeOf(s.w, Seen(s.g, s.w, root), Fitting(s.vals, defs))
    && forall x :: x in defs ==> AsName(x) == x && Sees(s, root, AsName(x))
  }

  /** So isdefined finds the names defined, ... */
  lemma StandsFinds(s: State, root: File, defs: Defs, name: CString)
    requires s.Ok() && Stands(s, root, defs)
    ensures IsDefined(s.g, s.w, name, root).0.Some? <==> name in defs
    ensures name in defs ==> name in Names(s) && EntryValue(s, IsDefined(s.g, s.w, name, root).0.value, name) == defs[name]
  {
    IsDefinedIffVisible(s.g, s.w, name, root);
    var owner := IsDefined(s.g, s.w, name, root).0;
    if owner.Some? {
      OwnerCounts(s.g, s.w, root, name);
      var t := s.w.tables[owner.value];
      var i :| 0 <= i < |t| && t[i].name == name;
      LookupAt(t, i);
      assert t[i] in Fitting(s.vals, defs);
    }
    assert name in defs ==> AsName(name) == name;
  }

  /** ... and the names and values that it answers with are those of the definitions. */
  lemma StandsAnswers(s: State, root: File, defs: Defs)
    requires s.Ok() && Stands(s, root, defs)
    ensures Visibles(s, root) == defs
  {
    forall x | x in defs ensures x in Visibles(s, root) && Visibles(s, root)[x] == defs[x] { StandsFinds(s, root, defs, AsName(x)); }
    forall x | x in Visibles(s, root) ensures x in defs {
      var name: CString := x;
      StandsFinds(s, root, defs, name);
    }
  }

  lemma OwnerCounts(g: Graph, w: World, root: File, name: CString)
    requires g.Valid() && w.Valid(g) && w.checked == {} && root < |g.lists| && IsDefined(g, w, name, root).0.Some?
    ensures var owner := IsDefined(g, w, name, root).0.value; owner in Seen(g, w, root) && Holds(w.tables[owner], name)
  {
    if !Holds(w.tables[g.main], name) {
      var p := HitReaches(g, w, name, root);
    }
  }

  // ---------- lookups ----------

  /** Open edges from the files lead to files among them. */
  ghost predicate Shut(g: Graph, w: World, files: set<File>)
    requires g.Valid() && w.Valid(g)
  {
    forall f: File, i :: f in files && f < |g.lists| && 0 <= i < |g.lists[f]| && !w.merged[f][i] ==> g.lists[f][i] in files
  }

  lemma SeenIsShut(g: Graph, w: World, root: File)
    requires g.Valid() && w.Valid(g)
    ensures Shut(g, w, Seen(g, w, root))
  {
    forall f: File, i | f in Seen(g, w, root) && 0 <= i < |g.lists[f]| && !w.merged[f][i] ensures g.lists[f][i] in Seen(g, w, root) {
      ReachTrans(g, w, root, f, i);
    }
  }

  lemma AfterChildMade(g: Graph, w: World, file: File, i: nat, files: set<File>, cells: set<Symtab>)
    requires g.Valid() && w.Valid(g) && file < |g.lists| && i < |g.lists[file]|
    requires file in files && g.lists[file][i] in files && Shut(g, w, files) && MadeOf(w, files, cells)
    ensures Shut(g, AfterChild(g, w, file, i), files) && MadeOf(AfterChild(g, w, file, i), files, cells)
  {
    var a, b := w.tables[file], w.tables[g.lists[file][i]];
    forall k | 0 <= k < |Merge(a, b)| ensures Merge(a, b)[k] in cells { MergeCells(a, b, k); }
  }

  /** A lookup only moves cells among the files that it comes to. */
  lemma {:induction false} LookupMade(g: Graph, w: World, symbol: CString, file: File, files: set<File>, cells: set<Symtab>)
    requires g.Valid() && w.Valid(g) && file < |g.lists| && file in files && Shut(g, w, files) && MadeOf(w, files, cells)
    ensures var w' := FDefined(g, w, symbol, file).1; Shut(g, w', files) && MadeOf(w', files, cells)
    decreases g.Files() - w.checked, 0
  {
    if file !in w.checked && !Holds(w.tables[file], symbol) {
      LookupBelowMade(g, w.(checked := w.checked + {file}), symbol, file, 0, files, cells);
    }
  }

  lemma {:induction false} LookupBelowMade(g: Graph, w: World, symbol: CString, file: File, i: nat, files: set<File>, cells: set<Symtab>)
    requires g.Valid() && w.Valid(g) && file < |g.lists| && file in w.checked && i <= |g.lists[file]|
    requires file in files && Shut(g, w, files) && MadeOf(w, files, cells)
    ensures var w' := Children(g, w, symbol, file, i).1; Shut(g, w', files) && MadeOf(w', files, cells)
    decreases g.Files() - w.checked, 1 + |g.lists[file]| - i
  {
    if i < |g.lists[file]| {
      if w.merged[file][i] {
        LookupBelowMade(g, w, symbol, file, i + 1, files, cells);
      } else {
        var (owner, w1) := FDefined(g, w, symbol, g.lists[file][i]);
        LookupMade(g, w, symbol, g.lists[file][i], files, cells);
        AfterChildMade(g, w1, file, i, files, cells);
        if owner == None { LookupBelowMade(g, AfterChild(g, w1, file, i), symbol, file, i + 1, files, cells); }
      }
    }
  }

  /** Fewer files count when fewer edges are open. */
  lemma SeenShrinks(g: Graph, w: World, w': World, root: File)
    requires g.Valid() && w.Valid(g) && w'.Valid(g)
    requires forall f, i :: 0 <= f < |g.lists| && 0 <= i < |g.lists[f]| && w.merged[f][i] ==> w'.merged[f][i]
    ensures Seen(g, w', root) <= Seen(g, w, root)
  {
    forall f | f in Seen(g, w', root) ensures f in Seen(g, w, root) {
      if f != g.main { Unmarked(g, w, w', root, f); }
    }
  }

  lemma IsDefinedMade(g: Graph, w: World, symbol: CString, root: File, cells: set<Symtab>)
    requires g.Valid() && w.Valid(g) && root < |g.lists| && MadeOf(w, Seen(g, w, root), cells)
    ensures var w' := IsDefined(g, w, symbol, root).1; MadeOf(w', Seen(g, w', root), cells)
  {
    if !Holds(w.tables[g.main], symbol) {
      SeenIsShut(g, w, root);
      Here(g, w, root);
      LookupMade(g, w, symbol, root, Seen(g, w, root), cells);
      LookupKeeps(g, w, symbol, root, symbol);
      SeenShrinks(g, w, FDefined(g, w, symbol, root).1, root);
    }
  }

  /**
   A lookup that hides nothing: the command line answers, or the state is settled, or all that is seen survives while all that
   is open is being read.
   */
  ghost predicate Harmless(s: State, root: File, symbol: CString)
    requires s.Ok() && root < |s.g.lists|
  {
    || Holds(s.w.tables[s.g.main], symbol)
    || Settled(s.g, s.w, root)
    || (Reading(s.g, s.w, root) && forall name: CString :: Sees(s, root, name) ==> Survives(s.g, s.w, symbol, root, name))
  }

  lemma LookStands(s: State, root: File, defs: Defs, symbol: CString)
    requires s.Ok() && Stands(s, root, defs) && Harmless(s, root, symbol)
    ensures Stands(Perform(s, Look(symbol, root)), root, defs)
  {
    IsDefinedMade(s.g, s.w, symbol, root, Fitting(s.vals, defs));
    if Settled(s.g, s.w, root) {
      M.SettledKeepsVisible(s.g, s.w, symbol, root, root);
    } else if !Holds(s.w.tables[s.g.main], symbol) {
      LookHidesIff(s.g, s.w, symbol, root);
    }
  }

  /** Looking up a name that is not there is one, while all that is open is being read. */
  lemma MissIsHarmless(s: State, root: File, symbol: CString)
    requires s.Ok() && root < |s.g.lists| && Reading(s.g, s.w, root) && !Sees(s, root, symbol)
    ensures Harmless(s, root, symbol)
  {
    M.MissKeepsVisible(s.g, s.w, symbol, root);
    LookHidesIff(s.g, s.w, symbol, root);
  }

  // ---------- #undef ----------

  lemma RemoveShows(g: Graph, w: World, owner: File, symbol: CString, root: File, name: CString)
    requires g.Valid() && w.Valid(g) && owner < |g.lists| && Holds(w.tables[owner], symbol) && name != symbol && root < |g.lists|
    ensures Visible(g, RemoveStep(g, w, owner, symbol), root, name) <==> Visible(g, w, root, name)
  {
    var v := RemoveStep(g, w, owner, symbol);
    RemoveAddsNothing(g, w, owner, symbol);
    RemoveHolds(w.tables[owner], SlotOf(w.tables[owner], symbol), name);
    if Visible(g, w, root, name) && !Holds(w.tables[g.main], name) {
      var h: File :| h < |g.lists| && Reaches(g, w, root, h) && Holds(w.tables[h], name);
      SameReach(g, w, v, root, h);
      assert Holds(v.tables[h], name);
    }
  }

  lemma RemoveUndisturbed(g: Graph, w: World, owner: File, symbol: CString, root: File)
    requires g.Valid() && w.Valid(g) && owner < |g.lists| && Holds(w.tables[owner], symbol) && root < |g.lists|
    requires SettledBut(g, w, root, {symbol})
    ensures Undisturbed(g, w, RemoveStep(g, w, owner, symbol), root, {symbol})
  {
    L.RemoveSettles(g, w, owner, symbol, root);
    forall name: CString | name != symbol
      ensures Visible(g, RemoveStep(g, w, owner, symbol), root, name) <==> Visible(g, w, root, name)
    {
      RemoveShows(g, w, owner, symbol, root, name);
    }
  }

  lemma {:induction false} UndefineUndisturbed(g: Graph, w: World, symbol: CString, root: File)
    requires g.Valid() && w.Valid(g) && root < |g.lists| && w.checked == {} && SettledBut(g, w, root, {symbol})
    ensures Undisturbed(g, w, Undefine(g, w, symbol, root), root, {symbol})
    decreases OpenEdges(g, w), Holders(w, symbol)
  {
    var (owner, w1) := IsDefined(g, w, symbol, root);
    if !Holds(w.tables[g.main], symbol) { SettledLookup(g, w, symbol, root, root, {symbol}); }
    assert Undisturbed(g, w, w1, root, {symbol});
    if owner.Some? {
      UndefineProgress(g, w, symbol, root);
      var w2 := RemoveStep(g, w1, owner.value, symbol);
      RemoveUndisturbed(g, w1, owner.value, symbol, root);
      UndefineUndisturbed(g, w2, symbol, root);
      Onward(g, w, w1, w2, root, {symbol});
      Onward(g, w, w2, Undefine(g, w2, symbol, root), root, {symbol});
    }
  }

  lemma RemoveMade(g: Graph, w: World, owner: File, symbol: CString, root: File, cells: set<Symtab>)
    requires g.Valid() && w.Valid(g) && owner < |g.lists| && Holds(w.tables[owner], symbol) && MadeOf(w, Seen(g, w, root), cells)
    ensures var v := RemoveStep(g, w, owner, symbol); MadeOf(v, Seen(g, v, root), cells)
  {
    SeenShrinks(g, w, RemoveStep(g, w, owner, symbol), root);
  }

  lemma {:induction false} UndefineMade(g: Graph, w: World, symbol: CString, root: File, cells: set<Symtab>)
    requires g.Valid() && w.Valid(g) && root < |g.lists| && w.checked == {} && MadeOf(w, Seen(g, w, root), cells)
    ensures var w' := Undefine(g, w, symbol, root); MadeOf(w', Seen(g, w', root), cells)
    decreases OpenEdges(g, w), Holders(w, symbol)
  {
    var (owner, w1) := IsDefined(g, w, symbol, root);
    IsDefinedMade(g, w, symbol, root, cells);
    if owner.Some? {
      UndefineProgress(g, w, symbol, root);
      RemoveMade(g, w1, owner.value, symbol, root, cells);
      UndefineMade(g, RemoveStep(g, w1, owner.value, symbol), symbol, root, cells);
    }
  }

  /** Entries for a name that is not seen do not count. */
  lemma UnseenName(s: State, root: File, defs: Defs, symbol: CString)
    requires s.Ok() && MadeOf(s.w, Seen(s.g, s.w, root), Fitting(s.vals, defs)) && !Sees(s, root, symbol)
    ensures MadeOf(s.w, Seen(s.g, s.w, root), Fitting(s.vals, defs - {symbol}))
  {
    forall f: File, k | f in Seen(s.g, s.w, root) && 0 <= k < |s.w.tables[f]|
      ensures s.w.tables[f][k] in Fitting(s.vals, defs - {symbol})
    {
      assert s.w.tables[f][k].name == symbol ==> Holds(s.w.tables[f], symbol);
    }
  }

  /** #undef looks its name up again and again: in a settled state, or in vain. */
  ghost predicate Calm(s: State, root: File, symbol: CString)
    requires s.Ok()
  {
    Settled(s.g, s.w, root) || (Reading(s.g, s.w, root) && !Sees(s, root, symbol))
  }

  lemma UndefineStands(s: State, root: File, defs: Defs, symbol: CString)
    requires s.Ok() && Stands(s, root, defs) && Calm(s, root, symbol)
    ensures Stands(Perform(s, Undef(symbol, root)), root, defs - {symbol})
  {
    var t := Perform(s, Undef(symbol, root));
    UndefineMade(s.g, s.w, symbol, root, Fitting(s.vals, defs));
    UndefineHides(s.g, s.w, symbol, root);
    UnseenName(t, root, defs, symbol);
    if Settled(s.g, s.w, root) {
      UndefineUndisturbed(s.g, s.w, symbol, root);
    } else {
      IsDefinedIffVisible(s.g, s.w, symbol, root);
      M.MissKeepsVisible(s.g, s.w, symbol, root);
    }
  }

  // ---------- #define, #include and the end of a file ----------

  lemma DefineStands(s: State, root: File, defs: Defs, cell: Symtab, value: string, file: File)
    requires s.Ok() && Stands(s, root, defs) && Fits(s, Def(cell, value, file)) && file in Seen(s.g, s.w, root)
    requires cell.name in defs ==> defs[cell.name] == value
    ensures Stands(Perform(s, Def(cell, value, file)), root, defs[cell.name := value])
  {
    var t, defs' := Perform(s, Def(cell, value, file)), defs[cell.name := value];
    SeenShrinks(s.g, s.w, t.w, root);
    DefineMade(s, root, defs, cell, value, file);
    forall x | x in defs' ensures AsName(x) == x && Sees(t, root, AsName(x)) {
      DefineShows(s.g, s.w, file, cell, root, AsName(x));
    }
  }

  lemma FittingGrows(vals: map<Symtab, string>, defs: Defs, cell: Symtab, value: string)
    requires cell.name in defs ==> defs[cell.name] == value
    ensures Fitting(vals, defs) + {cell} <= Fitting(vals[cell := value], defs[cell.name := value])
  {
  }

  lemma DefineMade(s: State, root: File, defs: Defs, cell: Symtab, value: string, file: File)
    requires s.Ok() && Stands(s, root, defs) && Fits(s, Def(cell, value, file)) && file in Seen(s.g, s.w, root)
    requires cell.name in defs ==> defs[cell.name] == value
    ensures MadeOf(DefineIn(s.g, s.w, file, cell), Seen(s.g, s.w, root), Fitting(s.vals[cell := value], defs[cell.name := value]))
  {
    FittingGrows(s.vals, defs, cell, value);
    InsertMade(s.g, s.w, file, cell, Seen(s.g, s.w, root), Fitting(s.vals, defs));
  }

  lemma InsertMade(g: Graph, w: World, file: File, cell: Symtab, files: set<File>, cells: set<Symtab>)
    requires g.Valid() && w.Valid(g) && file < |g.lists| && MadeOf(w, files, cells)
    ensures MadeOf(DefineIn(g, w, file, cell), files, cells + {cell})
  {
  }

  /** A header brings what is seen from it: `now` is what the definitions are then. */
  lemma IncludeStands(s: State, root: File, defs: Defs, file: File, child: File, now: Defs)
    requires s.Ok() && Stands(s, root, defs) && IsNew(s.g, s.w, file, child) && Reaches(s.g, s.w, root, file)
    requires MadeOf(s.w, Seen(s.g, s.w, child), Fitting(s.vals, now)) && Within(defs, now)
    requires forall x :: x in now && x !in defs ==> AsName(x) == x && Sees(s, child, AsName(x))
    ensures Stands(Perform(s, Include(file, child)), root, now)
  {
    var t := Perform(s, Include(file, child));
    forall f: File, k | f in Seen(t.g, t.w, root) && 0 <= k < |t.w.tables[f]| ensures t.w.tables[f][k] in Fitting(s.vals, now) {
      if f != s.g.main { ReachesWithEdge(s.g, s.w, file, child, root, f); }
      assert s.w.tables[f][k] in Fitting(s.vals, defs) || s.w.tables[f][k] in Fitting(s.vals, now);
    }
    forall x | x in now ensures AsName(x) == x && Sees(t, root, AsName(x)) {
      IncludeShows(s.g, s.w, file, child, root, AsName(x));
    }
  }

  /** Nothing that was defined is changed. */
  ghost predicate Within(defs: Defs, now: Defs) { forall x :: x in defs ==> x in now && now[x] == defs[x] }

  lemma FinishStands(s: State, root: File, defs: Defs, file: File)
    requires s.Ok() && Stands(s, root, defs) && file < |s.g.lists|
    ensures Stands(Perform(s, Finish(file)), root, defs)
  {
    var t := Perform(s, Finish(file));
    forall f | f in Seen(t.g, t.w, root) ensures f in Seen(s.g, s.w, root) { L.SameEdges(s, file, root, f); }
    forall x | x in defs ensures Sees(t, root, AsName(x)) { FinishShowsNothing(s, file, root, AsName(x)); }
  }

  // ---------- whole runs ----------

  /** What an operation does to one table of definitions; a new edge brings what is seen from its end. */
  ghost function OnOne(s: State, root: File, defs: Defs, op: Op): Defs
    requires s.Ok() && Fits(s, op)
  {
    match op
    case Undef(symbol, _) => defs - {symbol}
    case Def(cell, value, _) => defs[cell.name := value]
    case Include(file, child) => if child in s.g.lists[file] then defs else defs + Visibles(s, child)
    case _ => defs
  }

  /**
   Lookups, #undef and definitions are for the root and what it comes to; lookups hide nothing; and a macro that is defined is
   defined again only as it is, also by what a header brings.
   */
  ghost predicate Allowed(s: State, root: File, defs: Defs, op: Op)
    requires s.Ok() && root < |s.g.lists| && Fits(s, op)
  {
    match op
    case Look(symbol, file) => file == root && Harmless(s, root, symbol)
    case Undef(symbol, file) => file == root && Calm(s, root, symbol)
    case Def(cell, value, file) => file in Seen(s.g, s.w, root) && (cell.name in defs ==> defs[cell.name] == value)
    case Include(file, child) => child in s.g.lists[file] || (Reaches(s.g, s.w, root, file) && Agrees(s, child, defs))
    case Finish(_) => true
  }

  /** All that is seen from the file says one thing, and what the definitions say. */
  ghost predicate Agrees(s: State, file: File, defs: Defs)
    requires s.Ok() && file < |s.g.lists|
  {
    && MadeOf(s.w, Seen(s.g, s.w, file), Fitting(s.vals, defs + Visibles(s, file)))
    && forall x :: x in defs && x in Visibles(s, file) ==> defs[x] == Visibles(s, file)[x]
  }

  lemma VisiblesAreSeen(s: State, file: File)
    requires s.Ok() && file < |s.g.lists|
    ensures forall x :: x in Visibles(s, file) ==> AsName(x) == x && Sees(s, file, AsName(x))
  {
    forall x | x in Visibles(s, file) ensures AsName(x) == x && Sees(s, file, AsName(x)) {
      var name: CString := x;
      IsDefinedIffVisible(s.g, s.w, name, file);
    }
  }

  lemma StepStands(s: State, root: File, defs: Defs, op: Op)
    requires s.Ok() && Stands(s, root, defs) && Fits(s, op) && Allowed(s, root, defs, op)
    ensures Stands(Perform(s, op), root, OnOne(s, root, defs, op))
  {
    match op
    case Look(symbol, _) => LookStands(s, root, defs, symbol);
    case Undef(symbol, _) => UndefineStands(s, root, defs, symbol);
    case Def(cell, value, file) => DefineStands(s, root, defs, cell, value, file);
    case Include(file, child) =>
      VisiblesAreSeen(s, child);
      if child !in s.g.lists[file] { IncludeStands(s, root, defs, file, child, defs + Visibles(s, child)); }
    case Finish(file) => FinishStands(s, root, defs, file);
  }

  ghost predicate AllAllowed(s: State, root: File, defs: Defs, ops: seq<Op>)
    requires s.Ok() && root < |s.g.lists| && AllFit(s, ops)
    decreases |ops|
  {
    ops == [] || (Allowed(s, root, defs, ops[0]) && AllAllowed(Perform(s, ops[0]), root, OnOne(s, root, defs, ops[0]), ops[1..]))
  }

  ghost function RunOnOne(s: State, root: File, defs: Defs, ops: seq<Op>): Defs
    requires s.Ok() && AllFit(s, ops)
    decreases |ops|
  {
    if ops == [] then defs else RunOnOne(Perform(s, ops[0]), root, OnOne(s, root, defs, ops[0]), ops[1..])
  }

  /** Over every such run, and any include graph, isdefined answers as one table of definitions would. */
  lemma {:induction false} RunAnswers(s: State, root: File, defs: Defs, ops: seq<Op>)
    requires s.Ok() && Stands(s, root, defs) && AllFit(s, ops) && AllAllowed(s, root, defs, ops)
    ensures Visibles(Run(s, ops), root) == RunOnOne(s, root, defs, ops)
    decreases |ops|
  {
    if ops == [] {
      StandsAnswers(s, root, defs);
    } else {
      StepStands(s, root, defs, ops[0]);
      RunAnswers(Perform(s, ops[0]), root, OnOne(s, root, defs, ops[0]), ops[1..]);
    }
  }
}
