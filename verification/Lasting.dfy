/**
 How long lookups go on hiding nothing: which operations leave a settled state settled.
 */
module Lasting {
  import opened CStrings
  import opened SymbolTable
  import opened LookupSpec
  import opened Visibility
  import opened Hiding
  import opened Settling
  import opened Including
  import opened Defining
  import opened Runs
  import opened FlatGraph
  import opened Wrappers
  import M = Misses

  ghost predicate Quiet(s: State, root: File)
    requires s.Ok()
  {
    Settled(s.g, s.w, root)
  }

  /** Looking up anything, from anywhere. */
  lemma LookLasts(s: State, symbol: CString, file: File, root: File)
    requires s.Ok() && file < |s.g.lists| && root < |s.g.lists| && Quiet(s, root)
    ensures Quiet(Perform(s, Look(symbol, file)), root)
  {
    M.SettledKeepsVisible(s.g, s.w, symbol, file, root);
  }

  // ---------- #define ----------

  lemma CarriedGrows(g: Graph, w: World, v: World, root: File, name: CString)
    requires g.Valid() && w.Valid(g) && v.Valid(g) && w.merged == v.merged && Carried(g, w, root, name)
    requires forall f: File :: f < |g.lists| && Holds(w.tables[f], name) ==> Holds(v.tables[f], name)
    ensures Carried(g, v, root, name)
  {
    if !Holds(w.tables[g.main], name) {
      var f: File :| f < |g.lists| && OnStack(g, w, root, f) && Holds(w.tables[f], name);
      StackStays(g, w, v, root, f);
    }
  }

  lemma ReachesThrough(g: Graph, w: World, a: File, f: File, c: File, h: File)
    requires g.Valid() && w.Valid(g) && Reaches(g, w, a, f) && Open(g, w, f, c) && Reaches(g, w, c, h)
    ensures Reaches(g, w, a, h)
  {
    OneStep(g, w, f, c, h);
    var p :| Path(g, w, p) && p[0] == a && p[|p| - 1] == f;
    Joins(g, w, p, h);
  }

  lemma {:induction false} Joins(g: Graph, w: World, p: seq<File>, h: File)
    requires g.Valid() && w.Valid(g) && Path(g, w, p) && Reaches(g, w, p[|p| - 1], h)
    ensures Reaches(g, w, p[0], h)
  {
    if |p| > 1 {
      assert Open(g, w, p[0], p[1]);
      PathTail(g, w, p);
      assert p[1..][|p[1..]| - 1] == p[|p| - 1];
      Joins(g, w, p[1..], h);
      OneStep(g, w, p[0], p[1], h);
    }
  }

  /** A definition on the command line, in a file that is being read, or in one out of reach. */
  lemma DefineLasts(s: State, cell: Symtab, value: string, file: File, root: File)
    requires s.Ok() && Fits(s, Def(cell, value, file)) && Quiet(s, root)
    requires file == s.g.main || OnStack(s.g, s.w, root, file) || !Reaches(s.g, s.w, root, file)
    ensures Quiet(Perform(s, Def(cell, value, file)), root)
  {
    var g, w, v := s.g, s.w, DefineIn(s.g, s.w, file, cell);
    forall f: File, c: File, name: CString
      | Reaches(g, v, root, f) && Open(g, v, f, c) && c in g.finished && Visible(g, v, c, name)
      ensures Holds(v.tables[c], name) || Carried(g, v, root, name)
    {
      assert Open(g, w, f, c);
      SameReach(g, w, v, root, f);
      DefineShows(g, w, file, cell, c, name);
      forall h: File | h < |g.lists| ensures Holds(w.tables[h], name) ==> Holds(v.tables[h], name) {
        DefineHolds(g, w, file, cell, h, name);
      }
      DefineHolds(g, w, file, cell, file, cell.name);
      if Visible(g, w, c, name) {
        if !Holds(w.tables[c], name) { CarriedGrows(g, w, v, root, name); }
      } else if file != g.main {
        ReachesThrough(g, w, root, f, c, file);
        StackStays(g, w, v, root, file);
      }
    }
  }

  // ---------- #undef ----------

  lemma RemoveSettles(g: Graph, w: World, owner: File, symbol: CString, root: File)
    requires g.Valid() && w.Valid(g) && owner < |g.lists| && Holds(w.tables[owner], symbol) && SettledBut(g, w, root, {symbol})
    ensures SettledBut(g, RemoveStep(g, w, owner, symbol), root, {symbol})
  {
    var v := RemoveStep(g, w, owner, symbol);
    RemoveAddsNothing(g, w, owner, symbol);
    forall f: File, c: File, name: CString
      | name != symbol && Reaches(g, v, root, f) && Open(g, v, f, c) && c in g.finished && Visible(g, v, c, name)
      ensures Holds(v.tables[c], name) || Carried(g, v, root, name)
    {
      assert Open(g, w, f, c);
      SameReach(g, w, v, root, f);
      forall h: File | h < |g.lists| ensures Holds(w.tables[h], name) ==> Holds(v.tables[h], name) {
        RemoveHolds(w.tables[owner], SlotOf(w.tables[owner], symbol), name);
      }
      if !Holds(w.tables[c], name) { CarriedGrows(g, w, v, root, name); }
    }
  }

  lemma {:induction false} UndefineSettles(g: Graph, w: World, symbol: CString, root: File)
    requires g.Valid() && w.Valid(g) && root < |g.lists| && w.checked == {} && SettledBut(g, w, root, {symbol})
    ensures SettledBut(g, Undefine(g, w, symbol, root), root, {symbol})
    decreases OpenEdges(g, w), Holders(w, symbol)
  {
    var (owner, w1) := IsDefined(g, w, symbol, root);
    if !Holds(w.tables[g.main], symbol) { SettledLookup(g, w, symbol, root, root, {symbol}); }
    IsDefinedIffVisible(g, w, symbol, root);
    if owner.Some? {
      UndefineProgress(g, w, symbol, root);
      RemoveSettles(g, w1, owner.value, symbol, root);
      UndefineSettles(g, RemoveStep(g, w1, owner.value, symbol), symbol, root);
    }
  }

  /** #undef of any name. */
  lemma UndefineLasts(s: State, symbol: CString, root: File)
    requires s.Ok() && root < |s.g.lists| && Quiet(s, root)
    ensures Quiet(Perform(s, Undef(symbol, root)), root)
  {
    var g, v := s.g, Undefine(s.g, s.w, symbol, root);
    UndefineSettles(g, s.w, symbol, root);
    UndefineHides(g, s.w, symbol, root);
    forall f: File, c: File
      | Reaches(g, v, root, f) && Open(g, v, f, c) && Visible(g, v, c, symbol)
      ensures false
    {
      if !Holds(v.tables[g.main], symbol) {
        var h: File :| h < |g.lists| && Reaches(g, v, c, h) && Holds(v.tables[h], symbol);
        ReachesThrough(g, v, root, f, c, h);
      }
    }
  }

  // ---------- #include, and the end of a file ----------

  lemma CarriedOn(s: State, file: File, child: File, root: File, name: CString)
    requires s.Ok() && IsNew(s.g, s.w, file, child) && Carried(s.g, s.w, root, name)
    ensures Carried(IncludeIn(s.g, file, child), Unmerged(s.g, s.w, file, child), root, name)
  {
    if !Holds(s.w.tables[s.g.main], name) {
      var f: File :| f < |s.g.lists| && OnStack(s.g, s.w, root, f) && Holds(s.w.tables[f], name);
      StackOn(s, file, child, root, f);
    }
  }

  lemma StackOn(s: State, file: File, child: File, root: File, f: File)
    requires s.Ok() && IsNew(s.g, s.w, file, child) && OnStack(s.g, s.w, root, f)
    ensures OnStack(IncludeIn(s.g, file, child), Unmerged(s.g, s.w, file, child), root, f)
  {
    var g', w' := IncludeIn(s.g, file, child), Unmerged(s.g, s.w, file, child);
    var p :| Stack(s.g, s.w, p) && p[0] == root && p[|p| - 1] == f;
    forall k | 0 <= k < |p| - 1 ensures Open(g', w', p[k], p[k + 1]) { OpenEdge(s.g, s.w, file, child, p[k], p[k + 1]); }
    assert Stack(g', w', p);
  }

  lemma ChildOnStack(s: State, file: File, child: File, root: File)
    requires s.Ok() && IsNew(s.g, s.w, file, child) && OnStack(s.g, s.w, root, file) && child !in s.g.finished
    ensures OnStack(IncludeIn(s.g, file, child), Unmerged(s.g, s.w, file, child), root, child)
  {
    var g', w' := IncludeIn(s.g, file, child), Unmerged(s.g, s.w, file, child);
    StackOn(s, file, child, root, file);
    var p :| Stack(g', w', p) && p[0] == root && p[|p| - 1] == file;
    var q := p + [child];
    OpenEdge(s.g, s.w, file, child, file, child);
    forall k | 0 <= k < |q| - 1 ensures Open(g', w', q[k], q[k + 1]) {
      if k + 1 < |p| { assert Open(g', w', p[k], p[k + 1]); }
    }
    assert Stack(g', w', q);
  }

  /** A header about to be read for the first time, included by a file that is being read. */
  lemma IncludeLasts(s: State, file: File, child: File, root: File)
    requires s.Ok() && IsNew(s.g, s.w, file, child) && file != child && Quiet(s, root)
    requires OnStack(s.g, s.w, root, file) && child !in s.g.finished && s.g.lists[child] == []
    ensures Quiet(Perform(s, Include(file, child)), root)
  {
    var g', w' := IncludeIn(s.g, file, child), Unmerged(s.g, s.w, file, child);
    forall f: File, c: File, name: CString
      | Reaches(g', w', root, f) && Open(g', w', f, c) && c in g'.finished && Visible(g', w', c, name)
      ensures Holds(w'.tables[c], name) || Carried(g', w', root, name)
    {
      IncludeEdge(s, file, child, root, f, c);
      IncludeShows(s.g, s.w, file, child, c, name);
      if Visible(s.g, s.w, c, name) {
        if !Holds(s.w.tables[c], name) { CarriedOn(s, file, child, root, name); }
      } else {
        ChildOnStack(s, file, child, root);
        LeafSees(s, child, name);
      }
    }
  }

  lemma IncludeEdge(s: State, file: File, child: File, root: File, f: File, c: File)
    requires s.Ok() && IsNew(s.g, s.w, file, child) && file != child && child !in s.g.finished && s.g.lists[child] == []
    requires var g', w' := IncludeIn(s.g, file, child), Unmerged(s.g, s.w, file, child);
             Reaches(g', w', root, f) && Open(g', w', f, c) && c in g'.finished
    ensures Reaches(s.g, s.w, root, f) && Open(s.g, s.w, f, c)
  {
    OpenEdge(s.g, s.w, file, child, f, c);
    ReachesWithEdge(s.g, s.w, file, child, root, f);
    if Reaches(s.g, s.w, child, f) { LeafReaches(s, child, f); }
  }

  /** The end of a file all of whose edges are merged, when no other FINISHED file is left to merge, as after any lookup in vain. */
  lemma FinishLasts(s: State, file: File, root: File)
    requires s.Ok() && file < |s.g.lists| && forall i :: 0 <= i < |s.g.lists[file]| ==> s.w.merged[file][i]
    requires forall f: File, c: File :: Reaches(s.g, s.w, root, f) && Open(s.g, s.w, f, c) ==> c !in s.g.finished
    ensures Quiet(Perform(s, Finish(file)), root)
  {
    var t := Perform(s, Finish(file));
    forall f: File, c: File, name: CString
      | Reaches(t.g, t.w, root, f) && Open(t.g, t.w, f, c) && c in t.g.finished && Visible(t.g, t.w, c, name)
      ensures Holds(t.w.tables[c], name) || Carried(t.g, t.w, root, name)
    {
      SameEdges(s, file, root, f);
      assert Open(s.g, s.w, f, c);
      assert c == file;
      ClosedFileSeesItself(t.g, t.w, file, name);
    }
  }

  lemma SameEdges(s: State, file: File, a: File, b: File)
    requires s.Ok() && file < |s.g.lists|
    ensures var t := Perform(s, Finish(file)); Reaches(t.g, t.w, a, b) ==> Reaches(s.g, s.w, a, b)
  {
    var t := Perform(s, Finish(file));
    if Reaches(t.g, t.w, a, b) {
      var p :| Path(t.g, t.w, p) && p[0] == a && p[|p| - 1] == b;
      forall k | 0 <= k < |p| - 1 ensures Open(s.g, s.w, p[k], p[k + 1]) { assert Open(t.g, t.w, p[k], p[k + 1]); }
      assert Path(s.g, s.w, p);
    }
  }
}
