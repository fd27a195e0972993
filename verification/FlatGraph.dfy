/**
 The include graph of a program whose headers include nothing, while one command-line file is being read: all edges
 that matter start there.
 */
module FlatGraph {
  import opened CStrings
  import opened SymbolTable
  import opened LookupSpec
  import opened Visibility
  import opened Hiding
  import opened Settling
  import opened Runs
  import M = Misses

  /**
   The root includes only `leaves`, those include nothing, and merges lead to FINISHED files.  Other files, such as
   command-line files read before, may include anything.
   */
  ghost predicate Flat(s: State, root: File, leaves: set<File>) {
    && s.Ok() && root < |s.g.lists| && root != s.g.main && root !in leaves && s.g.main !in leaves
    && (forall f :: f in leaves ==> f < |s.g.lists| && s.g.lists[f] == [])
    && (forall i :: 0 <= i < |s.g.lists[root]| ==> s.g.lists[root][i] in leaves)
    && forall i :: 0 <= i < |s.g.lists[root]| && s.w.merged[root][i] ==> s.g.lists[root][i] in s.g.finished
  }

  ghost predicate IsChild(g: Graph, root: File, f: File)
    requires root < |g.lists|
  {
    exists i :: 0 <= i < |g.lists[root]| && g.lists[root][i] == f
  }

  /** The files whose tables a lookup from the root looks at. */
  ghost predicate InView(s: State, root: File, f: File)
    requires s.Ok()
  {
    f == s.g.main || f == root || Open(s.g, s.w, root, f)
  }

  lemma LeafReaches(s: State, c: File, h: File)
    requires s.Ok() && c < |s.g.lists| && s.g.lists[c] == [] && Reaches(s.g, s.w, c, h)
    ensures h == c
  {
    var p :| Path(s.g, s.w, p) && p[0] == c && p[|p| - 1] == h;
    assert |p| > 1 ==> Open(s.g, s.w, p[0], p[1]);
  }

  lemma LeafSees(s: State, c: File, name: CString)
    requires s.Ok() && c < |s.g.lists| && s.g.lists[c] == []
    ensures Sees(s, c, name) <==> Holds(s.w.tables[s.g.main], name) || Holds(s.w.tables[c], name)
  {
    Here(s.g, s.w, c);
    forall h | Reaches(s.g, s.w, c, h) ensures h == c { LeafReaches(s, c, h); }
  }

  lemma RootReaches(s: State, root: File, leaves: set<File>, h: File)
    requires Flat(s, root, leaves) && Reaches(s.g, s.w, root, h)
    ensures h == root || Open(s.g, s.w, root, h)
  {
    var p :| Path(s.g, s.w, p) && p[0] == root && p[|p| - 1] == h;
    if |p| > 1 {
      assert Open(s.g, s.w, p[0], p[1]);
      assert p[1..][0] == p[1] && p[1..][|p[1..]| - 1] == h;
      PathTail(s.g, s.w, p);
      LeafReaches(s, p[1], h);
    }
  }

  lemma ReachedInView(s: State, root: File, f: File)
    requires s.Ok() && Open(s.g, s.w, root, f)
    ensures Reaches(s.g, s.w, root, f)
  {
    Here(s.g, s.w, f);
    OneStep(s.g, s.w, root, f, f);
  }

  /** A name is seen exactly when a file in view holds it. */
  lemma FlatSees(s: State, root: File, leaves: set<File>, name: CString)
    requires Flat(s, root, leaves)
    ensures Sees(s, root, name) <==> exists f: File :: f < |s.g.lists| && InView(s, root, f) && Holds(s.w.tables[f], name)
  {
    if Sees(s, root, name) && !Holds(s.w.tables[s.g.main], name) {
      var h: File :| h < |s.g.lists| && Reaches(s.g, s.w, root, h) && Holds(s.w.tables[h], name);
      RootReaches(s, root, leaves, h);
    }
    if f: File :| f < |s.g.lists| && InView(s, root, f) && Holds(s.w.tables[f], name) {
      Here(s.g, s.w, root);
      if f != s.g.main && f != root { ReachedInView(s, root, f); }
    }
  }

  lemma FlatSettled(s: State, root: File, leaves: set<File>)
    requires Flat(s, root, leaves)
    ensures Settled(s.g, s.w, root)
  {
    forall f: File, c: File, name: CString
      | Reaches(s.g, s.w, root, f) && Open(s.g, s.w, f, c) && c in s.g.finished && Visible(s.g, s.w, c, name)
      ensures Holds(s.w.tables[c], name) || Carried(s.g, s.w, root, name)
    {
      RootReaches(s, root, leaves, f);
      assert f == root && c in leaves;
      LeafSees(s, c, name);
    }
  }

  // ---------- what the operations do to it ----------

  lemma LeafLookup(g: Graph, w: World, symbol: CString, c: File)
    requires g.Valid() && w.Valid(g) && c < |g.lists| && g.lists[c] == []
    ensures FDefined(g, w, symbol, c).1 == w
  {
    var w1 := w.(checked := w.checked + {c});
    assert w1.(checked := w.checked) == w;
  }

  /** Only the root's own table and marks change. */
  lemma {:induction false} LookupLeavesOthers(g: Graph, w: World, symbol: CString, root: File, i: nat, f: File)
    requires g.Valid() && w.Valid(g) && root < |g.lists| && root in w.checked && i <= |g.lists[root]| && f < |g.lists| && f != root
    requires forall k :: 0 <= k < |g.lists[root]| ==> g.lists[g.lists[root][k]] == []
    ensures Children(g, w, symbol, root, i).1.tables[f] == w.tables[f]
    decreases |g.lists[root]| - i
  {
    if i < |g.lists[root]| {
      if w.merged[root][i] {
        LookupLeavesOthers(g, w, symbol, root, i + 1, f);
      } else {
        LeafLookup(g, w, symbol, g.lists[root][i]);
        LookupLeavesOthers(g, AfterChild(g, w, root, i), symbol, root, i + 1, f);
      }
    }
  }

  /** A lookup from the root: the state stays flat, the root sees the same names, and other tables are as before. */
  lemma LookFlat(s: State, root: File, leaves: set<File>, symbol: CString)
    requires Flat(s, root, leaves)
    ensures var t := Perform(s, Look(symbol, root));
            && Flat(t, root, leaves) && t.g == s.g && t.vals == s.vals && SeesSame(s.g, s.w, t.w, root)
            && forall f :: 0 <= f < |s.g.lists| && f != root ==> t.w.tables[f] == s.w.tables[f]
  {
    FlatSettled(s, root, leaves);
    M.SettledKeepsVisible(s.g, s.w, symbol, root, root);
    LookupKeeps(s.g, s.w, symbol, root, symbol);
    forall f | 0 <= f < |s.g.lists| && f != root ensures Perform(s, Look(symbol, root)).w.tables[f] == s.w.tables[f] {
      LookupLeavesOthers(s.g, s.w.(checked := s.w.checked + {root}), symbol, root, 0, f);
    }
  }

  /** Tables that the root does not come to are as before. */
  lemma {:induction false} UndefineFlat(s: State, root: File, leaves: set<File>, symbol: CString)
    requires Flat(s, root, leaves)
    ensures var t := Perform(s, Undef(symbol, root));
            && Flat(t, root, leaves) && t.g == s.g && t.vals == s.vals
            && forall f: File :: f < |s.g.lists| && f != root && f != s.g.main && !IsChild(s.g, root, f) ==> t.w.tables[f] == s.w.tables[f]
    decreases OpenEdges(s.g, s.w), Holders(s.w, symbol)
  {
    var (owner, w1) := IsDefined(s.g, s.w, symbol, root);
    LookFlat(s, root, leaves, symbol);
    if owner.Some? {
      UndefineProgress(s.g, s.w, symbol, root);
      OwnerIsInside(s, root, leaves, symbol);
      RemoveCells(s.g, w1, owner.value, symbol, s.vals.Keys);
      UndefineFlat(s.(w := RemoveStep(s.g, w1, owner.value, symbol)), root, leaves, symbol);
    }
  }

  lemma OwnerIsInside(s: State, root: File, leaves: set<File>, symbol: CString)
    requires Flat(s, root, leaves) && IsDefined(s.g, s.w, symbol, root).0.Some?
    ensures var f := IsDefined(s.g, s.w, symbol, root).0.value; f == s.g.main || f == root || IsChild(s.g, root, f)
  {
    if !Holds(s.w.tables[s.g.main], symbol) {
      var p := HitReaches(s.g, s.w, symbol, root);
      RootReaches(s, root, leaves, p[|p| - 1]);
    }
  }

  lemma RemoveCells(g: Graph, w: World, owner: File, symbol: CString, cells: set<Symtab>)
    requires g.Valid() && w.Valid(g) && owner < |g.lists| && Holds(w.tables[owner], symbol) && CellsIn(w, cells)
    ensures CellsIn(RemoveStep(g, w, owner, symbol), cells)
  {
  }
}
