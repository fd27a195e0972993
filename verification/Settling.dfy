/**
 States in which lookups hide nothing.  A file that is being read is not FINISHED and is never merged, so
 the files that are being read stay linked; what matters is what FINISHED files still owe their includers.
 */
module Settling {
  import opened CStrings
  import opened SymbolTable
  import opened LookupSpec
  import opened Visibility
  import opened Hiding
  import opened Wrappers

  /** A path that enters no FINISHED file; no merge ever closes an edge of it. */
  ghost predicate Stack(g: Graph, w: World, p: seq<File>)
    requires g.Valid() && w.Valid(g)
  {
    Path(g, w, p) && forall k :: 1 <= k < |p| ==> p[k] !in g.finished
  }

  ghost predicate OnStack(g: Graph, w: World, root: File, f: File)
    requires g.Valid() && w.Valid(g)
  {
    exists p :: Stack(g, w, p) && p[0] == root && p[|p| - 1] == f
  }

  /** Every file reachable and not FINISHED is being read, below the root. */
  ghost predicate Reading(g: Graph, w: World, root: File)
    requires g.Valid() && w.Valid(g)
  {
    forall f: File :: f < |g.lists| && Reaches(g, w, root, f) && f !in g.finished ==> OnStack(g, w, root, f)
  }

  /** The name is seen from the root without any FINISHED file. */
  ghost predicate Carried(g: Graph, w: World, root: File, name: CString)
    requires g.Valid() && w.Valid(g)
  {
    || Holds(w.tables[g.main], name)
    || exists f: File :: f < |g.lists| && OnStack(g, w, root, f) && Holds(w.tables[f], name)
  }

  /** What a FINISHED file behind an open edge shows is in its own table, or carried anyway. */
  ghost predicate Settled(g: Graph, w: World, root: File)
    requires g.Valid() && w.Valid(g)
  {
    SettledBut(g, w, root, {})
  }

  /** The same but for some names. */
  ghost predicate SettledBut(g: Graph, w: World, root: File, but: set<CString>)
    requires g.Valid() && w.Valid(g)
  {
    forall f: File, c: File, name: CString ::
      name !in but && Reaches(g, w, root, f) && Open(g, w, f, c) && c in g.finished && Visible(g, w, c, name) ==>
      Holds(w.tables[c], name) || Carried(g, w, root, name)
  }

  // ---------- merges keep all this ----------

  lemma StackStays(g: Graph, w: World, w': World, root: File, f: File)
    requires g.Valid() && w.Valid(g) && w'.Valid(g) && OnStack(g, w, root, f)
    requires forall a, k :: 0 <= a < |g.lists| && 0 <= k < |g.lists[a]| && w'.merged[a][k] && !w.merged[a][k] ==>
            g.lists[a][k] in g.finished
    ensures OnStack(g, w', root, f)
  {
    var p :| Stack(g, w, p) && p[0] == root && p[|p| - 1] == f;
    forall k | 0 <= k < |p| - 1 ensures Open(g, w', p[k], p[k + 1]) {
      assert Open(g, w, p[k], p[k + 1]) && p[k + 1] !in g.finished;
      var i :| 0 <= i < |g.lists[p[k]]| && !w.merged[p[k]][i] && g.lists[p[k]][i] == p[k + 1];
      assert !w'.merged[p[k]][i];
    }
    assert Stack(g, w', p);
  }

  lemma CarriedStays(g: Graph, w: World, file: File, i: nat, root: File, name: CString)
    requires g.Valid() && w.Valid(g) && file < |g.lists| && i < |g.lists[file]| && g.lists[file][i] in g.finished
    requires Carried(g, w, root, name)
    ensures Carried(g, Absorb(g, w, file, i), root, name)
  {
    var w' := Absorb(g, w, file, i);
    MergedHolds(g, w, file, i, g.main, name);
    if !Holds(w.tables[g.main], name) {
      var f: File :| f < |g.lists| && OnStack(g, w, root, f) && Holds(w.tables[f], name);
      StackStays(g, w, w', root, f);
      MergedHolds(g, w, file, i, f, name);
    }
  }

  lemma StackReaches(g: Graph, w: World, root: File, f: File)
    requires g.Valid() && w.Valid(g) && OnStack(g, w, root, f)
    ensures Reaches(g, w, root, f)
  {
    var p :| Stack(g, w, p) && p[0] == root && p[|p| - 1] == f;
  }

  lemma CarriedSeen(g: Graph, w: World, root: File, name: CString)
    requires g.Valid() && w.Valid(g) && Carried(g, w, root, name)
    ensures Visible(g, w, root, name)
  {
    if !Holds(w.tables[g.main], name) {
      var f: File :| f < |g.lists| && OnStack(g, w, root, f) && Holds(w.tables[f], name);
      StackReaches(g, w, root, f);
    }
  }

  /** In a settled state a merge hides nothing from the root, ... */
  lemma MergeKeeps(g: Graph, w: World, file: File, i: nat, root: File, but: set<CString>, name: CString)
    requires g.Valid() && w.Valid(g) && file < |g.lists| && i < |g.lists[file]| && !w.merged[file][i]
    requires g.lists[file][i] in g.finished && SettledBut(g, w, root, but) && name !in but && Visible(g, w, root, name)
    ensures Visible(g, Absorb(g, w, file, i), root, name)
  {
    var w', child := Absorb(g, w, file, i), g.lists[file][i];
    MergedHolds(g, w, file, i, g.main, name);
    if !Holds(w.tables[g.main], name) {
      var h: File :| h < |g.lists| && Reaches(g, w, root, h) && Holds(w.tables[h], name);
      var p :| Path(g, w, p) && p[0] == root && p[|p| - 1] == h;
      Detour(g, w, w', file, i, p);
      if Path(g, w', p) {
        MergedHolds(g, w, file, i, h, name);
        assert Reaches(g, w', root, h);
      } else {
        Unmarked(g, w, w', root, file);
        assert Open(g, w, file, child) && Visible(g, w, child, name);
        if Holds(w.tables[child], name) {
          MergedHolds(g, w, file, i, file, name);
        } else {
          CarriedStays(g, w, file, i, root, name);
          CarriedSeen(g, w', root, name);
        }
      }
    }
  }

  /** ... and the state stays settled. */
  lemma MergeSettles(g: Graph, w: World, file: File, i: nat, root: File, but: set<CString>)
    requires g.Valid() && w.Valid(g) && file < |g.lists| && i < |g.lists[file]| && !w.merged[file][i]
    requires g.lists[file][i] in g.finished && SettledBut(g, w, root, but)
    ensures SettledBut(g, Absorb(g, w, file, i), root, but)
  {
    var w' := Absorb(g, w, file, i);
    AfterChildAddsNothing(g, w, file, i);
    forall f: File, c: File, name: CString
      | name !in but && Reaches(g, w', root, f) && Open(g, w', f, c) && c in g.finished && Visible(g, w', c, name)
      ensures Holds(w'.tables[c], name) || Carried(g, w', root, name)
    {
      Unmarked(g, w, w', root, f);
      var k :| 0 <= k < |g.lists[f]| && !w'.merged[f][k] && g.lists[f][k] == c;
      assert !w.merged[f][k];
      assert Open(g, w, f, c) && Visible(g, w, c, name);
      MergedHolds(g, w, file, i, c, name);
      if !Holds(w.tables[c], name) { CarriedStays(g, w, file, i, root, name); }
    }
  }

  // ---------- whole lookups ----------

  /** The marks DEFCHECKED play no part. */
  lemma SameSees(g: Graph, w: World, v: World, root: File)
    requires g.Valid() && w.Valid(g) && v.Valid(g) && w.tables == v.tables && w.merged == v.merged
    ensures SeesSame(g, w, v, root)
  {
    forall name: CString ensures Visible(g, v, root, name) <==> Visible(g, w, root, name) {
      if Visible(g, w, root, name) { SameNames(g, w, v, root, name); }
      if Visible(g, v, root, name) { SameNames(g, v, w, root, name); }
    }
  }

  lemma SameCarried(g: Graph, w: World, v: World, root: File, name: CString)
    requires g.Valid() && w.Valid(g) && v.Valid(g) && w.tables == v.tables && w.merged == v.merged && Carried(g, w, root, name)
    ensures Carried(g, v, root, name)
  {
    if !Holds(w.tables[g.main], name) {
      var u: File :| u < |g.lists| && OnStack(g, w, root, u) && Holds(w.tables[u], name);
      StackStays(g, w, v, root, u);
    }
  }

  lemma SameSettled(g: Graph, w: World, v: World, root: File, but: set<CString>)
    requires g.Valid() && w.Valid(g) && v.Valid(g) && w.tables == v.tables && w.merged == v.merged && SettledBut(g, w, root, but)
    ensures SettledBut(g, v, root, but)
  {
    forall f: File, c: File, name: CString
      | name !in but && Reaches(g, v, root, f) && Open(g, v, f, c) && c in g.finished && Visible(g, v, c, name)
      ensures Holds(v.tables[c], name) || Carried(g, v, root, name)
    {
      Unmarked(g, w, v, root, f);
      SameNames(g, v, w, c, name);
      assert Open(g, w, f, c);
      if !Holds(w.tables[c], name) { SameCarried(g, w, v, root, name); }
    }
  }

  /** A lookup in a settled state: from the root the same names are visible, and the state stays settled. */
  ghost predicate Undisturbed(g: Graph, w: World, w': World, root: File, but: set<CString>)
    requires g.Valid() && w.Valid(g) && w'.Valid(g)
  {
    SettledBut(g, w', root, but) && forall name: CString :: name !in but ==> (Visible(g, w', root, name) <==> Visible(g, w, root, name))
  }

  lemma Onward(g: Graph, w: World, v: World, u: World, root: File, but: set<CString>)
    requires g.Valid() && w.Valid(g) && v.Valid(g) && u.Valid(g)
    requires Undisturbed(g, w, v, root, but) && Undisturbed(g, v, u, root, but)
    ensures Undisturbed(g, w, u, root, but)
  {
  }

  lemma AfterChildUndisturbed(g: Graph, w: World, file: File, i: nat, root: File, but: set<CString>)
    requires g.Valid() && w.Valid(g) && file < |g.lists| && i < |g.lists[file]| && !w.merged[file][i] && SettledBut(g, w, root, but)
    requires root < |g.lists|
    ensures Undisturbed(g, w, AfterChild(g, w, file, i), root, but)
  {
    if g.lists[file][i] in g.finished {
      MergeSettles(g, w, file, i, root, but);
      AfterChildAddsNothing(g, w, file, i);
      forall name: CString | name !in but && Visible(g, w, root, name) ensures Visible(g, Absorb(g, w, file, i), root, name) {
        MergeKeeps(g, w, file, i, root, but, name);
      }
    }
  }

  lemma ChildUndisturbed(g: Graph, w: World, w1: World, file: File, i: nat, root: File, but: set<CString>)
    requires g.Valid() && w.Valid(g) && w1.Valid(g) && file < |g.lists| && i < |g.lists[file]| && root < |g.lists|
    requires !w1.merged[file][i] && Undisturbed(g, w, w1, root, but)
    ensures Undisturbed(g, w, AfterChild(g, w1, file, i), root, but)
  {
    AfterChildUndisturbed(g, w1, file, i, root, but);
    Onward(g, w, w1, AfterChild(g, w1, file, i), root, but);
  }

  /** Whatever is looked up, and from whichever file: nothing changes for the root. */
  lemma {:induction false} SettledLookup(g: Graph, w: World, symbol: CString, file: File, root: File, but: set<CString>)
    requires g.Valid() && w.Valid(g) && file < |g.lists| && root < |g.lists| && SettledBut(g, w, root, but)
    ensures Undisturbed(g, w, FDefined(g, w, symbol, file).1, root, but)
    decreases g.Files() - w.checked, 0
  {
    if file !in w.checked && !Holds(w.tables[file], symbol) {
      var w1 := w.(checked := w.checked + {file});
      SameSees(g, w, w1, root);
      SameSettled(g, w, w1, root, but);
      SettledChildren(g, w1, symbol, file, 0, root, but);
      var below := Children(g, w1, symbol, file, 0).1;
      SameSees(g, below, below.(checked := w.checked), root);
      SameSettled(g, below, below.(checked := w.checked), root, but);
    }
  }

  lemma {:induction false} SettledChildren(g: Graph, w: World, symbol: CString, file: File, i: nat, root: File, but: set<CString>)
    requires g.Valid() && w.Valid(g) && file < |g.lists| && file in w.checked && i <= |g.lists[file]|
    requires root < |g.lists|
    ensures !SettledBut(g, w, root, but) || Undisturbed(g, w, Children(g, w, symbol, file, i).1, root, but)
    decreases g.Files() - w.checked, |g.lists[file]| - i, 2
  {
    if i == |g.lists[file]| {
      assert Children(g, w, symbol, file, i).1 == w;
    } else if w.merged[file][i] {
      SettledChildren(g, w, symbol, file, i + 1, root, but);
      assert Children(g, w, symbol, file, i) == Children(g, w, symbol, file, i + 1);
    } else if SettledBut(g, w, root, but) {
      SettledOpen(g, w, symbol, file, i, root, but);
    }
  }

  lemma SettledOpen(g: Graph, w: World, symbol: CString, file: File, i: nat, root: File, but: set<CString>)
    requires g.Valid() && w.Valid(g) && file < |g.lists| && file in w.checked && i < |g.lists[file]| && !w.merged[file][i]
    requires root < |g.lists| && SettledBut(g, w, root, but)
    ensures Undisturbed(g, w, Children(g, w, symbol, file, i).1, root, but)
    decreases g.Files() - w.checked, |g.lists[file]| - i, 1
  {
    SettledChild(g, w, symbol, file, i, root, but);
    var r := FDefined(g, w, symbol, g.lists[file][i]);
    var w2 := AfterChild(g, r.1, file, i);
    var w3 := if r.0.Some? then w2 else Children(g, w2, symbol, file, i + 1).1;
    assert Children(g, w, symbol, file, i).1 == w3;
    if r.0 == None {
      SettledChildren(g, w2, symbol, file, i + 1, root, but);
      Onward(g, w, w2, w3, root, but);
    }
  }

  lemma SettledChild(g: Graph, w: World, symbol: CString, file: File, i: nat, root: File, but: set<CString>)
    requires g.Valid() && w.Valid(g) && file < |g.lists| && file in w.checked && i < |g.lists[file]| && !w.merged[file][i]
    requires root < |g.lists| && SettledBut(g, w, root, but)
    ensures Undisturbed(g, w, AfterChild(g, FDefined(g, w, symbol, g.lists[file][i]).1, file, i), root, but)
    decreases g.Files() - w.checked, |g.lists[file]| - i, 0
  {
    SettledLookup(g, w, symbol, g.lists[file][i], root, but);
    PathUntouched(g, w, symbol, g.lists[file][i], file);
    ChildUndisturbed(g, w, FDefined(g, w, symbol, g.lists[file][i]).1, file, i, root, but);
  }

  /** In particular when every FINISHED file has all its edges merged. */
  lemma ClosedSettles(g: Graph, w: World, root: File)
    requires g.Valid() && w.Valid(g)
    requires forall c: File, k :: c < |g.lists| && c in g.finished && 0 <= k < |g.lists[c]| ==> w.merged[c][k]
    ensures Settled(g, w, root)
  {
    forall f: File, c: File, name: CString
      | Reaches(g, w, root, f) && Open(g, w, f, c) && c in g.finished && Visible(g, w, c, name)
      ensures Holds(w.tables[c], name) || Carried(g, w, root, name)
    {
      var k :| 0 <= k < |g.lists[f]| && !w.merged[f][k] && g.lists[f][k] == c;
      ClosedFileSeesItself(g, w, c, name);
    }
  }
}
