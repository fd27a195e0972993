/**
 A lookup that misses hides nothing and settles the state.
 */
module Misses {
  import opened CStrings
  import opened SymbolTable
  import opened LookupSpec
  import opened Visibility
  import opened Hiding
  import opened Settling
  import opened Wrappers

  /** No edge of the file leads to a FINISHED file any more. */
  ghost predicate Drained(g: Graph, w: World, file: File, from: nat)
    requires g.Valid() && w.Valid(g) && file < |g.lists|
  {
    forall k :: from <= k < |g.lists[file]| ==> w.merged[file][k] || g.lists[file][k] !in g.finished
  }

  ghost predicate AllDrained(g: Graph, w: World, seen: set<File>)
    requires g.Valid() && w.Valid(g)
  {
    forall f: File :: f in seen && f < |g.lists| ==> Drained(g, w, f, 0)
  }

  lemma DrainedStays(g: Graph, w: World, w': World, seen: set<File>)
    requires g.Valid() && w.Valid(g) && w'.Valid(g) && AllDrained(g, w, seen)
    requires forall f, k :: 0 <= f < |g.lists| && 0 <= k < |g.lists[f]| && w.merged[f][k] ==> w'.merged[f][k]
    ensures AllDrained(g, w', seen)
  {
  }

  lemma {:induction false} MissDrains(g: Graph, w: World, symbol: CString, file: File)
    requires g.Valid() && w.Valid(g) && file < |g.lists| && FDefined(g, w, symbol, file).0 == None
    ensures AllDrained(g, FDefined(g, w, symbol, file).1, Visited(g, w, symbol, file))
    decreases g.Files() - w.checked, 0
  {
    if file !in w.checked {
      var w1 := w.(checked := w.checked + {file});
      MissDrainsBelow(g, w1, symbol, file, 0);
    }
  }

  lemma {:induction false} MissDrainsBelow(g: Graph, w: World, symbol: CString, file: File, i: nat)
    requires g.Valid() && w.Valid(g) && file < |g.lists| && file in w.checked && i <= |g.lists[file]|
    ensures var (found, w') := Children(g, w, symbol, file, i); found != None || AllDrained(g, w', VisitedBelow(g, w, symbol, file, i))
    ensures var (found, w') := Children(g, w, symbol, file, i); found != None || Drained(g, w', file, i)
    decreases g.Files() - w.checked, 1 + |g.lists[file]| - i
  {
    if i < |g.lists[file]| && Children(g, w, symbol, file, i).0 == None {
      if w.merged[file][i] {
        MissDrainsBelow(g, w, symbol, file, i + 1);
        LookupBelowKeeps(g, w, symbol, file, i + 1, symbol);
      } else {
        MissDrainsOpen(g, w, symbol, file, i);
      }
    }
  }

  lemma {:induction false} MissDrainsOpen(g: Graph, w: World, symbol: CString, file: File, i: nat)
    requires g.Valid() && w.Valid(g) && file < |g.lists| && file in w.checked && i < |g.lists[file]| && !w.merged[file][i]
    requires Children(g, w, symbol, file, i).0 == None
    ensures var w' := Children(g, w, symbol, file, i).1; AllDrained(g, w', VisitedBelow(g, w, symbol, file, i)) && Drained(g, w', file, i)
    decreases g.Files() - w.checked, 1 + |g.lists[file]| - i, 0
  {
    var child := g.lists[file][i];
    var w1 := FDefined(g, w, symbol, child).1;
    var w2 := AfterChild(g, w1, file, i);
    var w' := Children(g, w2, symbol, file, i + 1).1;
    MissDrains(g, w, symbol, child);
    AfterChildStep(g, w1, symbol, file, i);
    MissDrainsBelow(g, w2, symbol, file, i + 1);
    LookupBelowKeeps(g, w2, symbol, file, i + 1, symbol);
    DrainedStays(g, w1, w', Visited(g, w, symbol, child));
  }

  // ---------- what is searched is reachable ----------

  lemma {:induction false} VisitedReached(g: Graph, w: World, symbol: CString, file: File, f: File)
    requires g.Valid() && w.Valid(g) && file < |g.lists| && f in Visited(g, w, symbol, file)
    ensures f < |g.lists| && Reaches(g, w, file, f)
    decreases g.Files() - w.checked, 0
  {
    Here(g, w, file);
    if f != file {
      var w1 := w.(checked := w.checked + {file});
      VisitedBelowReached(g, w1, symbol, file, 0, f);
      Unmarked(g, w, w1, file, f);
    }
  }

  lemma {:induction false} VisitedBelowReached(g: Graph, w: World, symbol: CString, file: File, i: nat, f: File)
    requires g.Valid() && w.Valid(g) && file < |g.lists| && file in w.checked && i <= |g.lists[file]|
    requires f in VisitedBelow(g, w, symbol, file, i)
    ensures f < |g.lists| && Reaches(g, w, file, f)
    decreases g.Files() - w.checked, 1 + |g.lists[file]| - i
  {
    if w.merged[file][i] {
      VisitedBelowReached(g, w, symbol, file, i + 1, f);
    } else {
      var child := g.lists[file][i];
      var w1 := FDefined(g, w, symbol, child).1;
      var w2 := AfterChild(g, w1, file, i);
      if f in Visited(g, w, symbol, child) {
        VisitedReached(g, w, symbol, child, f);
        assert Open(g, w, file, child);
        OneStep(g, w, file, child, f);
      } else {
        VisitedBelowReached(g, w2, symbol, file, i + 1, f);
        LookupKeeps(g, w, symbol, child, symbol);
        AfterChildStep(g, w1, symbol, file, i);
        Unmarked(g, w, w2, file, f);
      }
    }
  }

  // ---------- names come up ----------

  /** The name has come up to the file, or is in a file among those searched that is not FINISHED. */
  ghost predicate Gathered(g: Graph, w: World, seen: set<File>, file: File, name: CString)
    requires g.Valid() && w.Valid(g) && file < |g.lists|
  {
    Holds(w.tables[file], name) || exists u: File :: u in seen && u < |g.lists| && u !in g.finished && Holds(w.tables[u], name)
  }

  lemma GatheredStays(g: Graph, w: World, w': World, seen: set<File>, seen': set<File>, file: File, name: CString)
    requires g.Valid() && w.Valid(g) && w'.Valid(g) && file < |g.lists| && seen <= seen' && Gathered(g, w, seen, file, name)
    requires forall f :: 0 <= f < |g.lists| && Holds(w.tables[f], name) ==> Holds(w'.tables[f], name)
    ensures Gathered(g, w', seen', file, name)
  {
  }

  lemma {:induction false} MissGathers(g: Graph, w: World, symbol: CString, file: File, h: File, name: CString)
    requires g.Valid() && w.Valid(g) && file < |g.lists| && FDefined(g, w, symbol, file).0 == None
    requires h in Visited(g, w, symbol, file) && h < |g.lists| && Holds(w.tables[h], name)
    ensures Gathered(g, FDefined(g, w, symbol, file).1, Visited(g, w, symbol, file), file, name)
    decreases g.Files() - w.checked, 0
  {
    var w1 := w.(checked := w.checked + {file});
    MissGathersBelow(g, w1, symbol, file, 0, h, name);
    var below := Children(g, w1, symbol, file, 0).1;
    GatheredStays(g, below, below.(checked := w.checked), VisitedBelow(g, w1, symbol, file, 0), Visited(g, w, symbol, file), file, name);
  }

  lemma {:induction false} MissGathersBelow(g: Graph, w: World, symbol: CString, file: File, i: nat, h: File, name: CString)
    requires g.Valid() && w.Valid(g) && file < |g.lists| && file in w.checked && i <= |g.lists[file]|
    requires (h in VisitedBelow(g, w, symbol, file, i) || h == file) && h < |g.lists| && Holds(w.tables[h], name)
    ensures var (found, w') := Children(g, w, symbol, file, i);
            found != None || Gathered(g, w', VisitedBelow(g, w, symbol, file, i), file, name)
    decreases g.Files() - w.checked, 1 + |g.lists[file]| - i
  {
    if i < |g.lists[file]| && Children(g, w, symbol, file, i).0 == None {
      if w.merged[file][i] {
        MissGathersBelow(g, w, symbol, file, i + 1, h, name);
      } else if h in Visited(g, w, symbol, g.lists[file][i]) {
        MissGathersInside(g, w, symbol, file, i, h, name);
      } else {
        var child := g.lists[file][i];
        var w1 := FDefined(g, w, symbol, child).1;
        EdgeStaysOpen(g, w, symbol, file, i);
        AfterChildKeeps(g, w1, file, i, name);
        LookupKeeps(g, w, symbol, child, name);
        MissGathersBelow(g, AfterChild(g, w1, file, i), symbol, file, i + 1, h, name);
      }
    }
  }

  /** The name is below the i-th child, and the search goes there. */
  lemma {:induction false} MissGathersInside(g: Graph, w: World, symbol: CString, file: File, i: nat, h: File, name: CString)
    requires g.Valid() && w.Valid(g) && file < |g.lists| && file in w.checked && i < |g.lists[file]| && !w.merged[file][i]
    requires h in Visited(g, w, symbol, g.lists[file][i]) && h < |g.lists| && Holds(w.tables[h], name)
    requires Children(g, w, symbol, file, i).0 == None
    ensures Gathered(g, Children(g, w, symbol, file, i).1, VisitedBelow(g, w, symbol, file, i), file, name)
    decreases g.Files() - w.checked, 1 + |g.lists[file]| - i, 0
  {
    var child := g.lists[file][i];
    var w1 := FDefined(g, w, symbol, child).1;
    var w2 := AfterChild(g, w1, file, i);
    EdgeStaysOpen(g, w, symbol, file, i);
    AfterChildKeeps(g, w1, file, i, name);
    MissGathers(g, w, symbol, child, h, name);
    if Holds(w1.tables[child], name) && child in g.finished {
      MergedHolds(g, w1, file, i, file, name);
      MissGathersBelow(g, w2, symbol, file, i + 1, file, name);
    } else {
      LookupBelowKeeps(g, w2, symbol, file, i + 1, name);
    }
  }

  // ---------- the main results ----------

  /**
   Looking up a name that is not visible, while all that is reachable and not FINISHED is being read: the same
   names stay visible, and the state is settled, so that no later lookup hides anything either.
   */
  lemma MissKeepsVisible(g: Graph, w: World, symbol: CString, root: File)
    requires g.Valid() && w.Valid(g) && root < |g.lists| && w.checked == {}
    requires Reading(g, w, root) && !Visible(g, w, root, symbol)
    ensures var w' := IsDefined(g, w, symbol, root).1;
            SeesSame(g, w, w', root) && Settled(g, w', root) && Reading(g, w', root)
  {
    IsDefinedIffVisible(g, w, symbol, root);
    var w' := FDefined(g, w, symbol, root).1;
    LookupAddsNothing(g, w, symbol, root);
    LookupKeeps(g, w, symbol, root, symbol);
    forall name: CString | Visible(g, w, root, name) ensures Visible(g, w', root, name) {
      MissKeepsName(g, w, symbol, root, name);
    }
    ReadingStays(g, w, w', root);
    MissSettles(g, w, symbol, root);
  }

  lemma MissKeepsName(g: Graph, w: World, symbol: CString, root: File, name: CString)
    requires g.Valid() && w.Valid(g) && root < |g.lists| && w.checked == {}
    requires Reading(g, w, root) && FDefined(g, w, symbol, root).0 == None && Visible(g, w, root, name)
    ensures Visible(g, FDefined(g, w, symbol, root).1, root, name)
  {
    var w' := FDefined(g, w, symbol, root).1;
    LookupKeeps(g, w, symbol, root, name);
    if !Holds(w.tables[g.main], name) {
      var h: File :| h < |g.lists| && Reaches(g, w, root, h) && Holds(w.tables[h], name);
      MissMeansUnreachable(g, w, symbol, root, h);
      MissGathers(g, w, symbol, root, h, name);
      Here(g, w', root);
      if !Holds(w'.tables[root], name) {
        var u: File :| u in Visited(g, w, symbol, root) && u < |g.lists| && u !in g.finished && Holds(w'.tables[u], name);
        VisitedReached(g, w, symbol, root, u);
        StackStays(g, w, w', root, u);
        StackReaches(g, w', root, u);
      }
    }
  }

  lemma ReadingStays(g: Graph, w: World, w': World, root: File)
    requires g.Valid() && w.Valid(g) && w'.Valid(g) && Reading(g, w, root)
    requires forall f, k :: 0 <= f < |g.lists| && 0 <= k < |g.lists[f]| && w.merged[f][k] ==> w'.merged[f][k]
    requires forall f, k :: 0 <= f < |g.lists| && 0 <= k < |g.lists[f]| && w'.merged[f][k] && !w.merged[f][k] ==>
            g.lists[f][k] in g.finished
    ensures Reading(g, w', root)
  {
    forall f: File | f < |g.lists| && Reaches(g, w', root, f) && f !in g.finished ensures OnStack(g, w', root, f) {
      Unmarked(g, w, w', root, f);
      StackStays(g, w, w', root, f);
    }
  }

  /** After a miss no open edge that the root can come to leads to a FINISHED file. */
  lemma MissDrainsAll(g: Graph, w: World, symbol: CString, root: File)
    requires g.Valid() && w.Valid(g) && root < |g.lists| && w.checked == {} && FDefined(g, w, symbol, root).0 == None
    ensures var w' := FDefined(g, w, symbol, root).1;
            forall f: File, c: File :: Reaches(g, w', root, f) && Open(g, w', f, c) ==> c !in g.finished
  {
    var w' := FDefined(g, w, symbol, root).1;
    MissDrains(g, w, symbol, root);
    LookupKeeps(g, w, symbol, root, symbol);
    forall f: File, c: File | Reaches(g, w', root, f) && Open(g, w', f, c) ensures c !in g.finished {
      Unmarked(g, w, w', root, f);
      MissMeansUnreachable(g, w, symbol, root, f);
      assert Drained(g, w', f, 0);
      var k :| 0 <= k < |g.lists[f]| && !w'.merged[f][k] && g.lists[f][k] == c;
    }
  }

  lemma MissSettles(g: Graph, w: World, symbol: CString, root: File)
    requires g.Valid() && w.Valid(g) && root < |g.lists| && w.checked == {} && FDefined(g, w, symbol, root).0 == None
    ensures Settled(g, FDefined(g, w, symbol, root).1, root)
  {
    MissDrainsAll(g, w, symbol, root);
  }

  /** In a settled state no lookup at all hides anything from the root. */
  lemma SettledKeepsVisible(g: Graph, w: World, symbol: CString, file: File, root: File)
    requires g.Valid() && w.Valid(g) && file < |g.lists| && root < |g.lists| && Settled(g, w, root)
    ensures var w' := IsDefined(g, w, symbol, file).1; SeesSame(g, w, w', root) && Settled(g, w', root)
  {
    if Holds(w.tables[g.main], symbol) { SameSees(g, w, w, root); } else { SettledLookup(g, w, symbol, file, root, {}); }
  }

  /**
   A hit can hide names: file 1 includes 2, which includes 3 and 4.  Looking up a name of 3 stops
   before 4 is searched, yet marks 2 as merged into 1, so a name of 4 is no longer seen from 1.
   */
  lemma HitCanHide(a: Symtab, b: Symtab) returns (g: Graph, w: World)
    requires a.name == "A" && b.name == "B"
    ensures g.Valid() && w.Valid(g) && w.checked == {} && g.finished == {2, 3, 4} && g.main == 0 && |g.lists| == 5
    ensures FDefined(g, w, "A", 1).0 == Some(3)
    ensures Visible(g, w, 1, "B") && !Visible(g, FDefined(g, w, "A", 1).1, 1, "B")
  {
    g := Graph([[], [2], [3, 4], [], []], {2, 3, 4}, 0);
    w := World([[], [], [], [a], [b]], [[], [false], [false, false], [], []], {});
    assert Visible(g, w, 1, "B") by {
      assert Open(g, w, 1, 2) by { assert g.lists[1][0] == 2 && !w.merged[1][0]; }
      assert Open(g, w, 2, 4) by { assert g.lists[2][1] == 4 && !w.merged[2][1]; }
      assert w.tables[4][0].name == "B" && Path(g, w, [1, 2, 4]) && [1, 2, 4][0] == 1 && [1, 2, 4][2] == 4;
      assert Reaches(g, w, 1, 4);
    }
    HitCanHideRun(a, g, w);
    ClosedFileSeesItself(g, FDefined(g, w, "A", 1).1, 1, "B");
  }

  lemma HitCanHideRun(a: Symtab, g: Graph, w: World)
    requires a.name == "A" && g.Valid() && w.Valid(g) && w.checked == {}
    requires g.lists == [[], [2], [3, 4], [], []] && g.finished == {2, 3, 4} && g.main == 0
    requires w.tables[..4] == [[], [], [], [a]] && w.merged == [[], [false], [false, false], [], []]
    ensures FDefined(g, w, "A", 1).0 == Some(3)
    ensures FDefined(g, w, "A", 1).1.merged[1] == [true]
    ensures FDefined(g, w, "A", 1).1.tables[0] == [] && FDefined(g, w, "A", 1).1.tables[1] == [a]
  {
    assert w.tables[0] == w.tables[..4][0] && w.tables[1] == w.tables[..4][1];
    assert w.tables[2] == w.tables[..4][2] && w.tables[3] == w.tables[..4][3] == [a];
    assert w.tables[3][0].name == "A";
    var w1, w12 := w.(checked := w.checked + {1}), w.(checked := w.checked + {1} + {2});
    assert FDefined(g, w12, "A", 3) == (Some(3), w12);
    var v := AfterChild(g, w12, 2, 0);
    assert Children(g, w12, "A", 2, 0) == (Some(3), v);
    var v1 := v.(checked := w1.checked);
    assert FDefined(g, w1, "A", 2) == (Some(3), v1);
    assert v1.tables[2] == [a] && v1.tables[1] == [];
    var u := AfterChild(g, v1, 1, 0);
    assert Children(g, w1, "A", 1, 0) == (Some(3), u);
    assert u.tables[1] == [a] && u.merged[1] == [true];
  }
}
