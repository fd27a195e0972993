/**
 When a lookup leaves the visible names alone.  A merge closes an edge; what was seen through it and did not
 come along with the child's table is hidden.
 */
module Hiding {
  import opened CStrings
  import opened SymbolTable
  import opened LookupSpec
  import opened Visibility
  import opened Wrappers

  /** The same names are visible from `start`. */
  ghost predicate SeesSame(g: Graph, w: World, w': World, start: File)
    requires g.Valid() && w.Valid(g) && w'.Valid(g)
  {
    forall name: CString :: Visible(g, w', start, name) <==> Visible(g, w, start, name)
  }

  /** A file all of whose edges are merged sees the command line and its own table. */
  lemma ClosedFileSeesItself(g: Graph, w: World, file: File, name: CString)
    requires g.Valid() && w.Valid(g) && file < |g.lists|
    requires forall i :: 0 <= i < |g.lists[file]| ==> w.merged[file][i]
    ensures Visible(g, w, file, name) <==> Holds(w.tables[g.main], name) || Holds(w.tables[file], name)
  {
    Here(g, w, file);
    forall h | Reaches(g, w, file, h) ensures h == file {
      var p :| Path(g, w, p) && p[0] == file && p[|p| - 1] == h;
      assert |p| > 1 ==> Open(g, w, p[0], p[1]);
    }
  }

  // ---------- one merge ----------

  /** The edge closed, with nothing brought along. */
  ghost function Closed(g: Graph, w: World, file: File, i: nat): (w': World)
    requires g.Valid() && w.Valid(g) && file < |g.lists| && i < |g.lists[file]|
    ensures w'.Valid(g)
  {
    w.(merged := w.merged[file := w.merged[file][i := true]])
  }

  /** With a mark set on one edge a path either avoids the edge, or comes to its file without it. */
  lemma {:induction false} Detour(g: Graph, w: World, w': World, file: File, i: nat, p: seq<File>)
    requires g.Valid() && w.Valid(g) && w'.Valid(g) && file < |g.lists| && i < |g.lists[file]|
    requires w'.merged == Closed(g, w, file, i).merged && Path(g, w, p)
    ensures Path(g, w', p) || (Reaches(g, w', p[0], file) && Reaches(g, w, g.lists[file][i], p[|p| - 1]))
    decreases |p|
  {
    if |p| > 1 {
      PathTail(g, w, p);
      Detour(g, w, w', file, i, p[1..]);
      assert Open(g, w, p[0], p[1]);
      if Open(g, w', p[0], p[1]) {
        if Path(g, w', p[1..]) {
          forall k | 0 <= k < |p| - 1 ensures Open(g, w', p[k], p[k + 1]) {
            if k > 0 { assert Open(g, w', p[1..][k - 1], p[1..][k]); }
          }
        } else {
          OneStep(g, w', p[0], p[1], file);
        }
      } else {
        OnlyThatEdge(g, w, w', file, i, p[0], p[1]);
        Here(g, w', file);
        assert p[1..][0] == p[1] && p[1..][|p[1..]| - 1] == p[|p| - 1];
        assert Reaches(g, w, p[1], p[|p| - 1]);
      }
    }
  }

  lemma OnlyThatEdge(g: Graph, w: World, w': World, file: File, i: nat, a: File, b: File)
    requires g.Valid() && w.Valid(g) && w'.Valid(g) && file < |g.lists| && i < |g.lists[file]|
    requires w'.merged == Closed(g, w, file, i).merged && Open(g, w, a, b) && !Open(g, w', a, b)
    ensures a == file && b == g.lists[file][i]
  {
    var k :| 0 <= k < |g.lists[a]| && !w.merged[a][k] && g.lists[a][k] == b;
    assert w'.merged[a][k];
  }

  lemma Unmarked(g: Graph, w: World, w': World, a: File, b: File)
    requires g.Valid() && w.Valid(g) && w'.Valid(g) && Reaches(g, w', a, b)
    requires forall f, k :: 0 <= f < |g.lists| && 0 <= k < |g.lists[f]| && w.merged[f][k] ==> w'.merged[f][k]
    ensures Reaches(g, w, a, b)
  {
    var p :| Path(g, w', p) && p[0] == a && p[|p| - 1] == b;
    SamePath(g, w', w, p);
  }

  lemma MergedHolds(g: Graph, w: World, file: File, i: nat, f: File, name: CString)
    requires g.Valid() && w.Valid(g) && file < |g.lists| && i < |g.lists[file]| && f < |g.lists|
    ensures Holds(Absorb(g, w, file, i).tables[f], name)
            <==> Holds(w.tables[f], name) || (f == file && Holds(w.tables[g.lists[file][i]], name))
  {
    MergeHolds(w.tables[file], w.tables[g.lists[file][i]], name);
  }

  /** After the merge a file sees what it sees without the edge, and what the child's own table holds. */
  lemma MergeShows(g: Graph, w: World, file: File, i: nat, name: CString)
    requires g.Valid() && w.Valid(g) && file < |g.lists| && i < |g.lists[file]|
    ensures Visible(g, Absorb(g, w, file, i), file, name)
            <==> Visible(g, Closed(g, w, file, i), file, name) || Holds(w.tables[g.lists[file][i]], name)
  {
    var w', v := Absorb(g, w, file, i), Closed(g, w, file, i);
    assert file != g.main;
    Here(g, w', file);
    MergedHolds(g, w, file, i, file, name);
    MergedHolds(g, w, file, i, g.main, name);
    if Visible(g, w', file, name) && !Holds(w.tables[g.main], name) {
      var h: File :| h < |g.lists| && Reaches(g, w', file, h) && Holds(w'.tables[h], name);
      MergedHolds(g, w, file, i, h, name);
      Unmarked(g, v, w', file, h);
    }
    if Visible(g, v, file, name) && !Holds(w.tables[g.main], name) {
      var h: File :| h < |g.lists| && Reaches(g, v, file, h) && Holds(v.tables[h], name);
      MergedHolds(g, w, file, i, h, name);
      Unmarked(g, w', v, file, h);
    }
  }

  /** Before it, a file sees what it sees without the edge, and all that the child sees. */
  lemma EdgeShows(g: Graph, w: World, file: File, i: nat, name: CString)
    requires g.Valid() && w.Valid(g) && file < |g.lists| && i < |g.lists[file]| && !w.merged[file][i]
    ensures Visible(g, w, file, name)
            <==> Visible(g, Closed(g, w, file, i), file, name) || Visible(g, w, g.lists[file][i], name)
  {
    var v, child := Closed(g, w, file, i), g.lists[file][i];
    if Visible(g, w, file, name) && !Holds(w.tables[g.main], name) {
      var h: File :| h < |g.lists| && Reaches(g, w, file, h) && Holds(w.tables[h], name);
      var p :| Path(g, w, p) && p[0] == file && p[|p| - 1] == h;
      Detour(g, w, v, file, i, p);
      assert Reaches(g, v, file, h) || Reaches(g, w, child, h);
    }
    if Visible(g, v, file, name) && !Holds(w.tables[g.main], name) {
      var h: File :| h < |g.lists| && Reaches(g, v, file, h) && Holds(v.tables[h], name);
      Unmarked(g, w, v, file, h);
    }
    if Visible(g, w, child, name) && !Holds(w.tables[g.main], name) {
      var h: File :| h < |g.lists| && Reaches(g, w, child, h) && Holds(w.tables[h], name);
      assert Open(g, w, file, child);
      OneStep(g, w, file, child, h);
    }
  }

  /** Everything the child sees is in its own table, or seen from the file without the edge. */
  ghost predicate Covered(g: Graph, w: World, file: File, i: nat)
    requires g.Valid() && w.Valid(g) && file < |g.lists| && i < |g.lists[file]|
  {
    forall name: CString :: Visible(g, w, g.lists[file][i], name) ==>
      Holds(w.tables[g.lists[file][i]], name) || Visible(g, Closed(g, w, file, i), file, name)
  }

  /** A merge hides nothing from its file exactly when the edge is covered. */
  lemma MergeHidesIff(g: Graph, w: World, file: File, i: nat)
    requires g.Valid() && w.Valid(g) && file < |g.lists| && i < |g.lists[file]| && !w.merged[file][i]
    ensures SeesSame(g, w, Absorb(g, w, file, i), file) <==> Covered(g, w, file, i)
  {
    var w', v, child := Absorb(g, w, file, i), Closed(g, w, file, i), g.lists[file][i];
    forall name: CString
      ensures Visible(g, w', file, name) <==> Visible(g, v, file, name) || Holds(w.tables[child], name)
      ensures Visible(g, w, file, name) <==> Visible(g, v, file, name) || Visible(g, w, child, name)
      ensures Holds(w.tables[child], name) ==> Visible(g, w, child, name)
    {
      MergeShows(g, w, file, i, name);
      EdgeShows(g, w, file, i, name);
      Here(g, w, child);
    }
  }

  /**
   A hit in the own table of the first child still open: whether it hides names is decided by that edge.
   */
  lemma HitInChildHidesIff(g: Graph, w: World, symbol: CString, file: File, i: nat)
    requires g.Valid() && w.Valid(g) && w.checked == {} && file < |g.lists| && i < |g.lists[file]| && !w.merged[file][i]
    requires forall k :: 0 <= k < i ==> w.merged[file][k]
    requires g.lists[file][i] in g.finished && g.lists[file][i] != file
    requires Holds(w.tables[g.lists[file][i]], symbol) && !Holds(w.tables[file], symbol)
    ensures FDefined(g, w, symbol, file) == (Some(g.lists[file][i]), Absorb(g, w, file, i))
    ensures SeesSame(g, w, FDefined(g, w, symbol, file).1, file) <==> Covered(g, w, file, i)
  {
    var w1, child := w.(checked := w.checked + {file}), g.lists[file][i];
    assert FDefined(g, w1, symbol, child) == (Some(child), w1);
    SkipsMerged(g, w1, symbol, file, 0, i);
    assert Children(g, w1, symbol, file, i) == (Some(child), Absorb(g, w1, file, i));
    assert Absorb(g, w1, file, i).(checked := w.checked) == Absorb(g, w, file, i);
    MergeHidesIff(g, w, file, i);
  }

  /**
   The same wherever the hit is below the first child still open: the names that the file sees are left alone exactly when
   the search below the child leaves them alone and the edge is covered in what that search leaves.
   */
  lemma HitBelowHidesIff(g: Graph, w: World, symbol: CString, file: File, i: nat)
    requires g.Valid() && w.Valid(g) && w.checked == {} && file < |g.lists| && i < |g.lists[file]| && !w.merged[file][i]
    requires forall k :: 0 <= k < i ==> w.merged[file][k]
    requires g.lists[file][i] in g.finished && !Holds(w.tables[file], symbol)
    requires FDefined(g, w.(checked := {file}), symbol, g.lists[file][i]).0.Some?
    ensures var (owner, below) := FDefined(g, w.(checked := {file}), symbol, g.lists[file][i]);
            && FDefined(g, w, symbol, file) == (owner, Absorb(g, below, file, i).(checked := {})) && !below.merged[file][i]
            && (SeesSame(g, w, FDefined(g, w, symbol, file).1, file) <==> SeesSame(g, w, below, file) && Covered(g, below, file, i))
  {
    var w1, child := w.(checked := {file}), g.lists[file][i];
    var (owner, below) := FDefined(g, w1, symbol, child);
    assert w.(checked := w.checked + {file}) == w1;
    SkipsMerged(g, w1, symbol, file, 0, i);
    EdgeStaysOpen(g, w1, symbol, file, i);
    MergeHidesIff(g, below, file, i);
    var end := Absorb(g, below, file, i);
    LookupAddsNothing(g, w1, symbol, child);
    AfterChildAddsNothing(g, below, file, i);
    forall name: CString
      ensures Visible(g, w1, file, name) <==> Visible(g, w, file, name)
      ensures Visible(g, end.(checked := {}), file, name) <==> Visible(g, end, file, name)
    {
      if Visible(g, w1, file, name) { SameNames(g, w1, w, file, name); }
      if Visible(g, w, file, name) { SameNames(g, w, w1, file, name); }
      if Visible(g, end, file, name) { SameNames(g, end, end.(checked := {}), file, name); }
      if Visible(g, end.(checked := {}), file, name) { SameNames(g, end.(checked := {}), end, file, name); }
    }
  }

  lemma {:induction false} SkipsMerged(g: Graph, w: World, symbol: CString, file: File, k: nat, i: nat)
    requires g.Valid() && w.Valid(g) && file < |g.lists| && file in w.checked && k <= i < |g.lists[file]|
    requires forall j :: k <= j < i ==> w.merged[file][j]
    ensures Children(g, w, symbol, file, k) == Children(g, w, symbol, file, i)
    decreases i - k
  {
    if k < i { SkipsMerged(g, w, symbol, file, k + 1, i); }
  }
}
