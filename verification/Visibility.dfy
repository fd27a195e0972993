/**
 Which names a lookup can see, and what lookups and #undef do to that.
 */
module Visibility {
  import opened CStrings
  import opened SymbolTable
  import opened LookupSpec
  import opened Wrappers

  /** The command line or a file reachable through edges not yet merged holds the name. */
  ghost predicate Visible(g: Graph, w: World, file: File, name: CString)
    requires g.Valid() && w.Valid(g)
  {
    || Holds(w.tables[g.main], name)
    || exists h: File :: h < |g.lists| && Reaches(g, w, file, h) && Holds(w.tables[h], name)
  }

  /** isdefined finds exactly the visible names, whatever it merges on the way. */
  lemma IsDefinedIffVisible(g: Graph, w: World, symbol: CString, file: File)
    requires g.Valid() && w.Valid(g) && file < |g.lists| && w.checked == {}
    ensures IsDefined(g, w, symbol, file).0.Some? <==> Visible(g, w, file, symbol)
    ensures IsDefined(g, w, symbol, file).0.Some? ==>
              var owner := IsDefined(g, w, symbol, file).0.value;
              Holds(w.tables[owner], symbol) && IsDefined(g, w, symbol, file).1.tables[owner] == w.tables[owner]
  {
    if !Holds(w.tables[g.main], symbol) {
      var r := FDefined(g, w, symbol, file);
      if r.0.Some? {
        var p := HitReaches(g, w, symbol, file);
        assert Reaches(g, w, file, r.0.value);
      } else if Visible(g, w, file, symbol) {
        var h: File :| h < |g.lists| && Reaches(g, w, file, h) && Holds(w.tables[h], symbol);
        MissMeansUnreachable(g, w, symbol, file, h);
      }
    }
  }

  // ---------- lookups add no names ----------

  /** Whatever the search marked: from `start`, no name is visible afterwards that was not before. */
  ghost predicate NoNewNames(g: Graph, w: World, w': World)
    requires g.Valid() && w.Valid(g) && w'.Valid(g)
  {
    forall start: File, name: CString :: start < |g.lists| && Visible(g, w', start, name) ==> Visible(g, w, start, name)
  }

  lemma ReachTrans(g: Graph, w: World, a: File, b: File, i: nat)
    requires g.Valid() && w.Valid(g) && Reaches(g, w, a, b) && b < |g.lists| && i < |g.lists[b]| && !w.merged[b][i]
    ensures Reaches(g, w, a, g.lists[b][i])
  {
    var p :| Path(g, w, p) && p[0] == a && p[|p| - 1] == b;
    var q := p + [g.lists[b][i]];
    forall k | 0 <= k < |q| - 1 ensures Open(g, w, q[k], q[k + 1]) {
      if k + 1 < |p| { assert Open(g, w, p[k], p[k + 1]); }
    }
    assert Path(g, w, q);
  }

  lemma FewerEdges(g: Graph, w: World, w': World, a: File, b: File)
    requires g.Valid() && w.Valid(g) && w'.Valid(g) && Reaches(g, w', a, b)
    requires Grows(g, w, w', g.Files())
    ensures Reaches(g, w, a, b)
  {
    var p :| Path(g, w', p) && p[0] == a && p[|p| - 1] == b;
    SamePath(g, w', w, p);
  }

  /** Merging a child into a file only brings names the file could reach anyway. */
  lemma AfterChildAddsNothing(g: Graph, w: World, file: File, i: nat)
    requires g.Valid() && w.Valid(g) && file < |g.lists| && i < |g.lists[file]| && !w.merged[file][i]
    ensures NoNewNames(g, w, AfterChild(g, w, file, i))
  {
    var child, w' := g.lists[file][i], AfterChild(g, w, file, i);
    forall start: File, name: CString | start < |g.lists| && Visible(g, w', start, name)
      ensures Visible(g, w, start, name)
    {
      MergeHolds(w.tables[file], w.tables[child], name);
      if Holds(w'.tables[g.main], name) {
        assert file != g.main;
      } else {
        var h: File :| h < |g.lists| && Reaches(g, w', start, h) && Holds(w'.tables[h], name);
        FewerEdges(g, w, w', start, h);
        if !Holds(w.tables[h], name) {
          assert h == file && Holds(w.tables[child], name);
          ReachTrans(g, w, start, file, i);
        }
      }
    }
  }

  lemma SameNames(g: Graph, w: World, v: World, start: File, name: CString)
    requires g.Valid() && w.Valid(g) && v.Valid(g) && w.tables == v.tables && w.merged == v.merged
    requires Visible(g, w, start, name)
    ensures Visible(g, v, start, name)
  {
    if !Holds(w.tables[g.main], name) {
      var h: File :| h < |g.lists| && Reaches(g, w, start, h) && Holds(w.tables[h], name);
      var p :| Path(g, w, p) && p[0] == start && p[|p| - 1] == h;
      SamePath(g, w, v, p);
      assert Reaches(g, v, start, h);
    }
  }

  /** The marks of files on the search path stay as they are. */
  lemma {:induction false} PathUntouched(g: Graph, w: World, symbol: CString, file: File, f: File)
    requires g.Valid() && w.Valid(g) && file < |g.lists| && f in w.checked && f < |g.lists|
    ensures FDefined(g, w, symbol, file).1.merged[f] == w.merged[f]
    ensures FDefined(g, w, symbol, file).1.tables[f] == w.tables[f]
    decreases g.Files() - w.checked, 0
  {
    if file !in w.checked {
      PathUntouchedBelow(g, w.(checked := w.checked + {file}), symbol, file, 0, f);
    }
  }

  lemma {:induction false} PathUntouchedBelow(g: Graph, w: World, symbol: CString, file: File, i: nat, f: File)
    requires g.Valid() && w.Valid(g) && file < |g.lists| && file in w.checked && i <= |g.lists[file]|
    requires f in w.checked && f < |g.lists| && f != file
    ensures Children(g, w, symbol, file, i).1.merged[f] == w.merged[f]
    ensures Children(g, w, symbol, file, i).1.tables[f] == w.tables[f]
    decreases g.Files() - w.checked, 1 + |g.lists[file]| - i
  {
    if i < |g.lists[file]| {
      if w.merged[file][i] {
        PathUntouchedBelow(g, w, symbol, file, i + 1, f);
      } else {
        var (owner, w1) := FDefined(g, w, symbol, g.lists[file][i]);
        PathUntouched(g, w, symbol, g.lists[file][i], f);
        if owner == None {
          PathUntouchedBelow(g, AfterChild(g, w1, file, i), symbol, file, i + 1, f);
        }
      }
    }
  }

  /** No lookup makes a name visible, from any file, that was not visible before it. */
  lemma {:induction false} LookupAddsNothing(g: Graph, w: World, symbol: CString, file: File)
    requires g.Valid() && w.Valid(g) && file < |g.lists|
    ensures NoNewNames(g, w, FDefined(g, w, symbol, file).1)
    decreases g.Files() - w.checked, 0
  {
    var w' := FDefined(g, w, symbol, file).1;
    if file !in w.checked && !Holds(w.tables[file], symbol) {
      var w1 := w.(checked := w.checked + {file});
      LookupBelowAddsNothing(g, w1, symbol, file, 0);
      var w2 := Children(g, w1, symbol, file, 0).1;
      forall start: File, name: CString | start < |g.lists| && Visible(g, w', start, name)
        ensures Visible(g, w, start, name)
      {
        SameNames(g, w', w2, start, name);
        SameNames(g, w1, w, start, name);
      }
    }
  }

  lemma EdgeStaysOpen(g: Graph, w: World, symbol: CString, file: File, i: nat)
    requires g.Valid() && w.Valid(g) && file < |g.lists| && file in w.checked && i < |g.lists[file]| && !w.merged[file][i]
    ensures var w1 := FDefined(g, w, symbol, g.lists[file][i]).1; w1.Valid(g) && !w1.merged[file][i] && w1.checked == w.checked
  {
    PathUntouched(g, w, symbol, g.lists[file][i], file);
  }

  lemma {:induction false} LookupBelowAddsNothing(g: Graph, w: World, symbol: CString, file: File, i: nat)
    requires g.Valid() && w.Valid(g) && file < |g.lists| && file in w.checked && i <= |g.lists[file]|
    ensures NoNewNames(g, w, Children(g, w, symbol, file, i).1)
    decreases g.Files() - w.checked, 1 + |g.lists[file]| - i
  {
    if i < |g.lists[file]| {
      if w.merged[file][i] {
        LookupBelowAddsNothing(g, w, symbol, file, i + 1);
      } else {
        EdgeStaysOpen(g, w, symbol, file, i);
        var (owner, w1) := FDefined(g, w, symbol, g.lists[file][i]);
        var w2 := AfterChild(g, w1, file, i);
        LookupAddsNothing(g, w, symbol, g.lists[file][i]);
        AfterChildAddsNothing(g, w1, file, i);
        AddsNothingTwice(g, w, w1, w2);
        if owner == None {
          LookupBelowAddsNothing(g, w2, symbol, file, i + 1);
          AddsNothingTwice(g, w, w2, Children(g, w2, symbol, file, i + 1).1);
        }
      }
    }
  }

  lemma AddsNothingTwice(g: Graph, a: World, b: World, c: World)
    requires g.Valid() && a.Valid(g) && b.Valid(g) && c.Valid(g) && NoNewNames(g, a, b) && NoNewNames(g, b, c)
    ensures NoNewNames(g, a, c)
  {
  }

  // ---------- what a lookup keeps ----------

  /** Marks stay set; a new mark is on a FINISHED child whose names the file now has; no mark, no change. */
  ghost predicate Keeps(g: Graph, w: World, w': World, name: CString)
    requires g.Valid() && w.Valid(g) && w'.Valid(g)
  {
    && (forall f :: 0 <= f < |g.lists| && Holds(w.tables[f], name) ==> Holds(w'.tables[f], name))
    && (forall f, i :: 0 <= f < |g.lists| && 0 <= i < |g.lists[f]| && w.merged[f][i] ==> w'.merged[f][i])
    && (forall f, i :: 0 <= f < |g.lists| && 0 <= i < |g.lists[f]| && w'.merged[f][i] && !w.merged[f][i] ==>
          g.lists[f][i] in g.finished && (Holds(w.tables[g.lists[f][i]], name) ==> Holds(w'.tables[f], name)))
    && (w'.merged == w.merged ==> w'.tables == w.tables)
  }

  lemma KeepsTransitive(g: Graph, w: World, v: World, u: World, name: CString)
    requires g.Valid() && w.Valid(g) && v.Valid(g) && u.Valid(g)
    requires Keeps(g, w, v, name) && Keeps(g, v, u, name)
    ensures Keeps(g, w, u, name)
  {
    if u.merged == w.merged {
      forall f | 0 <= f < |g.lists| ensures v.merged[f] == w.merged[f] {
        forall i | 0 <= i < |g.lists[f]| ensures v.merged[f][i] == w.merged[f][i] {
          assert u.merged[f][i] == w.merged[f][i];
        }
      }
      assert v.merged == w.merged;
    }
  }

  lemma AfterChildKeeps(g: Graph, w: World, file: File, i: nat, name: CString)
    requires g.Valid() && w.Valid(g) && file < |g.lists| && i < |g.lists[file]| && !w.merged[file][i]
    ensures Keeps(g, w, AfterChild(g, w, file, i), name)
  {
    MergeHolds(w.tables[file], w.tables[g.lists[file][i]], name);
    var w' := AfterChild(g, w, file, i);
    assert w' != w ==> w'.merged[file][i] != w.merged[file][i];
  }

  lemma {:induction false} LookupKeeps(g: Graph, w: World, symbol: CString, file: File, name: CString)
    requires g.Valid() && w.Valid(g) && file < |g.lists|
    ensures Keeps(g, w, FDefined(g, w, symbol, file).1, name)
    decreases g.Files() - w.checked, 0
  {
    if file !in w.checked && !Holds(w.tables[file], symbol) {
      LookupBelowKeeps(g, w.(checked := w.checked + {file}), symbol, file, 0, name);
    }
  }

  lemma {:induction false} LookupBelowKeeps(g: Graph, w: World, symbol: CString, file: File, i: nat, name: CString)
    requires g.Valid() && w.Valid(g) && file < |g.lists| && file in w.checked && i <= |g.lists[file]|
    ensures Keeps(g, w, Children(g, w, symbol, file, i).1, name)
    decreases g.Files() - w.checked, 1 + |g.lists[file]| - i
  {
    if i < |g.lists[file]| {
      if w.merged[file][i] {
        LookupBelowKeeps(g, w, symbol, file, i + 1, name);
      } else {
        var (owner, w1) := FDefined(g, w, symbol, g.lists[file][i]);
        var w2 := AfterChild(g, w1, file, i);
        LookupKeeps(g, w, symbol, g.lists[file][i], name);
        PathUntouched(g, w, symbol, g.lists[file][i], file);
        AfterChildKeeps(g, w1, file, i, name);
        KeepsTransitive(g, w, w1, w2, name);
        if owner == None {
          LookupBelowKeeps(g, w2, symbol, file, i + 1, name);
          KeepsTransitive(g, w, w2, Children(g, w2, symbol, file, i + 1).1, name);
        }
      }
    }
  }

  // ---------- undefine ----------

  ghost function OpenEdges(g: Graph, w: World): set<(File, nat)>
    requires g.Valid() && w.Valid(g)
  {
    set f: File, i: nat | f < |g.lists| && i < |g.lists[f]| && !w.merged[f][i] :: (f, i)
  }

  ghost function Holders(w: World, symbol: CString): set<File> {
    set f: File {:trigger w.tables[f]} | f < |w.tables| && Holds(w.tables[f], symbol)
  }

  ghost function SlotOf(t: Table, symbol: CString): nat
    requires Holds(t, symbol)
    ensures SlotOf(t, symbol) < |t| && t[SlotOf(t, symbol)].name == symbol
  {
    var i :| 0 <= i < |t| && t[i].name == symbol; i
  }

  /** The world after undefine took the entry for `symbol` out of a file's table. */
  ghost function Remove(g: Graph, w: World, owner: File, symbol: CString): (w': World)
    requires g.Valid() && w.Valid(g) && owner < |g.lists| && Holds(w.tables[owner], symbol)
    ensures w'.Valid(g)
  {
    var t := w.tables[owner];
    var slot := SlotOf(t, symbol);
    assert Sorted(t[..slot] + t[slot + 1..]) by { SortedRemove(t, slot); }
    w.(tables := w.tables[owner := t[..slot] + t[slot + 1..]])
  }

  lemma RemoveHolds(t: Table, slot: nat, name: CString)
    requires Sorted(t) && slot < |t|
    ensures Holds(t[..slot] + t[slot + 1..], name) <==> Holds(t, name) && name != t[slot].name
  {
    var u := t[..slot] + t[slot + 1..];
    if Holds(t, name) && name != t[slot].name {
      var i :| 0 <= i < |t| && t[i].name == name;
      assert u[if i < slot then i else i - 1].name == name;
    }
    if Holds(u, name) {
      var i :| 0 <= i < |u| && u[i].name == name;
      var k := if i < slot then i else i + 1;
      assert t[k].name == name;
      LessTotal(t[k].name, t[slot].name);
    }
  }

  /** Each round of undefine either merges an edge or leaves one table fewer with the symbol. */
  lemma UndefineProgress(g: Graph, w: World, symbol: CString, file: File)
    requires g.Valid() && w.Valid(g) && file < |g.lists| && w.checked == {}
    requires IsDefined(g, w, symbol, file).0.Some?
    ensures var (owner, w1) := IsDefined(g, w, symbol, file);
            && Holds(w1.tables[owner.value], symbol)
            && OpenEdges(g, w1) <= OpenEdges(g, w)
            && (OpenEdges(g, w1) == OpenEdges(g, w) ==> Holders(Remove(g, w1, owner.value, symbol), symbol) < Holders(w, symbol))
  {
    var (owner, w1) := IsDefined(g, w, symbol, file);
    IsDefinedIffVisible(g, w, symbol, file);
    LookupKeeps(g, w, symbol, file, symbol);
    if OpenEdges(g, w1) == OpenEdges(g, w) {
      forall f, i | 0 <= f < |g.lists| && 0 <= i < |g.lists[f]| ensures w1.merged[f][i] == w.merged[f][i] {
        assert (f, i) in OpenEdges(g, w1) <==> (f, i) in OpenEdges(g, w);
      }
      assert forall f :: 0 <= f < |g.lists| ==> w1.merged[f] == w.merged[f];
      assert w1.merged == w.merged;
      RemoveHolds(w1.tables[owner.value], SlotOf(w1.tables[owner.value], symbol), symbol);
      assert owner.value in Holders(w, symbol);
    }
  }

  /** undefine: look the symbol up and remove it where it was found, until a lookup misses. */
  ghost function Undefine(g: Graph, w: World, symbol: CString, file: File): (w': World)
    requires g.Valid() && w.Valid(g) && file < |g.lists| && w.checked == {}
    ensures w'.Valid(g) && w'.checked == {}
    decreases OpenEdges(g, w), Holders(w, symbol)
  {
    var (owner, w1) := IsDefined(g, w, symbol, file);
    if owner == None then w1
    else
      UndefineProgress(g, w, symbol, file);
      Undefine(g, RemoveStep(g, w1, owner.value, symbol), symbol, file)
  }

  ghost function RemoveStep(g: Graph, w: World, owner: File, symbol: CString): (w': World)
    requires g.Valid() && w.Valid(g) && owner < |g.lists| && Holds(w.tables[owner], symbol)
    ensures w'.Valid(g) && w'.checked == w.checked && OpenEdges(g, w') == OpenEdges(g, w)
    ensures w' == Remove(g, w, owner, symbol)
  {
    Remove(g, w, owner, symbol)
  }

  /** After undefine the symbol is not visible from the file. */
  lemma {:induction false} UndefineHides(g: Graph, w: World, symbol: CString, file: File)
    requires g.Valid() && w.Valid(g) && file < |g.lists| && w.checked == {}
    ensures !Visible(g, Undefine(g, w, symbol, file), file, symbol)
    decreases OpenEdges(g, w), Holders(w, symbol)
  {
    var (owner, w1) := IsDefined(g, w, symbol, file);
    IsDefinedIffVisible(g, w, symbol, file);
    if owner == None {
      LookupAddsNothing(g, w, symbol, file);
    } else {
      UndefineProgress(g, w, symbol, file);
      UndefineHides(g, RemoveStep(g, w1, owner.value, symbol), symbol, file);
    }
  }

  /** undefine takes no entry for another name out of any table. */
  lemma {:induction false} UndefineKeepsOthers(g: Graph, w: World, symbol: CString, file: File, f: File, name: CString)
    requires g.Valid() && w.Valid(g) && file < |g.lists| && w.checked == {}
    requires f < |g.lists| && name != symbol && Holds(w.tables[f], name)
    ensures Holds(Undefine(g, w, symbol, file).tables[f], name)
    decreases OpenEdges(g, w), Holders(w, symbol)
  {
    var (owner, w1) := IsDefined(g, w, symbol, file);
    LookupKeeps(g, w, symbol, file, name);
    if owner.Some? {
      UndefineProgress(g, w, symbol, file);
      RemoveHolds(w1.tables[owner.value], SlotOf(w1.tables[owner.value], symbol), name);
      UndefineKeepsOthers(g, RemoveStep(g, w1, owner.value, symbol), symbol, file, f, name);
    }
  }

  // ---------- undefine adds no names ----------

  lemma RemoveAddsNothing(g: Graph, w: World, owner: File, symbol: CString)
    requires g.Valid() && w.Valid(g) && owner < |g.lists| && Holds(w.tables[owner], symbol)
    ensures NoNewNames(g, w, Remove(g, w, owner, symbol))
  {
    var w' := Remove(g, w, owner, symbol);
    forall start: File, name: CString | start < |g.lists| && Visible(g, w', start, name)
      ensures Visible(g, w, start, name)
    {
      RemoveHolds(w.tables[owner], SlotOf(w.tables[owner], symbol), name);
      if !Holds(w'.tables[g.main], name) {
        var h: File :| h < |g.lists| && Reaches(g, w', start, h) && Holds(w'.tables[h], name);
        FewerEdges(g, w, w', start, h);
      }
    }
  }

  lemma {:induction false} UndefineAddsNothing(g: Graph, w: World, symbol: CString, file: File)
    requires g.Valid() && w.Valid(g) && file < |g.lists| && w.checked == {}
    ensures NoNewNames(g, w, Undefine(g, w, symbol, file))
    decreases OpenEdges(g, w), Holders(w, symbol)
  {
    var (owner, w1) := IsDefined(g, w, symbol, file);
    LookupAddsNothing(g, w, symbol, file);
    if owner.Some? {
      UndefineProgress(g, w, symbol, file);
      var w2 := RemoveStep(g, w1, owner.value, symbol);
      RemoveAddsNothing(g, w1, owner.value, symbol);
      UndefineAddsNothing(g, w2, symbol, file);
    }
  }
}
