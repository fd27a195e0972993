/**
 Which of several definitions of one name a lookup answers with, and when a merge puts another in its place.
 */
module Answers {
  import opened CStrings
  import opened SymbolTable
  import opened LookupSpec
  import opened Visibility
  import opened Wrappers

  // ---------- the first holder ----------

  /** A search along open edges that changes nothing; `path` are the files it is in the middle of. */
  ghost function First(g: Graph, w: World, path: set<File>, symbol: CString, file: File): (owner: Option<File>)
    requires g.Valid() && w.Valid(g) && file < |g.lists| && path <= g.Files()
    ensures owner.Some? ==> owner.value < |g.lists| && Holds(w.tables[owner.value], symbol)
    decreases g.Files() - path, 0
  {
    if file in path then None
    else if Holds(w.tables[file], symbol) then Some(file)
    else FirstBelow(g, w, path + {file}, symbol, file, 0)
  }

  ghost function FirstBelow(g: Graph, w: World, path: set<File>, symbol: CString, file: File, i: nat): (owner: Option<File>)
    requires g.Valid() && w.Valid(g) && file < |g.lists| && path <= g.Files() && file in path && i <= |g.lists[file]|
    ensures owner.Some? ==> owner.value < |g.lists| && Holds(w.tables[owner.value], symbol)
    decreases g.Files() - path, 1 + |g.lists[file]| - i
  {
    if i == |g.lists[file]| then None
    else if w.merged[file][i] then FirstBelow(g, w, path, symbol, file, i + 1)
    else
      var owner := First(g, w, path, symbol, g.lists[file][i]);
      if owner.Some? then owner else FirstBelow(g, w, path, symbol, file, i + 1)
  }

  /** The symbol is not in `seen` nor on the path, and open edges from `seen` lead to itself or to the path. */
  ghost predicate Barren(g: Graph, w: World, path: set<File>, symbol: CString, seen: set<File>)
    requires g.Valid() && w.Valid(g)
  {
    && (forall f :: f in seen ==> f < |g.lists| && !Holds(w.tables[f], symbol))
    && forall a, b :: a in seen && Open(g, w, a, b) ==> b in seen || b in path
  }

  lemma {:induction false} NoneInside(g: Graph, w: World, base: set<File>, path: set<File>, symbol: CString, seen: set<File>, x: File)
    requires g.Valid() && w.Valid(g) && base <= path <= g.Files() && Barren(g, w, base, symbol, seen) && x in seen
    ensures First(g, w, path, symbol, x) == None
    decreases g.Files() - path, 0
  {
    if x !in path { NoneBelow(g, w, base, path + {x}, symbol, seen, x, 0); }
  }

  lemma {:induction false} NoneBelow(g: Graph, w: World, base: set<File>, path: set<File>, symbol: CString,
                                     seen: set<File>, x: File, i: nat)
    requires g.Valid() && w.Valid(g) && base <= path <= g.Files() && Barren(g, w, base, symbol, seen) && x in seen
    requires x in path && i <= |g.lists[x]|
    ensures FirstBelow(g, w, path, symbol, x, i) == None
    decreases g.Files() - path, 1 + |g.lists[x]| - i
  {
    if i < |g.lists[x]| {
      if !w.merged[x][i] {
        var c := g.lists[x][i];
        assert Open(g, w, x, c);
        if c !in path { NoneInside(g, w, base, path, symbol, seen, c); }
      }
      NoneBelow(g, w, base, path, symbol, seen, x, i + 1);
    }
  }

  /** What changed lies in files that are barren before and after, or on the path. */
  ghost predicate Aside(g: Graph, w: World, v: World, base: set<File>, symbol: CString, seen: set<File>)
    requires g.Valid() && w.Valid(g) && v.Valid(g)
  {
    && Barren(g, w, base, symbol, seen) && Barren(g, v, base, symbol, seen)
    && forall f: File :: f < |g.lists| && f !in seen && f !in base ==> v.tables[f] == w.tables[f] && v.merged[f] == w.merged[f]
  }

  lemma {:induction false} SameFirst(g: Graph, w: World, v: World, base: set<File>, path: set<File>, symbol: CString,
                                     seen: set<File>, x: File)
    requires g.Valid() && w.Valid(g) && v.Valid(g) && base <= path <= g.Files() && Aside(g, w, v, base, symbol, seen) && x < |g.lists|
    ensures First(g, v, path, symbol, x) == First(g, w, path, symbol, x)
    decreases g.Files() - path, 0
  {
    if x in seen {
      NoneInside(g, w, base, path, symbol, seen, x);
      NoneInside(g, v, base, path, symbol, seen, x);
    } else if x !in path && !Holds(w.tables[x], symbol) {
      SameBelow(g, w, v, base, path + {x}, symbol, seen, x, 0);
    }
  }

  lemma {:induction false} SameBelow(g: Graph, w: World, v: World, base: set<File>, path: set<File>, symbol: CString, seen: set<File>,
                                     x: File, i: nat)
    requires g.Valid() && w.Valid(g) && v.Valid(g) && base <= path <= g.Files() && Aside(g, w, v, base, symbol, seen)
    requires x < |g.lists| && x in path && i <= |g.lists[x]| && forall k :: i <= k < |g.lists[x]| ==> v.merged[x][k] == w.merged[x][k]
    ensures FirstBelow(g, v, path, symbol, x, i) == FirstBelow(g, w, path, symbol, x, i)
    decreases g.Files() - path, 1 + |g.lists[x]| - i
  {
    if i < |g.lists[x]| {
      if !w.merged[x][i] { SameFirst(g, w, v, base, path, symbol, seen, g.lists[x][i]); }
      SameBelow(g, w, v, base, path, symbol, seen, x, i + 1);
    }
  }

  ghost function Bare(w: World): World { w.(checked := {}) }

  /** However many tables it merges, a search finds the owner that one that merges nothing would find. */
  lemma {:induction false} OwnerIsFirst(g: Graph, w: World, symbol: CString, file: File)
    requires g.Valid() && w.Valid(g) && file < |g.lists| && Clean(w, w.checked, symbol)
    ensures FDefined(g, w, symbol, file).0 == First(g, Bare(w), w.checked, symbol, file)
    decreases g.Files() - w.checked, 0
  {
    if file !in w.checked && !Holds(w.tables[file], symbol) {
      var w1 := w.(checked := w.checked + {file});
      assert Bare(w1) == Bare(w);
      OwnerBelow(g, w1, symbol, file, 0);
    }
  }

  lemma {:induction false} OwnerBelow(g: Graph, w: World, symbol: CString, file: File, i: nat)
    requires g.Valid() && w.Valid(g) && file < |g.lists| && file in w.checked && i <= |g.lists[file]| && Clean(w, w.checked, symbol)
    ensures Children(g, w, symbol, file, i).0 == FirstBelow(g, Bare(w), w.checked, symbol, file, i)
    decreases g.Files() - w.checked, 1 + |g.lists[file]| - i
  {
    if i < |g.lists[file]| {
      if w.merged[file][i] {
        OwnerBelow(g, w, symbol, file, i + 1);
      } else {
        OwnerIsFirst(g, w, symbol, g.lists[file][i]);
        if FDefined(g, w, symbol, g.lists[file][i]).0 == None { OwnerBehind(g, w, symbol, file, i); }
      }
    }
  }

  /** The i-th child was searched in vain; what its search changed makes no difference to the rest. */
  lemma OwnerBehind(g: Graph, w: World, symbol: CString, file: File, i: nat)
    requires g.Valid() && w.Valid(g) && file < |g.lists| && file in w.checked && i < |g.lists[file]| && !w.merged[file][i]
    requires Clean(w, w.checked, symbol) && FDefined(g, w, symbol, g.lists[file][i]).0 == None
    ensures Children(g, w, symbol, file, i).0 == FirstBelow(g, Bare(w), w.checked, symbol, file, i + 1)
    decreases g.Files() - w.checked, 1 + |g.lists[file]| - i, 0
  {
    var child := g.lists[file][i];
    var w1 := FDefined(g, w, symbol, child).1;
    var w2 := AfterChild(g, w1, file, i);
    MissLeavesAside(g, w, symbol, file, i);
    OwnerBelow(g, w2, symbol, file, i + 1);
    SameBelow(g, Bare(w), Bare(w2), w.checked, w.checked, symbol, Visited(g, w, symbol, child), file, i + 1);
  }

  lemma MissLeavesAside(g: Graph, w: World, symbol: CString, file: File, i: nat)
    requires g.Valid() && w.Valid(g) && file < |g.lists| && file in w.checked && i < |g.lists[file]| && !w.merged[file][i]
    requires Clean(w, w.checked, symbol) && FDefined(g, w, symbol, g.lists[file][i]).0 == None
    ensures var w2 := AfterChild(g, FDefined(g, w, symbol, g.lists[file][i]).1, file, i);
            && Aside(g, Bare(w), Bare(w2), w.checked, symbol, Visited(g, w, symbol, g.lists[file][i]))
            && Clean(w2, w2.checked, symbol) && w2.checked == w.checked
            && forall k :: i < k < |g.lists[file]| ==> w2.merged[file][k] == w.merged[file][k]
  {
    var child := g.lists[file][i];
    var w1 := FDefined(g, w, symbol, child).1;
    var w2 := AfterChild(g, w1, file, i);
    var seen := Visited(g, w, symbol, child);
    MissExplores(g, w, symbol, child);
    AfterChildStep(g, w1, symbol, file, i);
    ChildLacks(g, w, w1, symbol, child, seen);
    forall a, b | a in seen && Open(g, Bare(w), a, b) ensures b in seen || b in w.checked { assert Open(g, w, a, b); }
    forall a, b | a in seen && Open(g, Bare(w2), a, b) ensures b in seen || b in w.checked {
      var k :| 0 <= k < |g.lists[a]| && !w2.merged[a][k] && g.lists[a][k] == b;
      assert !w.merged[a][k];
      assert Open(g, w, a, b);
    }
  }

  lemma ChildLacks(g: Graph, w: World, w1: World, symbol: CString, child: File, seen: set<File>)
    requires g.Valid() && w.Valid(g) && w1.Valid(g) && child < |g.lists| && Clean(w, w.checked, symbol)
    requires seen == Visited(g, w, symbol, child) && Explored(g, w, symbol, seen) && Grows(g, w, w1, seen) && Clean(w1, seen, symbol)
    ensures !Holds(w1.tables[child], symbol)
  {
  }

  /** isdefined answers with the command line's entry, or else with that of the first holder. */
  lemma AnswersFirst(g: Graph, w: World, symbol: CString, file: File)
    requires g.Valid() && w.Valid(g) && file < |g.lists| && w.checked == {}
    ensures IsDefined(g, w, symbol, file).0
            == if Holds(w.tables[g.main], symbol) then Some(g.main) else First(g, w, {}, symbol, file)
  {
    assert Bare(w) == w;
    OwnerIsFirst(g, w, symbol, file);
  }

  // ---------- the cell ----------

  /** The cell that isdefined answers with. */
  ghost function SeenCell(g: Graph, w: World, file: File, name: CString): Symtab?
    requires g.Valid() && w.Valid(g) && file < |g.lists|
  {
    match IsDefined(g, w, name, file).0
    case None => null
    case Some(owner) => Lookup(w.tables[owner], name)
  }

  /** A name that is not on the command line is answered for by the file itself, if it holds it. */
  lemma OwnCell(g: Graph, w: World, file: File, name: CString)
    requires g.Valid() && w.Valid(g) && file < |g.lists| && w.checked == {} && Holds(w.tables[file], name)
    ensures SeenCell(g, w, file, name) == Lookup(w.tables[if Holds(w.tables[g.main], name) then g.main else file], name)
  {
  }

  /**
   The entry of a merged child takes the place of the file's own: a merge changes the answer for a name that the file
   holds exactly when the child holds it in another cell, unless the command line has it.
   */
  lemma MergeChangesIff(g: Graph, w: World, file: File, i: nat, name: CString)
    requires g.Valid() && w.Valid(g) && file < |g.lists| && w.checked == {} && i < |g.lists[file]| && file != g.main
    requires Holds(w.tables[file], name) && !Holds(w.tables[g.main], name)
    ensures var child := w.tables[g.lists[file][i]];
            SeenCell(g, Absorb(g, w, file, i), file, name) != SeenCell(g, w, file, name)
            <==> Holds(child, name) && Lookup(child, name) != Lookup(w.tables[file], name)
  {
    var a, b := w.tables[file], w.tables[g.lists[file][i]];
    MergeMeaning(a, b, name);
    MergeHolds(a, b, name);
    LookupHolds(b, name);
    OwnCell(g, w, file, name);
    OwnCell(g, Absorb(g, w, file, i), file, name);
  }
}
