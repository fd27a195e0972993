/**
 When looking up one name gives another name a different value, while a command-line file is read whose headers include
 nothing.  A lookup merges the FINISHED headers it passes, in order, and each merged entry takes the place of
 those before it.
 */
module Flips {
  import opened CStrings
  import opened SymbolTable
  import opened LookupSpec
  import opened Visibility
  import opened Hiding
  import opened Including
  import opened Defining
  import opened Answers
  import opened Runs
  import opened FlatGraph
  import opened Wrappers

  /** How many of the root's children a lookup has passed when it is over, from the i-th on. */
  ghost function Stop(g: Graph, w: World, symbol: CString, root: File, i: nat): (n: nat)
    requires g.Valid() && w.Valid(g) && root < |g.lists| && i <= |g.lists[root]|
    ensures i <= n <= |g.lists[root]|
    decreases |g.lists[root]| - i
  {
    if i == |g.lists[root]| then i
    else if !w.merged[root][i] && Holds(w.tables[g.lists[root][i]], symbol) then i + 1
    else Stop(g, w, symbol, root, i + 1)
  }

  /** Behind an open edge, FINISHED, and with an entry for the name. */
  ghost predicate Brought(g: Graph, w: World, root: File, k: nat, name: CString)
    requires g.Valid() && w.Valid(g) && root < |g.lists| && k < |g.lists[root]|
  {
    !w.merged[root][k] && g.lists[root][k] in g.finished && Holds(w.tables[g.lists[root][k]], name)
  }

  /** The last such child from the i-th to before the n-th. */
  ghost function Last(g: Graph, w: World, root: File, i: nat, n: nat, name: CString): (k: Option<nat>)
    requires g.Valid() && w.Valid(g) && root < |g.lists| && i <= n <= |g.lists[root]|
    ensures k.Some? ==> i <= k.value < n && Brought(g, w, root, k.value, name)
    ensures k == None ==> forall j :: i <= j < n ==> !Brought(g, w, root, j, name)
    decreases n - i
  {
    if i == n then None
    else
      var k := Last(g, w, root, i + 1, n, name);
      if k == None && Brought(g, w, root, i, name) then Some(i) else k
  }

  /** All that counts from the i-th child on is as it was in `v`. */
  ghost predicate Ahead(g: Graph, v: World, w: World, root: File, i: nat)
    requires g.Valid() && v.Valid(g) && w.Valid(g) && root < |g.lists| && i <= |g.lists[root]|
  {
    && w.checked == {root} && (forall f: File :: f < |g.lists| && f != root ==> w.tables[f] == v.tables[f])
    && (forall k :: i <= k < |g.lists[root]| ==> w.merged[root][k] == v.merged[root][k])
    && forall k :: 0 <= k < |g.lists[root]| ==> g.lists[root][k] != root && g.lists[g.lists[root][k]] == []
  }

  ghost function EntryAfter(g: Graph, v: World, w: World, root: File, last: Option<nat>, name: CString): Symtab?
    requires g.Valid() && v.Valid(g) && w.Valid(g) && root < |g.lists| && (last.Some? ==> last.value < |g.lists[root]|)
  {
    if last.Some? then Lookup(v.tables[g.lists[root][last.value]], name) else Lookup(w.tables[root], name)
  }

  lemma AheadNext(g: Graph, v: World, w: World, root: File, i: nat)
    requires g.Valid() && v.Valid(g) && w.Valid(g) && root < |g.lists| && i < |g.lists[root]| && Ahead(g, v, w, root, i)
    ensures Ahead(g, v, AfterChild(g, w, root, i), root, i + 1)
  {
  }

  lemma EntryMerged(g: Graph, v: World, w: World, root: File, i: nat, name: CString)
    requires g.Valid() && v.Valid(g) && w.Valid(g) && root < |g.lists| && i < |g.lists[root]| && Ahead(g, v, w, root, i)
    requires !v.merged[root][i]
    ensures Lookup(AfterChild(g, w, root, i).tables[root], name)
            == if Brought(g, v, root, i, name) then Lookup(v.tables[g.lists[root][i]], name) else Lookup(w.tables[root], name)
  {
    var child := g.lists[root][i];
    MergeMeaning(w.tables[root], w.tables[child], name);
    LookupHolds(w.tables[child], name);
  }

  /** The root's table afterwards: the last entry brought counts. */
  lemma {:induction false} TableAfter(g: Graph, v: World, w: World, symbol: CString, root: File, i: nat, name: CString)
    requires g.Valid() && v.Valid(g) && w.Valid(g) && root < |g.lists| && i <= |g.lists[root]| && Ahead(g, v, w, root, i)
    ensures Lookup(Children(g, w, symbol, root, i).1.tables[root], name)
            == EntryAfter(g, v, w, root, Last(g, v, root, i, Stop(g, v, symbol, root, i), name), name)
    decreases |g.lists[root]| - i
  {
    if i < |g.lists[root]| {
      if w.merged[root][i] {
        TableAfter(g, v, w, symbol, root, i + 1, name);
      } else {
        TableOpen(g, v, w, symbol, root, i, name);
      }
    }
  }

  lemma {:induction false} TableOpen(g: Graph, v: World, w: World, symbol: CString, root: File, i: nat, name: CString)
    requires g.Valid() && v.Valid(g) && w.Valid(g) && root < |g.lists| && i < |g.lists[root]| && Ahead(g, v, w, root, i)
    requires !w.merged[root][i]
    ensures Lookup(Children(g, w, symbol, root, i).1.tables[root], name)
            == EntryAfter(g, v, w, root, Last(g, v, root, i, Stop(g, v, symbol, root, i), name), name)
    decreases |g.lists[root]| - i, 0
  {
    var w2 := AfterChild(g, w, root, i);
    EntryMerged(g, v, w, root, i, name);
    LeafFound(g, w, symbol, root, i);
    if !Holds(v.tables[g.lists[root][i]], symbol) {
      AheadNext(g, v, w, root, i);
      TableAfter(g, v, w2, symbol, root, i + 1, name);
      assert Children(g, w, symbol, root, i) == Children(g, w2, symbol, root, i + 1);
    } else {
      assert Stop(g, v, symbol, root, i) == i + 1 && Last(g, v, root, i + 1, i + 1, name) == None;
      assert Children(g, w, symbol, root, i).1 == w2;
    }
  }

  /** What the loop does with a child that includes nothing. */
  lemma LeafFound(g: Graph, w: World, symbol: CString, root: File, i: nat)
    requires g.Valid() && w.Valid(g) && root < |g.lists| && i < |g.lists[root]| && w.checked == {root} && !w.merged[root][i]
    requires g.lists[root][i] != root && g.lists[g.lists[root][i]] == []
    ensures var w2, child := AfterChild(g, w, root, i), g.lists[root][i];
            Children(g, w, symbol, root, i) == if Holds(w.tables[child], symbol)
                then (Some(child), w2) else Children(g, w2, symbol, root, i + 1)
  {
    LeafLookup(g, w, symbol, g.lists[root][i]);
  }

  /** The root's marks afterwards. */
  lemma {:induction false} MarksAfter(g: Graph, v: World, w: World, symbol: CString, root: File, i: nat, k: nat)
    requires g.Valid() && v.Valid(g) && w.Valid(g) && root < |g.lists| && i <= |g.lists[root]| && Ahead(g, v, w, root, i)
    requires k < |g.lists[root]|
    ensures Children(g, w, symbol, root, i).1.merged[root][k]
            <==> w.merged[root][k] || (i <= k < Stop(g, v, symbol, root, i) && g.lists[root][k] in g.finished)
    decreases |g.lists[root]| - i
  {
    if i < |g.lists[root]| {
      if w.merged[root][i] {
        MarksAfter(g, v, w, symbol, root, i + 1, k);
      } else {
        var child := g.lists[root][i];
        LeafLookup(g, w, symbol, child);
        if !Holds(v.tables[child], symbol) {
          AheadNext(g, v, w, root, i);
          MarksAfter(g, v, AfterChild(g, w, root, i), symbol, root, i + 1, k);
        }
      }
    }
  }

  /** Where no child has brought the name it is still answered for by the same one. */
  lemma {:induction false} FirstAfter(g: Graph, v: World, w: World, root: File, n: nat, i: nat, name: CString)
    requires g.Valid() && v.Valid(g) && w.Valid(g) && root < |g.lists| && i <= |g.lists[root]| && n <= |g.lists[root]|
    requires forall f: File :: f < |g.lists| && f != root ==> w.tables[f] == v.tables[f]
    requires forall k :: 0 <= k < |g.lists[root]| ==> g.lists[root][k] != root && g.lists[g.lists[root][k]] == []
    requires forall k :: 0 <= k < |g.lists[root]| ==>
            (w.merged[root][k] <==> v.merged[root][k] || (k < n && g.lists[root][k] in g.finished))
    requires forall k :: 0 <= k < n ==> !Brought(g, v, root, k, name)
    ensures FirstBelow(g, w, {root}, name, root, i) == FirstBelow(g, v, {root}, name, root, i)
    decreases |g.lists[root]| - i
  {
    if i < |g.lists[root]| {
      FirstAfter(g, v, w, root, n, i + 1, name);
      if !v.merged[root][i] {
        var child := g.lists[root][i];
        assert First(g, v, {root}, name, child) == if Holds(v.tables[child], name) then Some(child) else None;
        assert w.merged[root][i] ==> !Brought(g, v, root, i, name);
        assert First(g, w, {root}, name, child) == if Holds(v.tables[child], name) then Some(child) else None;
      }
    }
  }

  /** The children that a lookup of `symbol` from the root passes. */
  ghost function Passes(s: State, root: File, symbol: CString): (n: nat)
    requires s.Ok() && root < |s.g.lists|
    ensures n <= |s.g.lists[root]|
  {
    if Holds(s.w.tables[s.g.main], symbol) || Holds(s.w.tables[root], symbol) then 0 else Stop(s.g, s.w, symbol, root, 0)
  }

  /** The child whose entry for `name` counts after a lookup of `symbol`, if that brought any. */
  ghost function Winner(s: State, root: File, symbol: CString, name: CString): (k: Option<nat>)
    requires s.Ok() && root < |s.g.lists|
    ensures k.Some? ==> k.value < |s.g.lists[root]|
  {
    Last(s.g, s.w, root, 0, Passes(s, root, symbol), name)
  }

  ghost function Cell(s: State, root: File, name: CString): Symtab?
    requires s.Ok() && root < |s.g.lists|
  {
    SeenCell(s.g, s.w, root, name)
  }

  /** What is answered for a name after a lookup of any. */
  lemma CellAfter(s: State, root: File, leaves: set<File>, symbol: CString, name: CString)
    requires Flat(s, root, leaves)
    ensures Cell(Perform(s, Look(symbol, root)), root, name)
            == if Holds(s.w.tables[s.g.main], name) || Winner(s, root, symbol, name) == None then Cell(s, root, name)
               else Lookup(s.w.tables[s.g.lists[root][Winner(s, root, symbol, name).value]], name)
  {
    var t := Perform(s, Look(symbol, root));
    LookFlat(s, root, leaves, symbol);
    if Passes(s, root, symbol) == 0 && t.w == s.w {
    } else if Holds(s.w.tables[s.g.main], name) {
    } else {
      CellBelow(s, root, leaves, symbol, name);
    }
  }

  lemma CellBelow(s: State, root: File, leaves: set<File>, symbol: CString, name: CString)
    requires Flat(s, root, leaves) && !Holds(s.w.tables[s.g.main], name)
    requires !Holds(s.w.tables[s.g.main], symbol) && !Holds(s.w.tables[root], symbol)
    ensures Cell(Perform(s, Look(symbol, root)), root, name)
            == if Winner(s, root, symbol, name) == None then Cell(s, root, name)
               else Lookup(s.w.tables[s.g.lists[root][Winner(s, root, symbol, name).value]], name)
  {
    var t := Perform(s, Look(symbol, root));
    var w1 := s.w.(checked := {root});
    LookFlat(s, root, leaves, symbol);
    assert s.w.(checked := s.w.checked + {root}) == w1;
    TableAfter(s.g, s.w, w1, symbol, root, 0, name);
    LookupHolds(t.w.tables[root], name);
    LookupHolds(s.w.tables[root], name);
    AnswersFirst(s.g, s.w, name, root);
    AnswersFirst(s.g, t.w, name, root);
    var winner := Winner(s, root, symbol, name);
    if winner.Some? {
      LookupHolds(s.w.tables[s.g.lists[root][winner.value]], name);
    } else {
      forall k | 0 <= k < |s.g.lists[root]|
        ensures t.w.merged[root][k] <==> s.w.merged[root][k] || (k < Passes(s, root, symbol) && s.g.lists[root][k] in s.g.finished)
      {
        MarksAfter(s.g, s.w, w1, symbol, root, 0, k);
      }
      FirstAfter(s.g, s.w, t.w, root, Passes(s, root, symbol), 0, name);
      if !Holds(s.w.tables[root], name) && First(s.g, s.w, {}, name, root).Some? { OtherOwner(s, root, leaves, name); }
    }
  }

  lemma OtherOwner(s: State, root: File, leaves: set<File>, name: CString)
    requires Flat(s, root, leaves) && !Holds(s.w.tables[root], name) && First(s.g, s.w, {}, name, root).Some?
    ensures First(s.g, s.w, {}, name, root).value != root
  {
  }

  /**
   Exactly when a lookup changes the answer for a name that is not on the command line: when the last FINISHED header with
   an entry for it among those the lookup merges has another cell than the one that counted before.
   */
  lemma LookChangesIff(s: State, root: File, leaves: set<File>, symbol: CString, name: CString)
    requires Flat(s, root, leaves)
    ensures var winner := Winner(s, root, symbol, name);
            Cell(Perform(s, Look(symbol, root)), root, name) != Cell(s, root, name)
            <==> !Holds(s.w.tables[s.g.main], name) && winner.Some?
                 && Lookup(s.w.tables[s.g.lists[root][winner.value]], name) != Cell(s, root, name)
  {
    CellAfter(s, root, leaves, symbol, name);
  }

  /** A lookup in vain passes all children. */
  lemma MissPassesAll(s: State, root: File, leaves: set<File>, symbol: CString)
    requires Flat(s, root, leaves) && !Sees(s, root, symbol)
    ensures Passes(s, root, symbol) == |s.g.lists[root]|
  {
    FlatSees(s, root, leaves, symbol);
    assert InView(s, root, root) && InView(s, root, s.g.main);
    MissPassesFrom(s, root, leaves, symbol, 0);
  }

  lemma {:induction false} MissPassesFrom(s: State, root: File, leaves: set<File>, symbol: CString, i: nat)
    requires Flat(s, root, leaves) && i <= |s.g.lists[root]|
    requires forall f: File :: f < |s.g.lists| && InView(s, root, f) ==> !Holds(s.w.tables[f], symbol)
    ensures Stop(s.g, s.w, symbol, root, i) == |s.g.lists[root]|
    decreases |s.g.lists[root]| - i
  {
    if i < |s.g.lists[root]| {
      assert !s.w.merged[root][i] ==> Open(s.g, s.w, root, s.g.lists[root][i]);
      MissPassesFrom(s, root, leaves, symbol, i + 1);
    }
  }

  /** So a lookup in vain changes the answer exactly when the last FINISHED header merged has another cell than the first holder. */
  lemma MissChangesIff(s: State, root: File, leaves: set<File>, symbol: CString, name: CString)
    requires Flat(s, root, leaves) && !Sees(s, root, symbol) && !Holds(s.w.tables[s.g.main], name)
    ensures var last := Last(s.g, s.w, root, 0, |s.g.lists[root]|, name);
            Cell(Perform(s, Look(symbol, root)), root, name) != Cell(s, root, name)
            <==> last.Some? && Lookup(s.w.tables[s.g.lists[root][last.value]], name) != Cell(s, root, name)
  {
    LookChangesIff(s, root, leaves, symbol, name);
    MissPassesAll(s, root, leaves, symbol);
  }
}
