/**
 What a lookup through the include graph computes, on values: the tables, the merge
 marks and the DEFCHECKED marks of all files before and after.
 */
module LookupSpec {
  import opened CStrings
  import opened SymbolTable
  import opened Wrappers

  /** A file by its number. */
  type File = nat

  /** What a lookup leaves alone.  `main` is the file that carries the command-line definitions. */
  datatype Graph = Graph(lists: seq<seq<File>>, finished: set<File>, main: File) {
    ghost predicate Valid() {
      && main < |lists| && lists[main] == []
      && forall f, i :: 0 <= f < |lists| && 0 <= i < |lists[f]| ==> lists[f][i] < |lists|
    }

    ghost function Files(): set<File> {
      set f: File {:trigger lists[f]} | f < |lists|
    }
  }

  /** Tables, merge marks, and the files marked DEFCHECKED. */
  datatype World = World(tables: seq<Table>, merged: seq<seq<bool>>, checked: set<File>) {
    ghost predicate Valid(g: Graph) {
      && |tables| == |merged| == |g.lists| && checked <= g.Files()
      && (forall f :: 0 <= f < |g.lists| ==> |merged[f]| == |g.lists[f]|)
      && (forall f :: 0 <= f < |g.lists| ==> Sorted(tables[f]))
    }
  }

  /** merge2defines(file, its i-th child), then the merge mark. */
  ghost function Absorb(g: Graph, w: World, file: File, i: nat): (w': World)
    requires g.Valid() && w.Valid(g) && file < |g.lists| && i < |g.lists[file]|
    ensures w'.Valid(g)
  {
    var merge := Merge(w.tables[file], w.tables[g.lists[file][i]]);
    assert Sorted(merge) by { MergeSorted(w.tables[file], w.tables[g.lists[file][i]]); }
    w.(tables := w.tables[file := merge], merged := w.merged[file := w.merged[file][i := true]])
  }

  /** What the loop of fdefined does with a child it has searched: only FINISHED ones are merged. */
  ghost function AfterChild(g: Graph, w: World, file: File, i: nat): (w': World)
    requires g.Valid() && w.Valid(g) && file < |g.lists| && i < |g.lists[file]|
    ensures w'.Valid(g) && w'.checked == w.checked
  {
    if g.lists[file][i] in g.finished then Absorb(g, w, file, i) else w
  }

  /** fdefined: the file in whose table the symbol was found, if it was. */
  ghost function FDefined(g: Graph, w: World, symbol: CString, file: File): (r: (Option<File>, World))
    requires g.Valid() && w.Valid(g) && file < |g.lists|
    ensures r.1.Valid(g) && r.1.checked == w.checked
    ensures r.0.Some? ==> r.0.value < |g.lists|
    decreases g.Files() - w.checked, 0
  {
    if file in w.checked then (None, w)
    else if Holds(w.tables[file], symbol) then (Some(file), w)
    else
      var r := Children(g, w.(checked := w.checked + {file}), symbol, file, 0);
      (r.0, r.1.(checked := w.checked))
  }

  /** The loop of fdefined from the i-th child on. */
  ghost function Children(g: Graph, w: World, symbol: CString, file: File, i: nat): (r: (Option<File>, World))
    requires g.Valid() && w.Valid(g) && file < |g.lists| && file in w.checked && i <= |g.lists[file]|
    ensures r.1.Valid(g) && r.1.checked == w.checked
    ensures r.0.Some? ==> r.0.value < |g.lists|
    decreases g.Files() - w.checked, 1 + |g.lists[file]| - i
  {
    if i == |g.lists[file]| then (None, w)
    else if w.merged[file][i] then Children(g, w, symbol, file, i + 1)
    else
      var (owner, w1) := FDefined(g, w, symbol, g.lists[file][i]);
      var w2 := AfterChild(g, w1, file, i);
      if owner.Some? then (owner, w2) else Children(g, w2, symbol, file, i + 1)
  }

  /** isdefined: the command line first, then the file and what it includes. */
  ghost function IsDefined(g: Graph, w: World, symbol: CString, file: File): (r: (Option<File>, World))
    requires g.Valid() && w.Valid(g) && file < |g.lists|
    ensures r.1.Valid(g) && r.1.checked == w.checked
    ensures r.0.Some? ==> r.0.value < |g.lists|
  {
    if Holds(w.tables[g.main], symbol) then (Some(g.main), w) else FDefined(g, w, symbol, file)
  }

  // ---------- reachability through edges not yet merged ----------

  ghost predicate Open(g: Graph, w: World, a: File, b: File)
    requires g.Valid() && w.Valid(g)
  {
    a < |g.lists| && exists i :: 0 <= i < |g.lists[a]| && !w.merged[a][i] && g.lists[a][i] == b
  }

  ghost predicate Path(g: Graph, w: World, p: seq<File>)
    requires g.Valid() && w.Valid(g)
  {
    p != [] && forall k :: 0 <= k < |p| - 1 ==> Open(g, w, p[k], p[k + 1])
  }

  ghost predicate Reaches(g: Graph, w: World, a: File, b: File)
    requires g.Valid() && w.Valid(g)
  {
    exists p :: Path(g, w, p) && p[0] == a && p[|p| - 1] == b
  }

  ghost predicate Clean(w: World, s: set<File>, symbol: CString)
    requires forall f :: f in s ==> f < |w.tables|
  {
    forall f :: f in s ==> !Holds(w.tables[f], symbol)
  }

  /** Marks only ever get set and names only ever get added, within `s`. */
  ghost predicate Grows(g: Graph, w: World, w': World, s: set<File>)
    requires g.Valid() && w.Valid(g) && w'.Valid(g)
  {
    && (forall f :: 0 <= f < |g.lists| && f !in s ==> w'.tables[f] == w.tables[f] && w'.merged[f] == w.merged[f])
    && (forall f, i :: 0 <= f < |g.lists| && 0 <= i < |g.lists[f]| && w.merged[f][i] ==> w'.merged[f][i])
  }

  lemma MergeHolds(a: Table, b: Table, name: CString)
    requires Sorted(a) && Sorted(b)
    ensures Holds(Merge(a, b), name) <==> Holds(a, name) || Holds(b, name)
  {
    MergeMeaning(a, b, name);
    LookupHolds(a, name);
    LookupHolds(b, name);
    LookupHolds(Merge(a, b), name);
  }

  lemma AfterChildStep(g: Graph, w: World, symbol: CString, file: File, i: nat)
    requires g.Valid() && w.Valid(g) && file < |g.lists| && i < |g.lists[file]|
    ensures Grows(g, w, AfterChild(g, w, file, i), {file})
    ensures !Holds(w.tables[file], symbol) && !Holds(w.tables[g.lists[file][i]], symbol)
            ==> !Holds(AfterChild(g, w, file, i).tables[file], symbol)
    ensures Holds(w.tables[file], symbol) ==> Holds(AfterChild(g, w, file, i).tables[file], symbol)
    ensures forall k :: 0 <= k < |g.lists[file]| && k != i ==> AfterChild(g, w, file, i).merged[file][k] == w.merged[file][k]
  {
    MergeHolds(w.tables[file], w.tables[g.lists[file][i]], symbol);
  }

  // ---------- a miss ----------

  /** The files whose tables a search that ends in a miss looks at. */
  ghost function Visited(g: Graph, w: World, symbol: CString, file: File): (seen: set<File>)
    requires g.Valid() && w.Valid(g) && file < |g.lists|
    decreases g.Files() - w.checked, 0
  {
    if file in w.checked then {}
    else {file} + VisitedBelow(g, w.(checked := w.checked + {file}), symbol, file, 0)
  }

  ghost function VisitedBelow(g: Graph, w: World, symbol: CString, file: File, i: nat): (seen: set<File>)
    requires g.Valid() && w.Valid(g) && file < |g.lists| && file in w.checked && i <= |g.lists[file]|
    decreases g.Files() - w.checked, 1 + |g.lists[file]| - i
  {
    if i == |g.lists[file]| then {}
    else if w.merged[file][i] then VisitedBelow(g, w, symbol, file, i + 1)
    else
      var w1 := FDefined(g, w, symbol, g.lists[file][i]).1;
      Visited(g, w, symbol, g.lists[file][i]) + VisitedBelow(g, AfterChild(g, w1, file, i), symbol, file, i + 1)
  }

  /** `seen` lacks the symbol, and every edge open at entry leads from it to itself or to the search path. */
  ghost predicate Explored(g: Graph, w: World, symbol: CString, seen: set<File>)
    requires g.Valid() && w.Valid(g)
  {
    && seen <= g.Files() - w.checked && Clean(w, seen, symbol)
    && forall a, b :: a in seen && Open(g, w, a, b) ==> b in seen || b in w.checked
  }

  lemma {:induction false} MissExplores(g: Graph, w: World, symbol: CString, file: File)
    requires g.Valid() && w.Valid(g) && file < |g.lists| && Clean(w, w.checked, symbol)
    requires FDefined(g, w, symbol, file).0 == None
    ensures Explored(g, w, symbol, Visited(g, w, symbol, file))
    ensures Grows(g, w, FDefined(g, w, symbol, file).1, Visited(g, w, symbol, file))
    ensures Clean(FDefined(g, w, symbol, file).1, Visited(g, w, symbol, file), symbol)
    decreases g.Files() - w.checked, 0
  {
    if file !in w.checked {
      var w1 := w.(checked := w.checked + {file});
      MissExploresBelow(g, w1, symbol, file, 0);
      var seen := Visited(g, w, symbol, file);
      forall a, b | a in seen && Open(g, w, a, b) ensures b in seen || b in w.checked {
        assert Open(g, w1, a, b);
        if a == file {
          var i :| 0 <= i < |g.lists[a]| && !w.merged[a][i] && g.lists[a][i] == b;
        }
      }
    }
  }

  lemma {:induction false} MissExploresBelow(g: Graph, w: World, symbol: CString, file: File, i: nat)
    requires g.Valid() && w.Valid(g) && file < |g.lists| && file in w.checked && i <= |g.lists[file]|
    requires Clean(w, w.checked, symbol)
    requires Children(g, w, symbol, file, i).0 == None
    ensures ExploredBelow(g, w, symbol, file, i)
    decreases g.Files() - w.checked, 1 + |g.lists[file]| - i
  {
    if i < |g.lists[file]| {
      if w.merged[file][i] {
        MissExploresBelow(g, w, symbol, file, i + 1);
      } else {
        MissExploresOpen(g, w, symbol, file, i);
      }
    }
  }

  /** What holds after the loop has gone on from the i-th child in vain. */
  ghost predicate ExploredBelow(g: Graph, w: World, symbol: CString, file: File, i: nat)
    requires g.Valid() && w.Valid(g) && file < |g.lists| && file in w.checked && i <= |g.lists[file]|
  {
    var seen, w' := VisitedBelow(g, w, symbol, file, i), Children(g, w, symbol, file, i).1;
    && Explored(g, w, symbol, seen) && Grows(g, w, w', seen + {file}) && Clean(w', seen + {file}, symbol)
    && forall k :: i <= k < |g.lists[file]| && !w.merged[file][k] ==> g.lists[file][k] in seen + w.checked
  }

  lemma {:induction false} MissExploresOpen(g: Graph, w: World, symbol: CString, file: File, i: nat)
    requires g.Valid() && w.Valid(g) && file < |g.lists| && file in w.checked && i < |g.lists[file]| && !w.merged[file][i]
    requires Clean(w, w.checked, symbol)
    requires Children(g, w, symbol, file, i).0 == None
    ensures ExploredBelow(g, w, symbol, file, i)
    decreases g.Files() - w.checked, 1 + |g.lists[file]| - i, 0
  {
    var child := g.lists[file][i];
    var w1 := FDefined(g, w, symbol, child).1;
    MissExplores(g, w, symbol, child);
    var w2 := AfterChild(g, w1, file, i);
    AfterChildStep(g, w1, symbol, file, i);
    MissExploresBelow(g, w2, symbol, file, i + 1);
    ExploredBoth(g, w, w2, symbol, file, Visited(g, w, symbol, child), VisitedBelow(g, w2, symbol, file, i + 1));
  }

  /** A child was searched, and then the rest, in the state that the search had left. */
  lemma ExploredBoth(g: Graph, w: World, w2: World, symbol: CString, file: File, seen: set<File>, more: set<File>)
    requires g.Valid() && w.Valid(g) && w2.Valid(g) && w2.checked == w.checked && file in w.checked && Clean(w, w.checked, symbol)
    requires Explored(g, w, symbol, seen) && Explored(g, w2, symbol, more) && Grows(g, w, w2, seen + {file})
    requires Clean(w2, seen, symbol)
    ensures Explored(g, w, symbol, seen + more)
  {
  }

  /** A miss, started with no file marked: nothing reachable through open edges holds the symbol. */
  lemma MissMeansUnreachable(g: Graph, w: World, symbol: CString, file: File, h: File)
    requires g.Valid() && w.Valid(g) && file < |g.lists| && w.checked == {}
    requires FDefined(g, w, symbol, file).0 == None
    requires Reaches(g, w, file, h)
    ensures h < |g.lists| && h in Visited(g, w, symbol, file) && !Holds(w.tables[h], symbol)
  {
    MissExplores(g, w, symbol, file);
    var p :| Path(g, w, p) && p[0] == file && p[|p| - 1] == h;
    StaysInside(g, w, p, Visited(g, w, symbol, file));
  }

  lemma {:induction false} StaysInside(g: Graph, w: World, p: seq<File>, s: set<File>)
    requires g.Valid() && w.Valid(g) && Path(g, w, p) && p[0] in s
    requires forall a, b :: a in s && Open(g, w, a, b) ==> b in s
    ensures p[|p| - 1] in s
  {
    if |p| > 1 {
      assert Open(g, w, p[0], p[1]);
      PathTail(g, w, p);
      StaysInside(g, w, p[1..], s);
    }
  }

  lemma PathTail(g: Graph, w: World, p: seq<File>)
    requires g.Valid() && w.Valid(g) && Path(g, w, p) && |p| > 1
    ensures Path(g, w, p[1..])
  {
    forall k | 0 <= k < |p[1..]| - 1 ensures Open(g, w, p[1..][k], p[1..][k + 1]) {
      assert Open(g, w, p[k + 1], p[k + 2]);
    }
  }

  // ---------- a hit ----------

  /** A hit is in a file that held the symbol at entry, reached through edges open at entry. */
  lemma {:induction false} HitReaches(g: Graph, w: World, symbol: CString, file: File) returns (p: seq<File>)
    requires g.Valid() && w.Valid(g) && file < |g.lists| && Clean(w, w.checked, symbol)
    requires FDefined(g, w, symbol, file).0.Some?
    ensures Path(g, w, p) && p[0] == file && p[|p| - 1] == FDefined(g, w, symbol, file).0.value
    ensures var (owner, w') := FDefined(g, w, symbol, file);
            owner.value !in w.checked && Holds(w.tables[owner.value], symbol) && w'.tables[owner.value] == w.tables[owner.value]
    decreases g.Files() - w.checked, 0
  {
    if Holds(w.tables[file], symbol) {
      p := [file];
    } else {
      var w1 := w.(checked := w.checked + {file});
      p := HitReachesBelow(g, w1, symbol, file, 0);
      SamePath(g, w1, w, p);
    }
  }

  lemma {:induction false} HitReachesBelow(g: Graph, w: World, symbol: CString, file: File, i: nat) returns (p: seq<File>)
    requires g.Valid() && w.Valid(g) && file < |g.lists| && file in w.checked && i <= |g.lists[file]|
    requires Clean(w, w.checked, symbol)
    requires Children(g, w, symbol, file, i).0.Some?
    ensures Path(g, w, p) && p[0] == file && p[|p| - 1] == Children(g, w, symbol, file, i).0.value
    ensures var (owner, w') := Children(g, w, symbol, file, i);
            owner.value !in w.checked && Holds(w.tables[owner.value], symbol) && w'.tables[owner.value] == w.tables[owner.value]
    decreases g.Files() - w.checked, 1 + |g.lists[file]| - i
  {
    if w.merged[file][i] {
      p := HitReachesBelow(g, w, symbol, file, i + 1);
    } else {
      var child := g.lists[file][i];
      var (owner, w1) := FDefined(g, w, symbol, child);
      if owner.Some? {
        var q := HitReaches(g, w, symbol, child);
        p := ConsPath(g, w, file, i, q);
      } else {
        MissExplores(g, w, symbol, child);
        AfterChildStep(g, w1, symbol, file, i);
        var w2 := AfterChild(g, w1, file, i);
        p := HitReachesBelow(g, w2, symbol, file, i + 1);
        SamePath(g, w2, w, p);
      }
    }
  }

  lemma ConsPath(g: Graph, w: World, file: File, i: nat, q: seq<File>) returns (p: seq<File>)
    requires g.Valid() && w.Valid(g) && file < |g.lists| && i < |g.lists[file]| && !w.merged[file][i]
    requires Path(g, w, q) && q[0] == g.lists[file][i]
    ensures Path(g, w, p) && p[0] == file && p[|p| - 1] == q[|q| - 1]
  {
    p := [file] + q;
    assert Open(g, w, file, q[0]);
    forall k | 0 <= k < |p| - 1 ensures Open(g, w, p[k], p[k + 1]) {
      if k > 0 { assert Open(g, w, q[k - 1], q[k]); }
    }
  }

  lemma Here(g: Graph, w: World, a: File)
    requires g.Valid() && w.Valid(g)
    ensures Reaches(g, w, a, a)
  {
    assert Path(g, w, [a]) && [a][0] == a && [a][|[a]| - 1] == a;
  }

  lemma OneStep(g: Graph, w: World, a: File, b: File, h: File)
    requires g.Valid() && w.Valid(g) && Open(g, w, a, b) && Reaches(g, w, b, h)
    ensures Reaches(g, w, a, h)
  {
    var q :| Path(g, w, q) && q[0] == b && q[|q| - 1] == h;
    var i :| 0 <= i < |g.lists[a]| && !w.merged[a][i] && g.lists[a][i] == b;
    var p := ConsPath(g, w, a, i, q);
  }

  /** Fewer marks, more edges: a path stays one. */
  lemma SamePath(g: Graph, w: World, v: World, p: seq<File>)
    requires g.Valid() && w.Valid(g) && v.Valid(g) && Path(g, w, p)
    requires forall f, i :: 0 <= f < |g.lists| && 0 <= i < |g.lists[f]| && v.merged[f][i] ==> w.merged[f][i]
    ensures Path(g, v, p)
  {
    forall k | 0 <= k < |p| - 1 ensures Open(g, v, p[k], p[k + 1]) {
      assert Open(g, w, p[k], p[k + 1]);
      var i :| 0 <= i < |g.lists[p[k]]| && !w.merged[p[k]][i] && g.lists[p[k]][i] == p[k + 1];
      assert !v.merged[p[k]][i];
    }
  }
}
