/**
 What any lookup hides, told from the state before it: the files that the search passes keep their names in view, and so do
 those that it comes to without the edges that it closes.
 */
module Trails {
  import opened CStrings
  import opened SymbolTable
  import opened LookupSpec
  import opened Visibility
  import opened Hiding
  import opened Settling
  import opened Answers
  import opened Defining
  import opened Wrappers
  import M = Misses

  /** The files that a search looks at, and the edges to FINISHED files that it goes over. */
  datatype Trail = Trail(passed: set<File>, closed: set<(File, nat)>)

  ghost function Both(a: Trail, b: Trail): Trail { Trail(a.passed + b.passed, a.closed + b.closed) }

  ghost function Edge(g: Graph, file: File, i: nat): set<(File, nat)>
    requires file < |g.lists| && i < |g.lists[file]|
  {
    if g.lists[file][i] in g.finished then {(file, i)} else {}
  }

  /** Of a search that changes nothing; `path` are the files it is in the middle of. */
  ghost function Pass(g: Graph, w: World, path: set<File>, symbol: CString, file: File): Trail
    requires g.Valid() && w.Valid(g) && file < |g.lists| && path <= g.Files()
    decreases g.Files() - path, 0
  {
    if file in path then Trail({}, {})
    else if Holds(w.tables[file], symbol) then Trail({file}, {})
    else Both(Trail({file}, {}), PassBelow(g, w, path + {file}, symbol, file, 0))
  }

  ghost function PassBelow(g: Graph, w: World, path: set<File>, symbol: CString, file: File, i: nat): Trail
    requires g.Valid() && w.Valid(g) && file < |g.lists| && path <= g.Files() && file in path && i <= |g.lists[file]|
    decreases g.Files() - path, 1 + |g.lists[file]| - i
  {
    if i == |g.lists[file]| then Trail({}, {})
    else if w.merged[file][i] then PassBelow(g, w, path, symbol, file, i + 1)
    else
      var here := Both(Pass(g, w, path, symbol, g.lists[file][i]), Trail({}, Edge(g, file, i)));
      if First(g, w, path, symbol, g.lists[file][i]).Some? then here else Both(here, PassBelow(g, w, path, symbol, file, i + 1))
  }

  /** The open edges from the files to FINISHED ones. */
  ghost function OpenFrom(g: Graph, w: World, files: set<File>): set<(File, nat)>
    requires g.Valid() && w.Valid(g)
  {
    set e | e in OpenEdges(g, w) && e.0 in files && g.lists[e.0][e.1] in g.finished
  }

  ghost predicate Inside(t: Trail, files: set<File>, edges: set<(File, nat)>) { t.passed <= files && t.closed <= edges }

  /** A search that begins in a barren part stays there. */
  lemma {:induction false} PassInside(g: Graph, w: World, base: set<File>, path: set<File>, symbol: CString, seen: set<File>, x: File)
    requires g.Valid() && w.Valid(g) && base <= path <= g.Files() && Barren(g, w, base, symbol, seen) && x in seen
    ensures Inside(Pass(g, w, path, symbol, x), seen, OpenFrom(g, w, seen))
    decreases g.Files() - path, 0
  {
    if x !in path { PassBelowInside(g, w, base, path + {x}, symbol, seen, x, 0); }
  }

  lemma {:induction false} PassBelowInside(g: Graph, w: World, base: set<File>, path: set<File>, symbol: CString,
                                           seen: set<File>, x: File, i: nat)
    requires g.Valid() && w.Valid(g) && base <= path <= g.Files() && Barren(g, w, base, symbol, seen) && x in seen
    requires x in path && i <= |g.lists[x]|
    ensures Inside(PassBelow(g, w, path, symbol, x, i), seen, OpenFrom(g, w, seen))
    decreases g.Files() - path, 1 + |g.lists[x]| - i
  {
    if i < |g.lists[x]| {
      if !w.merged[x][i] {
        var c := g.lists[x][i];
        assert Open(g, w, x, c) && (x, i) in OpenEdges(g, w);
        if c !in path { PassInside(g, w, base, path, symbol, seen, c); }
      }
      PassBelowInside(g, w, base, path, symbol, seen, x, i + 1);
    }
  }

  /** Two trails are the same but for a barren part. */
  ghost predicate Alike(a: Trail, b: Trail, seen: set<File>, edges: set<(File, nat)>) {
    a.passed + seen == b.passed + seen && a.closed + edges == b.closed + edges
  }

  lemma {:induction false} SamePass(g: Graph, w: World, v: World, base: set<File>, path: set<File>, symbol: CString,
                                    seen: set<File>, x: File)
    requires g.Valid() && w.Valid(g) && v.Valid(g) && base <= path <= g.Files() && Aside(g, w, v, base, symbol, seen) && x < |g.lists|
    requires OpenFrom(g, v, seen) <= OpenFrom(g, w, seen)
    ensures Alike(Pass(g, w, path, symbol, x), Pass(g, v, path, symbol, x), seen, OpenFrom(g, w, seen))
    decreases g.Files() - path, 0
  {
    if x in seen {
      PassInside(g, w, base, path, symbol, seen, x);
      PassInside(g, v, base, path, symbol, seen, x);
    } else if x !in path && !Holds(w.tables[x], symbol) {
      SamePassBelow(g, w, v, base, path + {x}, symbol, seen, x, 0);
    }
  }

  lemma {:induction false} SamePassBelow(g: Graph, w: World, v: World, base: set<File>, path: set<File>, symbol: CString,
                                         seen: set<File>, x: File, i: nat)
    requires g.Valid() && w.Valid(g) && v.Valid(g) && base <= path <= g.Files() && Aside(g, w, v, base, symbol, seen)
    requires OpenFrom(g, v, seen) <= OpenFrom(g, w, seen)
    requires x < |g.lists| && x in path && i <= |g.lists[x]| && forall k :: i <= k < |g.lists[x]| ==> v.merged[x][k] == w.merged[x][k]
    ensures Alike(PassBelow(g, w, path, symbol, x, i), PassBelow(g, v, path, symbol, x, i), seen, OpenFrom(g, w, seen))
    decreases g.Files() - path, 1 + |g.lists[x]| - i
  {
    if i < |g.lists[x]| {
      SamePassBelow(g, w, v, base, path, symbol, seen, x, i + 1);
      if !w.merged[x][i] {
        var c, edges := g.lists[x][i], OpenFrom(g, w, seen);
        SamePass(g, w, v, base, path, symbol, seen, c);
        SameFirst(g, w, v, base, path, symbol, seen, c);
        var a, b := Pass(g, w, path, symbol, c), Pass(g, v, path, symbol, c);
        var here := Trail({}, Edge(g, x, i));
        AlikeBoth(a, b, here, here, seen, edges);
        AlikeBoth(Both(a, here), Both(b, here), PassBelow(g, w, path, symbol, x, i + 1), PassBelow(g, v, path, symbol, x, i + 1),
                  seen, edges);
      }
    }
  }

  lemma AlikeBoth(a: Trail, b: Trail, c: Trail, d: Trail, seen: set<File>, edges: set<(File, nat)>)
    requires Alike(a, b, seen, edges) && Alike(c, d, seen, edges)
    ensures Alike(Both(a, c), Both(b, d), seen, edges)
  {
    assert a.passed + c.passed + seen == (a.passed + seen) + (c.passed + seen);
    assert b.passed + d.passed + seen == (b.passed + seen) + (d.passed + seen);
    assert a.closed + c.closed + edges == (a.closed + edges) + (c.closed + edges);
    assert b.closed + d.closed + edges == (b.closed + edges) + (d.closed + edges);
  }

  // ---------- the marks that a lookup sets ----------

  ghost predicate Marked(g: Graph, w: World, w': World, closed: set<(File, nat)>)
    requires g.Valid() && w.Valid(g) && w'.Valid(g)
  {
    forall f: File, k: nat :: f < |g.lists| && k < |g.lists[f]| ==> (w'.merged[f][k] <==> w.merged[f][k] || (f, k) in closed)
  }

  /** The open edges of the file from the i-th on, to FINISHED files. */
  ghost function OpenBehind(g: Graph, w: World, file: File, i: nat): set<(File, nat)>
    requires g.Valid() && w.Valid(g)
  {
    set e | e in OpenEdges(g, w) && e.0 == file && e.1 >= i && g.lists[e.0][e.1] in g.finished
  }

  ghost function TrailOf(g: Graph, w: World, symbol: CString, file: File): Trail
    requires g.Valid() && w.Valid(g) && file < |g.lists|
  {
    Pass(g, Bare(w), w.checked, symbol, file)
  }

  ghost function TrailBelow(g: Graph, w: World, symbol: CString, file: File, i: nat): Trail
    requires g.Valid() && w.Valid(g) && file < |g.lists| && file in w.checked && i <= |g.lists[file]|
  {
    PassBelow(g, Bare(w), w.checked, symbol, file, i)
  }

  /** A search marks exactly the edges of its trail; one in vain goes over all edges of the files it passes. */
  lemma {:induction false} MarksAre(g: Graph, w: World, symbol: CString, file: File)
    requires g.Valid() && w.Valid(g) && file < |g.lists| && Clean(w, w.checked, symbol)
    ensures Marked(g, w, FDefined(g, w, symbol, file).1, TrailOf(g, w, symbol, file).closed)
    ensures FDefined(g, w, symbol, file).0 == None ==>
              TrailOf(g, w, symbol, file) == Trail(Visited(g, w, symbol, file), OpenFrom(g, w, Visited(g, w, symbol, file)))
    decreases g.Files() - w.checked, 0
  {
    if file !in w.checked && !Holds(w.tables[file], symbol) {
      var w1 := w.(checked := w.checked + {file});
      MarksBelow(g, w1, symbol, file, 0);
      assert Bare(w1) == Bare(w) && OpenEdges(g, w1) == OpenEdges(g, w);
      if FDefined(g, w, symbol, file).0 == None {
        var seen := VisitedBelow(g, w1, symbol, file, 0);
        assert OpenFrom(g, w, {file} + seen) == OpenFrom(g, w1, seen) + OpenBehind(g, w1, file, 0);
      }
    }
  }

  lemma {:induction false} MarksBelow(g: Graph, w: World, symbol: CString, file: File, i: nat)
    requires g.Valid() && w.Valid(g) && file < |g.lists| && file in w.checked && i <= |g.lists[file]| && Clean(w, w.checked, symbol)
    ensures MarkedBelow(g, w, symbol, file, i)
    decreases g.Files() - w.checked, 1 + |g.lists[file]| - i
  {
    if i < |g.lists[file]| {
      if w.merged[file][i] {
        MarksBelow(g, w, symbol, file, i + 1);
        assert OpenBehind(g, w, file, i) == OpenBehind(g, w, file, i + 1);
      } else {
        MarksOpen(g, w, symbol, file, i);
      }
    }
  }

  ghost predicate MarkedBelow(g: Graph, w: World, symbol: CString, file: File, i: nat)
    requires g.Valid() && w.Valid(g) && file < |g.lists| && file in w.checked && i <= |g.lists[file]|
  {
    var (owner, w') := Children(g, w, symbol, file, i);
    var seen, t := VisitedBelow(g, w, symbol, file, i), TrailBelow(g, w, symbol, file, i);
    && Marked(g, w, w', t.closed)
    && (owner == None ==> t == Trail(seen, OpenFrom(g, w, seen) + OpenBehind(g, w, file, i)))
  }

  lemma {:induction false} MarksOpen(g: Graph, w: World, symbol: CString, file: File, i: nat)
    requires g.Valid() && w.Valid(g) && file < |g.lists| && file in w.checked && i < |g.lists[file]| && !w.merged[file][i]
    requires Clean(w, w.checked, symbol)
    ensures MarkedBelow(g, w, symbol, file, i)
    decreases g.Files() - w.checked, 1 + |g.lists[file]| - i, 0
  {
    var child := g.lists[file][i];
    var (owner, w1) := FDefined(g, w, symbol, child);
    var w2 := AfterChild(g, w1, file, i);
    MarksAre(g, w, symbol, child);
    OwnerIsFirst(g, w, symbol, child);
    if owner == None {
      MissLeavesAside(g, w, symbol, file, i);
      MarksBelow(g, w2, symbol, file, i + 1);
      MarksBehind(g, w, symbol, file, i);
    }
  }

  lemma MarkedTwice(g: Graph, w: World, v: World, u: World, a: set<(File, nat)>, b: set<(File, nat)>)
    requires g.Valid() && w.Valid(g) && v.Valid(g) && u.Valid(g) && Marked(g, w, v, a) && Marked(g, v, u, b)
    ensures Marked(g, w, u, a + b)
  {
  }

  lemma OneMarked(g: Graph, w: World, file: File, i: nat)
    requires g.Valid() && w.Valid(g) && file < |g.lists| && i < |g.lists[file]|
    ensures Marked(g, w, AfterChild(g, w, file, i), Edge(g, file, i))
  {
  }

  /** All that was open at first has been gone over, or is open still. */
  lemma OpenAgain(g: Graph, w: World, w2: World, file: File, i: nat, seen: set<File>, more: set<File>)
    requires g.Valid() && w.Valid(g) && w2.Valid(g) && file < |g.lists| && i < |g.lists[file]| && !w.merged[file][i]
    requires Marked(g, w, w2, OpenFrom(g, w, seen) + Edge(g, file, i))
    ensures OpenFrom(g, w, seen + more) + OpenBehind(g, w, file, i)
            == OpenFrom(g, w, seen) + Edge(g, file, i) + (OpenFrom(g, w2, more) + OpenBehind(g, w2, file, i + 1))
  {
    forall e | e in OpenEdges(g, w) ensures e in OpenEdges(g, w2) || e in OpenFrom(g, w, seen) + Edge(g, file, i) {
      assert e.0 < |g.lists| && e.1 < |g.lists[e.0]| && !w.merged[e.0][e.1] && e == (e.0, e.1);
    }
    forall e | e in OpenEdges(g, w2) ensures e in OpenEdges(g, w) {
      assert e.0 < |g.lists| && e.1 < |g.lists[e.0]| && !w2.merged[e.0][e.1];
    }
    assert (file, i) in OpenEdges(g, w);
  }

  /** The i-th child was searched in vain, and then the rest in the state that this left. */
  lemma MarksBehind(g: Graph, w: World, symbol: CString, file: File, i: nat)
    requires g.Valid() && w.Valid(g) && file < |g.lists| && file in w.checked && i < |g.lists[file]| && !w.merged[file][i]
    requires Clean(w, w.checked, symbol) && FDefined(g, w, symbol, g.lists[file][i]).0 == None
    requires var w1 := FDefined(g, w, symbol, g.lists[file][i]).1; Marked(g, w, w1, TrailOf(g, w, symbol, g.lists[file][i]).closed)
    requires var w2 := AfterChild(g, FDefined(g, w, symbol, g.lists[file][i]).1, file, i); MarkedBelow(g, w2, symbol, file, i + 1)
    requires var seen := Visited(g, w, symbol, g.lists[file][i]);
             TrailOf(g, w, symbol, g.lists[file][i]) == Trail(seen, OpenFrom(g, w, seen))
    ensures MarkedBelow(g, w, symbol, file, i)
  {
    var child := g.lists[file][i];
    var w1 := FDefined(g, w, symbol, child).1;
    var w2, seen := AfterChild(g, w1, file, i), Visited(g, w, symbol, child);
    var w', closed := Children(g, w2, symbol, file, i + 1).1, OpenFrom(g, w, seen) + Edge(g, file, i);
    OneMarked(g, w1, file, i);
    MarkedTwice(g, w, w1, w2, OpenFrom(g, w, seen), Edge(g, file, i));
    MarkedTwice(g, w, w2, w', closed, TrailBelow(g, w2, symbol, file, i + 1).closed);
    TrailBehind(g, w, symbol, file, i);
    OpenAgain(g, w, w2, file, i, seen, VisitedBelow(g, w2, symbol, file, i + 1));
  }

  /** What is gone over is the same whether the i-th child has been merged or not. */
  lemma TrailBehind(g: Graph, w: World, symbol: CString, file: File, i: nat)
    requires g.Valid() && w.Valid(g) && file < |g.lists| && file in w.checked && i < |g.lists[file]| && !w.merged[file][i]
    requires Clean(w, w.checked, symbol) && FDefined(g, w, symbol, g.lists[file][i]).0 == None
    requires var seen := Visited(g, w, symbol, g.lists[file][i]);
             TrailOf(g, w, symbol, g.lists[file][i]) == Trail(seen, OpenFrom(g, w, seen))
    requires var w1 := FDefined(g, w, symbol, g.lists[file][i]).1; Marked(g, w, w1, TrailOf(g, w, symbol, g.lists[file][i]).closed)
    ensures var seen := Visited(g, w, symbol, g.lists[file][i]);
            var rest := TrailBelow(g, AfterChild(g, FDefined(g, w, symbol, g.lists[file][i]).1, file, i), symbol, file, i + 1);
            TrailBelow(g, w, symbol, file, i) == Trail(seen + rest.passed, OpenFrom(g, w, seen) + Edge(g, file, i) + rest.closed)
  {
    var child := g.lists[file][i];
    var w1 := FDefined(g, w, symbol, child).1;
    var w2, seen := AfterChild(g, w1, file, i), Visited(g, w, symbol, child);
    MissLeavesAside(g, w, symbol, file, i);
    OwnerIsFirst(g, w, symbol, child);
    LookupKeeps(g, w, symbol, child, symbol);
    AfterChildStep(g, w1, symbol, file, i);
    assert OpenFrom(g, Bare(w), seen) == OpenFrom(g, w, seen);
    SamePassBelow(g, Bare(w), Bare(w2), w.checked, w.checked, symbol, seen, file, i + 1);
    SameTrail(Trail(seen, OpenFrom(g, w, seen)), Edge(g, file, i), TrailBelow(g, w, symbol, file, i + 1),
              TrailBelow(g, w2, symbol, file, i + 1));
  }

  lemma SameTrail(here: Trail, edge: set<(File, nat)>, a: Trail, b: Trail)
    requires Alike(a, b, here.passed, here.closed)
    ensures Both(Both(here, Trail({}, edge)), a) == Trail(here.passed + b.passed, here.closed + edge + b.closed)
  {
    assert here.passed + {} + a.passed == a.passed + here.passed;
    assert here.closed + edge + a.closed == (a.closed + here.closed) + edge;
  }

  /** The trail of the loop is that of the child and, if it was searched in vain, that of the rest in what this left. */
  lemma TrailGoesOn(g: Graph, w: World, symbol: CString, file: File, i: nat)
    requires g.Valid() && w.Valid(g) && file < |g.lists| && file in w.checked && i < |g.lists[file]| && !w.merged[file][i]
    requires Clean(w, w.checked, symbol)
    ensures var (owner, w1) := FDefined(g, w, symbol, g.lists[file][i]);
            var w2, here := AfterChild(g, w1, file, i), TrailOf(g, w, symbol, g.lists[file][i]).passed;
            && TrailBelow(g, w, symbol, file, i).passed
               == here + (if owner == None then TrailBelow(g, w2, symbol, file, i + 1).passed else {})
            && (owner == None ==> Clean(w2, w2.checked, symbol))
  {
    OwnerIsFirst(g, w, symbol, g.lists[file][i]);
    if FDefined(g, w, symbol, g.lists[file][i]).0 == None {
      MarksAre(g, w, symbol, g.lists[file][i]);
      TrailBehind(g, w, symbol, file, i);
      MissLeavesAside(g, w, symbol, file, i);
    }
  }

  // ---------- where names go ----------

  /** A name that a passed file holds comes up to where the search began, or stays in a passed file that is not FINISHED. */
  lemma {:induction false} PassedGathers(g: Graph, w: World, symbol: CString, file: File, h: File, name: CString)
    requires g.Valid() && w.Valid(g) && file < |g.lists| && Clean(w, w.checked, symbol)
    requires h in TrailOf(g, w, symbol, file).passed && h < |g.lists| && Holds(w.tables[h], name)
    ensures M.Gathered(g, FDefined(g, w, symbol, file).1, TrailOf(g, w, symbol, file).passed, file, name)
    decreases g.Files() - w.checked, 0
  {
    if !Holds(w.tables[file], symbol) {
      var w1 := w.(checked := w.checked + {file});
      PassedGathersBelow(g, w1, symbol, file, 0, h, name);
      var below := Children(g, w1, symbol, file, 0).1;
      assert Bare(w1) == Bare(w);
      M.GatheredStays(g, below, below.(checked := w.checked), TrailBelow(g, w1, symbol, file, 0).passed,
                      TrailOf(g, w, symbol, file).passed, file, name);
    }
  }

  lemma {:induction false} PassedGathersBelow(g: Graph, w: World, symbol: CString, file: File, i: nat, h: File, name: CString)
    requires g.Valid() && w.Valid(g) && file < |g.lists| && file in w.checked && i <= |g.lists[file]| && Clean(w, w.checked, symbol)
    requires (h in TrailBelow(g, w, symbol, file, i).passed || h == file) && h < |g.lists| && Holds(w.tables[h], name)
    ensures M.Gathered(g, Children(g, w, symbol, file, i).1, TrailBelow(g, w, symbol, file, i).passed, file, name)
    decreases g.Files() - w.checked, 1 + |g.lists[file]| - i
  {
    if i < |g.lists[file]| {
      if w.merged[file][i] {
        PassedGathersBelow(g, w, symbol, file, i + 1, h, name);
      } else {
        PassedGathersOpen(g, w, symbol, file, i, h, name);
      }
    }
  }

  lemma {:induction false} PassedGathersOpen(g: Graph, w: World, symbol: CString, file: File, i: nat, h: File, name: CString)
    requires g.Valid() && w.Valid(g) && file < |g.lists| && file in w.checked && i < |g.lists[file]| && !w.merged[file][i]
    requires Clean(w, w.checked, symbol)
    requires (h in TrailBelow(g, w, symbol, file, i).passed || h == file) && h < |g.lists| && Holds(w.tables[h], name)
    ensures M.Gathered(g, Children(g, w, symbol, file, i).1, TrailBelow(g, w, symbol, file, i).passed, file, name)
    decreases g.Files() - w.checked, 1 + |g.lists[file]| - i, 0
  {
    var child := g.lists[file][i];
    var (owner, w1) := FDefined(g, w, symbol, child);
    var w2, here := AfterChild(g, w1, file, i), TrailOf(g, w, symbol, child).passed;
    TrailGoesOn(g, w, symbol, file, i);
    LookupKeeps(g, w, symbol, child, name);
    EdgeStaysOpen(g, w, symbol, file, i);
    AfterChildKeeps(g, w1, file, i, name);
    if h in here {
      PassedGathers(g, w, symbol, child, h, name);
      ChildGathers(g, w1, symbol, file, i, here, name);
    }
    if owner == None {
      if h in here && !Holds(w2.tables[file], name) {
        LookupBelowKeeps(g, w2, symbol, file, i + 1, name);
        M.GatheredStays(g, w2, Children(g, w2, symbol, file, i + 1).1, here, TrailBelow(g, w, symbol, file, i).passed, file, name);
      } else {
        PassedGathersBelow(g, w2, symbol, file, i + 1, if h in here then file else h, name);
      }
    }
  }

  /** What the child has gathered comes up with its merge. */
  lemma ChildGathers(g: Graph, w: World, symbol: CString, file: File, i: nat, here: set<File>, name: CString)
    requires g.Valid() && w.Valid(g) && file < |g.lists| && i < |g.lists[file]| && !w.merged[file][i]
    requires g.lists[file][i] in here && M.Gathered(g, w, here, g.lists[file][i], name)
    ensures M.Gathered(g, AfterChild(g, w, file, i), here, file, name)
  {
    AfterChildKeeps(g, w, file, i, name);
    if Holds(w.tables[g.lists[file][i]], name) && g.lists[file][i] in g.finished { MergedHolds(g, w, file, i, file, name); }
  }

  /** No file gets a name that neither a passed file nor the search path holds. */
  ghost predicate Lacks(g: Graph, w: World, files: set<File>, name: CString)
    requires g.Valid() && w.Valid(g)
  {
    forall f: File :: f in files && f < |g.lists| ==> !Holds(w.tables[f], name)
  }

  ghost predicate NoneGets(g: Graph, w: World, w': World, name: CString)
    requires g.Valid() && w.Valid(g) && w'.Valid(g)
  {
    forall f: File :: f < |g.lists| && Holds(w'.tables[f], name) ==> Holds(w.tables[f], name)
  }

  lemma {:induction false} PassedBrings(g: Graph, w: World, symbol: CString, file: File, files: set<File>, name: CString)
    requires g.Valid() && w.Valid(g) && file < |g.lists| && Clean(w, w.checked, symbol)
    requires w.checked + TrailOf(g, w, symbol, file).passed <= files && Lacks(g, w, files, name)
    ensures NoneGets(g, w, FDefined(g, w, symbol, file).1, name)
    decreases g.Files() - w.checked, 0
  {
    if file !in w.checked && !Holds(w.tables[file], symbol) {
      var w1 := w.(checked := w.checked + {file});
      assert Bare(w1) == Bare(w);
      PassedBringsBelow(g, w1, symbol, file, 0, files, name);
    }
  }

  lemma {:induction false} PassedBringsBelow(g: Graph, w: World, symbol: CString, file: File, i: nat, files: set<File>, name: CString)
    requires g.Valid() && w.Valid(g) && file < |g.lists| && file in w.checked && i <= |g.lists[file]| && Clean(w, w.checked, symbol)
    requires w.checked + TrailBelow(g, w, symbol, file, i).passed <= files && Lacks(g, w, files, name)
    ensures NoneGets(g, w, Children(g, w, symbol, file, i).1, name)
    decreases g.Files() - w.checked, 1 + |g.lists[file]| - i
  {
    if i < |g.lists[file]| {
      if w.merged[file][i] {
        PassedBringsBelow(g, w, symbol, file, i + 1, files, name);
      } else {
        var child := g.lists[file][i];
        var (owner, w1) := FDefined(g, w, symbol, child);
        TrailGoesOn(g, w, symbol, file, i);
        PassedBrings(g, w, symbol, child, files, name);
        assert child in files;
        MergedHolds(g, w1, file, i, file, name);
        if owner == None { PassedBringsBelow(g, AfterChild(g, w1, file, i), symbol, file, i + 1, files, name); }
      }
    }
  }

  // ---------- what is passed is reachable ----------

  lemma {:induction false} PassedReached(g: Graph, w: World, path: set<File>, symbol: CString, file: File, f: File)
    requires g.Valid() && w.Valid(g) && file < |g.lists| && path <= g.Files() && f in Pass(g, w, path, symbol, file).passed
    ensures f < |g.lists| && Reaches(g, w, file, f)
    decreases g.Files() - path, 0
  {
    Here(g, w, file);
    if f != file { PassedBelowReached(g, w, path + {file}, symbol, file, 0, f); }
  }

  lemma {:induction false} PassedBelowReached(g: Graph, w: World, path: set<File>, symbol: CString, file: File, i: nat, f: File)
    requires g.Valid() && w.Valid(g) && file < |g.lists| && path <= g.Files() && file in path && i <= |g.lists[file]|
    requires f in PassBelow(g, w, path, symbol, file, i).passed
    ensures f < |g.lists| && Reaches(g, w, file, f)
    decreases g.Files() - path, 1 + |g.lists[file]| - i
  {
    if !w.merged[file][i] && f in Pass(g, w, path, symbol, g.lists[file][i]).passed {
      PassedReached(g, w, path, symbol, g.lists[file][i], f);
      assert Open(g, w, file, g.lists[file][i]);
      OneStep(g, w, file, g.lists[file][i], f);
    } else {
      PassedBelowReached(g, w, path, symbol, file, i + 1, f);
    }
  }

  // ---------- the main results ----------

  /** The edges closed, with nothing brought along. */
  ghost function Without(g: Graph, w: World, edges: set<(File, nat)>): (v: World)
    requires g.Valid() && w.Valid(g)
    ensures v.Valid(g) && Marked(g, w, v, edges)
  {
    w.(merged := seq(|g.lists|, f requires 0 <= f < |g.lists| =>
         seq(|g.lists[f]|, k requires 0 <= k < |g.lists[f]| => w.merged[f][k] || (f, k) in edges)))
  }

  /**
   The command line has the name, or a file that the search passes, or one that the root comes to over other edges than
   those that the search closes.
   */
  ghost predicate Survives(g: Graph, w: World, symbol: CString, root: File, name: CString)
    requires g.Valid() && w.Valid(g) && root < |g.lists|
  {
    var t := Pass(g, w, {}, symbol, root);
    || Holds(w.tables[g.main], name)
    || (exists f: File :: f in t.passed && f < |g.lists| && Holds(w.tables[f], name))
    || exists h: File :: h < |g.lists| && Reaches(g, Without(g, w, t.closed), root, h) && Holds(w.tables[h], name)
  }

  /** Exactly those names are seen from the root after a lookup of any name, found or not, while all that is open is being read. */
  lemma LookSees(g: Graph, w: World, symbol: CString, root: File, name: CString)
    requires g.Valid() && w.Valid(g) && w.checked == {} && root < |g.lists| && Reading(g, w, root) && !Holds(w.tables[g.main], symbol)
    ensures Visible(g, IsDefined(g, w, symbol, root).1, root, name) <==> Survives(g, w, symbol, root, name)
  {
    var w', t := FDefined(g, w, symbol, root).1, Pass(g, w, {}, symbol, root);
    var v := Without(g, w, t.closed);
    assert Bare(w) == w;
    MarksAre(g, w, symbol, root);
    SameMarks(g, w', v);
    LookupKeeps(g, w, symbol, root, name);
    if Visible(g, w', root, name) { SeenSurvives(g, w, symbol, root, name); }
    if f: File :| f in t.passed && f < |g.lists| && Holds(w.tables[f], name) { PassedIsSeen(g, w, symbol, root, f, name); }
    if h: File :| h < |g.lists| && Reaches(g, v, root, h) && Holds(w.tables[h], name) { SameReach(g, w', v, root, h); }
  }

  lemma SameMarks(g: Graph, w: World, v: World)
    requires g.Valid() && w.Valid(g) && v.Valid(g)
    requires forall f: File, k: nat :: f < |g.lists| && k < |g.lists[f]| ==> (w.merged[f][k] <==> v.merged[f][k])
    ensures w.merged == v.merged
  {
    forall f: File | f < |g.lists| ensures w.merged[f] == v.merged[f] { }
  }

  lemma SeenSurvives(g: Graph, w: World, symbol: CString, root: File, name: CString)
    requires g.Valid() && w.Valid(g) && w.checked == {} && root < |g.lists| && !Holds(w.tables[g.main], symbol)
    requires Visible(g, FDefined(g, w, symbol, root).1, root, name)
    requires FDefined(g, w, symbol, root).1.merged == Without(g, w, Pass(g, w, {}, symbol, root).closed).merged
    ensures Survives(g, w, symbol, root, name)
  {
    var w', t := FDefined(g, w, symbol, root).1, Pass(g, w, {}, symbol, root);
    assert Bare(w) == w && w.checked + t.passed == t.passed;
    if Lacks(g, w, t.passed, name) {
      PassedBrings(g, w, symbol, root, t.passed, name);
      if !Holds(w.tables[g.main], name) {
        var h: File :| h < |g.lists| && Reaches(g, w', root, h) && Holds(w'.tables[h], name);
        SameReach(g, w', Without(g, w, t.closed), root, h);
      }
    }
  }

  lemma PassedIsSeen(g: Graph, w: World, symbol: CString, root: File, f: File, name: CString)
    requires g.Valid() && w.Valid(g) && w.checked == {} && root < |g.lists| && Reading(g, w, root)
    requires f in Pass(g, w, {}, symbol, root).passed && f < |g.lists| && Holds(w.tables[f], name)
    ensures Visible(g, FDefined(g, w, symbol, root).1, root, name)
  {
    var w' := FDefined(g, w, symbol, root).1;
    assert Bare(w) == w;
    PassedGathers(g, w, symbol, root, f, name);
    LookupKeeps(g, w, symbol, root, name);
    Here(g, w', root);
    if !Holds(w'.tables[root], name) {
      var u: File :| u in TrailOf(g, w, symbol, root).passed && u < |g.lists| && u !in g.finished && Holds(w'.tables[u], name);
      PassedReached(g, w, {}, symbol, root, u);
      StackStays(g, w, w', root, u);
      StackReaches(g, w', root, u);
    }
  }

  /** So a lookup, whether it finds the name or not, hides nothing exactly when all that is seen survives it. */
  lemma LookHidesIff(g: Graph, w: World, symbol: CString, root: File)
    requires g.Valid() && w.Valid(g) && w.checked == {} && root < |g.lists| && Reading(g, w, root) && !Holds(w.tables[g.main], symbol)
    ensures SeesSame(g, w, IsDefined(g, w, symbol, root).1, root)
            <==> forall name: CString :: Visible(g, w, root, name) ==> Survives(g, w, symbol, root, name)
  {
    LookupAddsNothing(g, w, symbol, root);
    forall name: CString
      ensures Visible(g, IsDefined(g, w, symbol, root).1, root, name) <==> Survives(g, w, symbol, root, name)
    {
      LookSees(g, w, symbol, root, name);
    }
  }
}
