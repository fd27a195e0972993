/**
 Runs over the real symbol tables, with the real conditions and macro values, of command-line files whose headers include
 nothing, against runs over one table of definitions.
 */
module FlatRuns {
  import opened CStrings
  import opened Sequences
  import opened Wrappers
  import opened Cppsetup
  import D = Directives
  import N = Nesting
  import S = Selection
  import G = GraphOps
  import P = FlatOps
  import T = TablesAsOne
  import F = FlatGraph
  import R = Runs
  import O = OneTable
  import U = Supply
  import ST = SymbolTable

  /** The structured meaning of the command-line file, and its end. */
  function Standard<W>(ops: D.Ops<W>, trees: N.Trees, file: D.File, st: D.State<W>): D.State<W>
    requires file in trees
  {
    var end := S.Meaning(ops, trees, file, trees[file], st);
    end.(w := ops.finish(end.w, file))
  }

  /** A program whose operations agree with an ideal one's runs as that means, as far as the ideal speaks. */
  lemma AgreeingRun<W, V>(ops: D.Ops<W>, ideal: D.Ops<V>, fr: S.Frame<W, V>, trees: N.Trees, file: D.File, st: D.State<W>, sv: D.State<V>)
    requires S.Agree(ops, ideal, fr) && N.AllWellNested(trees) && file in trees && S.Near(fr, st, sv) && S.Good(fr, st, file)
    requires S.Tame(ideal, fr.rules, trees, file, trees[file], sv)
    ensures var r := D.FindIncludes(ops, N.ContentsOf(trees), file, 0, N.ContentsOf(trees)[file], st);
            && r.stop == D.AtEnd && r.rest == [] && S.Near(fr, r.st, Standard(ideal, trees, file, sv))
            && forall x: D.File :: x !in r.st.searched && x != file ==> fr.unread(r.st.w, x)
  {
    S.FindIncludesMeansSelection(ops, ideal, fr, trees, file, st, sv);
  }

  // ---------- one table of definitions ----------

  /** The scanners over one table of definitions give the standard's meaning itself, for any nesting of includes. */
  lemma OneTableRun(locate: (D.File, string, bool) -> Option<D.File>, left: map<D.File, Defs>, trees: N.Trees,
                    file: D.File, st: D.State<O.View>)
    requires N.AllWellNested(trees) && file in trees
    ensures var ops := O.TheOps(locate, left);
            D.FindIncludes(ops, N.ContentsOf(trees), file, 0, N.ContentsOf(trees)[file], st)
                == D.Found(D.AtEnd, [], Standard(ops, trees, file, st))
  {
    S.QuietMeansSelection(O.TheOps(locate, left), trees, file, st);
  }

  // ---------- the real tables ----------

  /** A command-line file is begun: nothing is defined in it and it includes nothing. */
  ghost predicate Begins(h: G.Host, st: D.State<R.State>) {
    && F.Flat(st.w, h.root, h.leaves) && G.Supplied(h, st.w) && st.w.g.lists[h.root] == [] && st.w.w.tables[h.root] == []
    && forall x: D.File :: x in h.leaves && x !in st.searched ==> x !in st.w.g.finished
  }

  /** It sees the command line. */
  ghost function Start(h: G.Host, st: D.State<R.State>): D.State<O.View>
    requires Begins(h, st)
  {
    D.State(O.View(G.Visibles(st.w, h.root), {}, 0), st.searched, st.scanned)
  }

  /**
   Executed over one table of definitions, the file and its headers keep the constraint of section 6.10.3: no macro is
   defined again otherwise than it is.
   */
  ghost predicate Conforms(h: G.Host, trees: N.Trees, st: D.State<R.State>)
    requires h.root in trees && Begins(h, st)
  {
    S.Tame(P.Ideal(h, st.w), P.Constraints(h, st.w), trees, h.root, trees[h.root], Start(h, st))
  }

  /** How many #define lines the files have that have not been read. */
  ghost function DefinesLeft(trees: N.Trees, searched: set<D.File>): nat
  {
    U.DefinesOf(trees, trees.Keys - searched)
  }

  function DefinesIn(trees: N.Trees, file: D.File): nat
    requires file in trees
  {
    |U.DefinesIn(trees[file])|
  }

  /** Memory suffices for a cell for every #define line in the trees. */
  ghost predicate HasRoom(h: G.Host, trees: N.Trees, st: D.State<R.State>)
    requires h.root in trees
  {
    U.Named(h, trees) && |st.w.vals| + DefinesIn(trees, h.root) + DefinesLeft(trees, st.searched) <= h.limit
  }

  /** What the run of a command-line file over the tables comes to, against the one over one table of definitions. */
  ghost predicate RunsAsOneTable(h: G.Host, trees: N.Trees, st: D.State<R.State>)
    requires h.root in trees && Begins(h, st)
  {
    var r := D.FindIncludes(G.TableOps(h), N.ContentsOf(trees), h.root, 0, N.ContentsOf(trees)[h.root], st);
    var one := D.FindIncludes(P.Ideal(h, st.w), N.ContentsOf(trees), h.root, 0, N.ContentsOf(trees)[h.root], Start(h, st));
    && r.stop == D.AtEnd && r.rest == [] && one.stop == D.AtEnd && one.rest == []
    && r.st.searched == one.st.searched && r.st.scanned == one.st.scanned
    && F.Flat(r.st.w, h.root, h.leaves) && G.Visibles(r.st.w, h.root) == one.st.w.defs
    && forall c: D.File :: c in one.st.w.included <==> F.IsChild(r.st.w.g, h.root, c)
  }

  lemma StartStands(h: G.Host, st: D.State<R.State>)
    requires Begins(h, st)
    ensures P.StandsFor(h, st.w, st.w, Start(h, st).w)
  {
    var s, root := st.w, h.root;
    var defs := G.Visibles(s, root);
    forall f: D.File, k | f in T.Seen(s.g, s.w, root) && 0 <= k < |s.w.tables[f]| ensures s.w.tables[f][k] in T.Fitting(s.vals, defs) {
      if f != s.g.main { F.RootReaches(s, root, h.leaves, f); }
      MainSays(s, root, k);
    }
    T.VisiblesAreSeen(s, root);
  }

  lemma MainSays(s: R.State, root: D.File, k: nat)
    requires s.Ok() && root < |s.g.lists| && k < |s.w.tables[s.g.main]|
    ensures s.w.tables[s.g.main][k] in T.Fitting(s.vals, G.Visibles(s, root))
  {
    var name := s.w.tables[s.g.main][k].name;
    assert ST.Holds(s.w.tables[s.g.main], name);
    G.HeldIsNamed(s, s.g.main, name);
    ST.LookupAt(s.w.tables[s.g.main], k);
  }

  /** The tables at the end stand for the table that the standard's meaning ends with. */
  lemma FlatStands(h: G.Host, trees: N.Trees, st: D.State<R.State>)
    requires P.FlatHost(h) && N.AllWellNested(trees) && h.root in trees && Begins(h, st) && Conforms(h, trees, st) && HasRoom(h, trees, st)
    ensures var r := D.FindIncludes(G.TableOps(h), N.ContentsOf(trees), h.root, 0, N.ContentsOf(trees)[h.root], st);
            var end := Standard(P.Ideal(h, st.w), trees, h.root, Start(h, st));
            && r.stop == D.AtEnd && r.rest == [] && r.st.searched == end.searched && r.st.scanned == end.scanned
            && P.StandsFor(h, st.w, r.st.w, end.w)
            && forall x: D.File :: x in h.leaves && x !in r.st.searched ==> x !in r.st.w.g.finished
  {
    var pairs := iset s: R.State, v: O.View | P.StandsFor(h, st.w, s, v) :: (s, v);
    var fr := P.FrameWith(h, st.w, pairs);
    var end := Standard(P.Ideal(h, st.w), trees, h.root, Start(h, st));
    StartGood(h, st, pairs);
    RoomLasts(h, trees, st);
    P.FlatAgrees(h, st.w, pairs);
    AgreeingRun(G.TableOps(h), P.Ideal(h, st.w), fr, trees, h.root, st, Start(h, st));
    var r := D.FindIncludes(G.TableOps(h), N.ContentsOf(trees), h.root, 0, N.ContentsOf(trees)[h.root], st);
    assert (r.st.w, end.w) in pairs;
    forall x: D.File | x in h.leaves && x !in r.st.searched ensures x !in r.st.w.g.finished { assert fr.unread(r.st.w, x); }
  }

  lemma RoomLasts(h: G.Host, trees: N.Trees, st: D.State<R.State>)
    requires N.AllWellNested(trees) && h.root in trees && Begins(h, st) && Conforms(h, trees, st) && HasRoom(h, trees, st)
    ensures S.Tame(P.Ideal(h, st.w), P.RulesOf(h, st.w), trees, h.root, trees[h.root], Start(h, st))
  {
    U.Lasts(h, st.w, trees, h.root, trees[h.root], Start(h, st));
  }

  lemma StartGood(h: G.Host, st: D.State<R.State>, pairs: iset<(R.State, O.View)>)
    requires Begins(h, st) && forall s: R.State, v: O.View :: (s, v) in pairs <==> P.StandsFor(h, st.w, s, v)
    ensures S.Near(P.FrameWith(h, st.w, pairs), st, Start(h, st)) && S.Good(P.FrameWith(h, st.w, pairs), st, h.root)
  {
    StartStands(h, st);
  }

  /**
   Over the real tables, for headers that include nothing: although lookups merge tables, the lines executed are those
   that one table of definitions gives, with the real conditions and macro values; the same files are read in the
   same order, and the same names are visible at the end with the same values.
   */
  lemma RootRuns(h: G.Host, trees: N.Trees, st: D.State<R.State>)
    requires P.FlatHost(h) && N.AllWellNested(trees) && h.root in trees && Begins(h, st) && Conforms(h, trees, st) && HasRoom(h, trees, st)
    ensures RunsAsOneTable(h, trees, st)
  {
    FlatStands(h, trees, st);
    OneTableRun(h.locate, P.LeftIn(h, st.w), trees, h.root, Start(h, st));
    var r := D.FindIncludes(G.TableOps(h), N.ContentsOf(trees), h.root, 0, N.ContentsOf(trees)[h.root], st);
    P.VisiblesAre(h, st.w, r.st.w, Standard(P.Ideal(h, st.w), trees, h.root, Start(h, st)).w);
  }

  // ---------- all command-line files ----------

  /** What the run of one command-line file leaves for the next. */
  ghost predicate AfterRun(h: G.Host, trees: N.Trees, st: D.State<R.State>, end: D.State<R.State>)
    requires h.root in trees && Begins(h, st)
  {
    && |end.w.vals| + DefinesLeft(trees, end.searched) <= |st.w.vals| + DefinesIn(trees, h.root) + DefinesLeft(trees, st.searched)
    && F.Flat(end.w, h.root, h.leaves) && G.Supplied(h, end.w) && P.Since(h, st.w, end.w)
    && forall x: D.File :: x in h.leaves && x !in end.searched ==> x !in end.w.g.finished
  }

  lemma RunLeaves(h: G.Host, trees: N.Trees, st: D.State<R.State>)
    requires P.FlatHost(h) && N.AllWellNested(trees) && h.root in trees && Begins(h, st) && Conforms(h, trees, st) && HasRoom(h, trees, st)
    ensures AfterRun(h, trees, st, D.FindIncludes(G.TableOps(h), N.ContentsOf(trees), h.root, 0, N.ContentsOf(trees)[h.root], st).st)
  {
    FlatStands(h, trees, st);
    U.MeaningMakes(h.locate, P.LeftIn(h, st.w), trees, h.root, trees[h.root], Start(h, st));
  }

  /** The files of the command line are new, and none is a header. */
  ghost predicate AllBegin(h: G.Host, roots: seq<D.File>, st: D.State<R.State>) {
    Distinct(roots) && forall k :: 0 <= k < |roots| ==> BeginsAt(h, roots[k], st)
  }

  ghost predicate BeginsAt(h: G.Host, root: D.File, st: D.State<R.State>) { Begins(h.(root := root), st) }

  ghost function OpsFor(h: G.Host): D.File -> D.Ops<R.State> { (root: D.File) => G.TableOps(h.(root := root)) }

  ghost predicate AllConform(h: G.Host, trees: N.Trees, roots: seq<D.File>, st: D.State<R.State>)
    decreases |roots|
  {
    roots == []
    || (roots[0] in trees && Begins(h.(root := roots[0]), st) && Conforms(h.(root := roots[0]), trees, st)
        && AllConform(h, trees, roots[1..], S.RunOne(OpsFor(h), N.ContentsOf(trees), roots[0], st)))
  }

  ghost predicate AllRun(h: G.Host, trees: N.Trees, roots: seq<D.File>, st: D.State<R.State>)
    decreases |roots|
  {
    roots == []
    || (roots[0] in trees && Begins(h.(root := roots[0]), st) && RunsAsOneTable(h.(root := roots[0]), trees, st)
        && AllRun(h, trees, roots[1..], S.RunOne(OpsFor(h), N.ContentsOf(trees), roots[0], st)))
  }

  function DefinesInAll(trees: N.Trees, roots: seq<D.File>): nat
    requires forall k :: 0 <= k < |roots| ==> roots[k] in trees
  {
    if roots == [] then 0 else DefinesIn(trees, roots[0]) + DefinesInAll(trees, roots[1..])
  }

  /** Memory suffices for all command-line files. */
  ghost predicate AllHaveRoom(h: G.Host, trees: N.Trees, roots: seq<D.File>, st: D.State<R.State>)
    requires forall k :: 0 <= k < |roots| ==> roots[k] in trees
  {
    U.Named(h, trees) && |st.w.vals| + DefinesInAll(trees, roots) + DefinesLeft(trees, st.searched) <= h.limit
  }

  lemma HostFor(h: G.Host, root: D.File)
    requires P.FlatHost(h)
    ensures P.FlatHost(h.(root := root))
  {
  }

  lemma NextBegins(h: G.Host, trees: N.Trees, root: D.File, next: D.File, st: D.State<R.State>, end: D.State<R.State>)
    requires N.AllWellNested(trees) && root in trees
    requires BeginsAt(h, root, st) && BeginsAt(h, next, st) && AfterRun(h.(root := root), trees, st, end) && next != root
    ensures BeginsAt(h, next, end)
  {
  }

  /**
   The whole run of main: each command-line file in turn, with the tables, marks and headers that those before it have
   left, runs as over one table of definitions of its own.
   */
  lemma {:induction false} RootsRun(h: G.Host, trees: N.Trees, roots: seq<D.File>, st: D.State<R.State>)
    requires P.FlatHost(h) && N.AllWellNested(trees) && AllBegin(h, roots, st) && AllConform(h, trees, roots, st)
    requires (forall k :: 0 <= k < |roots| ==> roots[k] in trees) && AllHaveRoom(h, trees, roots, st)
    ensures AllRun(h, trees, roots, st)
    decreases |roots|
  {
    if roots != [] {
      TurnDone(h, trees, roots, st);
      RootsRun(h, trees, roots[1..], S.RunOne(OpsFor(h), N.ContentsOf(trees), roots[0], st));
    }
  }

  lemma TurnDone(h: G.Host, trees: N.Trees, roots: seq<D.File>, st: D.State<R.State>)
    requires P.FlatHost(h) && N.AllWellNested(trees) && AllBegin(h, roots, st) && AllConform(h, trees, roots, st) && roots != []
    requires (forall k :: 0 <= k < |roots| ==> roots[k] in trees) && AllHaveRoom(h, trees, roots, st)
    ensures BeginsAt(h, roots[0], st) && RunsAsOneTable(h.(root := roots[0]), trees, st)
    ensures var next := S.RunOne(OpsFor(h), N.ContentsOf(trees), roots[0], st);
            AllBegin(h, roots[1..], next) && AllHaveRoom(h, trees, roots[1..], next) && AllConform(h, trees, roots[1..], next)
  {
    FirstRuns(h, trees, roots, st);
    RestIsReady(h, trees, roots, st);
  }

  lemma FirstRuns(h: G.Host, trees: N.Trees, roots: seq<D.File>, st: D.State<R.State>)
    requires P.FlatHost(h) && N.AllWellNested(trees) && AllConform(h, trees, roots, st) && roots != []
    requires (forall k :: 0 <= k < |roots| ==> roots[k] in trees) && AllHaveRoom(h, trees, roots, st)
    ensures BeginsAt(h, roots[0], st) && RunsAsOneTable(h.(root := roots[0]), trees, st)
    ensures AfterRun(h.(root := roots[0]), trees, st, S.RunOne(OpsFor(h), N.ContentsOf(trees), roots[0], st))
  {
    OneRootRuns(h, trees, roots[0], st);
  }

  lemma RestIsReady(h: G.Host, trees: N.Trees, roots: seq<D.File>, st: D.State<R.State>)
    requires N.AllWellNested(trees) && AllBegin(h, roots, st) && AllConform(h, trees, roots, st) && roots != []
    requires (forall k :: 0 <= k < |roots| ==> roots[k] in trees) && AllHaveRoom(h, trees, roots, st)
    requires AfterRun(h.(root := roots[0]), trees, st, S.RunOne(OpsFor(h), N.ContentsOf(trees), roots[0], st))
    ensures var next := S.RunOne(OpsFor(h), N.ContentsOf(trees), roots[0], st);
            AllBegin(h, roots[1..], next) && AllHaveRoom(h, trees, roots[1..], next) && AllConform(h, trees, roots[1..], next)
  {
    RestBegins(h, trees, roots, st, S.RunOne(OpsFor(h), N.ContentsOf(trees), roots[0], st));
  }

  lemma OneRootRuns(h: G.Host, trees: N.Trees, root: D.File, st: D.State<R.State>)
    requires P.FlatHost(h) && N.AllWellNested(trees) && root in trees && Begins(h.(root := root), st)
            && Conforms(h.(root := root), trees, st)
    requires HasRoom(h.(root := root), trees, st)
    ensures RunsAsOneTable(h.(root := root), trees, st)
    ensures AfterRun(h.(root := root), trees, st, S.RunOne(OpsFor(h), N.ContentsOf(trees), root, st))
  {
    HostFor(h, root);
    RootRuns(h.(root := root), trees, st);
    RunLeaves(h.(root := root), trees, st);
    RunOneIs(h, trees, root, st);
  }

  lemma RunOneIs(h: G.Host, trees: N.Trees, root: D.File, st: D.State<R.State>)
    requires root in trees
    ensures S.RunOne(OpsFor(h), N.ContentsOf(trees), root, st)
            == D.FindIncludes(G.TableOps(h.(root := root)), N.ContentsOf(trees), root, 0, N.ContentsOf(trees)[root], st).st
  {
    assert OpsFor(h)(root) == G.TableOps(h.(root := root));
  }

  lemma RestBegins(h: G.Host, trees: N.Trees, roots: seq<D.File>, st: D.State<R.State>, next: D.State<R.State>)
    requires N.AllWellNested(trees) && roots != [] && roots[0] in trees
    requires AllBegin(h, roots, st) && BeginsAt(h, roots[0], st) && AfterRun(h.(root := roots[0]), trees, st, next)
    ensures AllBegin(h, roots[1..], next)
  {
    forall k | 1 <= k < |roots| ensures BeginsAt(h, roots[k], next) {
      assert BeginsAt(h, roots[k], st);
      NextBegins(h, trees, roots[0], roots[k], st, next);
    }
    Later(h, roots, next);
  }

  lemma Later(h: G.Host, roots: seq<D.File>, st: D.State<R.State>)
    requires roots != [] && Distinct(roots) && forall k :: 1 <= k < |roots| ==> BeginsAt(h, roots[k], st)
    ensures AllBegin(h, roots[1..], st)
  {
    forall k | 0 <= k < |roots[1..]| ensures BeginsAt(h, roots[1..][k], st) { assert BeginsAt(h, roots[k + 1], st); }
  }

  /**
   Such a supply of cells can be had for every program: any number of cells, for any names, none of them in use.  `h` is
   the program before it has one.
   */
  method WithSupply(h: G.Host, trees: N.Trees, roots: seq<D.File>, names: set<CString>, limit: nat, ghost st: D.State<R.State>)
    returns (h': G.Host)
    requires h.limit == 0 && P.FlatHost(h) && N.AllWellNested(trees) && AllBegin(h, roots, st)
    requires forall k :: 0 <= k < |roots| ==> roots[k] in trees
    requires forall f, n :: f in trees && n in U.DefinesIn(trees[f]) ==> n in names
    requires |st.w.vals| + DefinesInAll(trees, roots) + DefinesLeft(trees, st.searched) <= limit
    ensures h' == h.(cell := h'.cell, names := names, limit := limit)
    ensures P.FlatHost(h') && AllBegin(h', roots, st) && AllHaveRoom(h', trees, roots, st)
    ensures AllConform(h', trees, roots, st) ==> AllRun(h', trees, roots, st)
  {
    var cell := U.Allocate(names, limit);
    h' := h.(cell := cell, names := names, limit := limit);
    SuppliedRuns(h, h', trees, roots, st);
  }

  lemma SuppliedRuns(h: G.Host, h': G.Host, trees: N.Trees, roots: seq<D.File>, st: D.State<R.State>)
    requires P.FlatHost(h) && h' == h.(cell := h'.cell, names := h'.names, limit := h'.limit) && G.IsSupply(h') && G.Supplied(h', st.w)
    requires N.AllWellNested(trees) && AllBegin(h, roots, st)
    requires (forall k :: 0 <= k < |roots| ==> roots[k] in trees) && AllHaveRoom(h', trees, roots, st)
    ensures P.FlatHost(h') && AllBegin(h', roots, st)
    ensures AllConform(h', trees, roots, st) ==> AllRun(h', trees, roots, st)
  {
    forall k | 0 <= k < |roots| ensures BeginsAt(h', roots[k], st) {
      assert BeginsAt(h, roots[k], st);
    }
    if AllConform(h', trees, roots, st) { RootsRun(h', trees, roots, st); }
  }
}
