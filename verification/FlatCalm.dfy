/**
 Programs whose headers include nothing and that keep the constraint on defining a macro again stay calm: for them the
 result about headers nested in any way asks for nothing more.
 */
module FlatCalm {
  import opened CStrings
  import opened LookupSpec
  import opened SymbolTable
  import opened AliasChain
  import opened Cppsetup
  import opened DirectiveText
  import opened OneTable
  import opened GraphOps
  import opened FlatOps
  import opened FlatRuns
  import opened NestedOps
  import opened Directives
  import opened Nesting
  import G = FlatGraph
  import Q = NestedRuns
  import R = Runs
  import S = Selection
  import T = TablesAsOne

  // ---------- each operation ----------

  lemma {:induction false} FlatHarmless(h: Host, s0: R.State, s: R.State, v: View, names: seq<CString>)
    requires StandsFor(h, s0, s, v)
    ensures AllHarmless(s, h.root, names)
    decreases |names|
  {
    G.FlatSettled(s, h.root, h.leaves);
    if names != [] {
      LookStands(h, s0, s, v, names[0]);
      FlatHarmless(h, s0, R.Perform(s, R.Look(names[0], h.root)), v, names[1..]);
    }
  }

  lemma DefineCalm(h: Host, s0: R.State, s: R.State, v: View, f: File, d: string)
    requires IsSupply(h) && StandsFor(h, s0, s, v) && IsRead(h, s, f) && MayDefine(v, d) && HasCell(h, s0, v, d)
    ensures DefinesWell(h, s, v, f, d)
  {
    ReadIsSeen(h, s, f);
    var name := AsName(ParseDefine(d).0);
    if Holds(s.w.tables[f], name) {
      EntryFits(s, h.root, v.defs, f, name);
    } else {
      NewCellFits(h, s, f, d);
    }
  }

  lemma IncludeCalm(h: Host, s0: R.State, s: R.State, v: View, c: File)
    requires StandsFor(h, s0, s, v) && c in h.leaves && MayJoin(v, LeftIn(h, s0), c)
    ensures JoinsWell(h, s, v, LeftIn(h, s0), h.root, c)
  {
    if c in s.g.lists[h.root] {
      var i :| 0 <= i < |s.g.lists[h.root]| && s.g.lists[h.root][i] == c;
      assert G.IsChild(s.g, h.root, c);
    } else {
      assert c !in v.included;
      LeafIsLeft(h, s0, s, v, c);
      NewIsCalm(h, s, v, LeftIn(h, s0), c);
    }
  }

  lemma NewIsCalm(h: Host, s: R.State, v: View, left: map<File, Defs>, c: File)
    requires G.Flat(s, h.root, h.leaves) && c in h.leaves && c !in s.g.lists[h.root] && c !in v.included && MayJoin(v, left, c)
    requires T.MadeOf(s.w, T.Seen(s.g, s.w, c), T.Fitting(s.vals, v.defs + Left(left, c)))
    requires forall x :: x in Left(left, c) ==> AsName(x) == x && R.Sees(s, c, AsName(x))
    ensures JoinsWell(h, s, v, left, h.root, c)
  {
    Here(s.g, s.w, h.root);
  }

  // ---------- the run ----------

  /** As for the tables alone, with the watch beside them calm. */
  ghost function CalmFrame(h: Host, s0: R.State, calm: iset<(Watched, View)>): S.Frame<Watched, View> {
    S.Frame(calm, (w: Watched, f: File) => IsRead(h, w.s, f), (w: Watched, f: File) => f in h.leaves ==> f !in w.s.g.finished,
            RulesOf(h, s0), h.root)
  }

  /** What is being read still is, and what could be read still can. */
  ghost predicate GoesOn(h: Host, w: Watched, w': Watched) {
    w'.s.g.finished == w.s.g.finished && forall f: File :: IsRead(h, w.s, f) ==> IsRead(h, w'.s, f)
  }

  ghost predicate IsCalm(h: Host, s0: R.State, w: Watched, v: View) { w.calm && w.v == v && StandsFor(h, s0, w.s, v) }

  lemma TruthsCalm(h: Host, s0: R.State, calm: iset<(Watched, View)>)
    requires forall w: Watched, v: View :: (w, v) in calm <==> IsCalm(h, s0, w, v)
    ensures var ops, ideal, fr := WatchOps(h, LeftIn(h, s0)), Ideal(h, s0), CalmFrame(h, s0, calm);
            forall p, e: string :: p in fr.pairs ==>
              ops.truth(p.0, e).0 == ideal.truth(p.1, e).0 && S.Unnoticed(fr, p.0, p.1, ops.truth(p.0, e).1)
  {
    var ops, ideal, fr := WatchOps(h, LeftIn(h, s0)), Ideal(h, s0), CalmFrame(h, s0, calm);
    forall p, e: string | p in fr.pairs
      ensures ops.truth(p.0, e).0 == ideal.truth(p.1, e).0 && S.Unnoticed(fr, p.0, p.1, ops.truth(p.0, e).1)
    {
      assert (p.0, p.1) in calm;
      TruthCalm(h, s0, p.0, p.1, e);
    }
  }

  lemma DefinedsCalm(h: Host, s0: R.State, calm: iset<(Watched, View)>)
    requires forall w: Watched, v: View :: (w, v) in calm <==> IsCalm(h, s0, w, v)
    ensures var ops, ideal, fr := WatchOps(h, LeftIn(h, s0)), Ideal(h, s0), CalmFrame(h, s0, calm);
            forall p, n: string :: p in fr.pairs ==>
              ops.isDefined(p.0, n).0 == ideal.isDefined(p.1, n).0 && S.Unnoticed(fr, p.0, p.1, ops.isDefined(p.0, n).1)
  {
    var ops, ideal, fr := WatchOps(h, LeftIn(h, s0)), Ideal(h, s0), CalmFrame(h, s0, calm);
    forall p, n: string | p in fr.pairs
      ensures ops.isDefined(p.0, n).0 == ideal.isDefined(p.1, n).0 && S.Unnoticed(fr, p.0, p.1, ops.isDefined(p.0, n).1)
    {
      assert (p.0, p.1) in calm;
      DefinedCalm(h, s0, p.0, p.1, n);
    }
  }

  lemma TruthCalm(h: Host, s0: R.State, w: Watched, v: View, e: string)
    requires IsCalm(h, s0, w, v)
    ensures var r := WatchTruth(h, w, e); r.0 == IsTrue(v.defs, e) && IsCalm(h, s0, r.1, v) && r.1.s.g == w.s.g
  {
    VisiblesAre(h, s0, w.s, v);
    FlatHarmless(h, s0, w.s, v, h.asks(e, v.defs));
    LookAllStands(h, s0, w.s, v, h.asks(e, v.defs));
  }

  lemma DefinedCalm(h: Host, s0: R.State, w: Watched, v: View, n: string)
    requires IsCalm(h, s0, w, v)
    ensures var r := WatchDefined(h, w, n); r.0 == (AsName(n) in v.defs) && IsCalm(h, s0, r.1, v) && r.1.s.g == w.s.g
  {
    T.StandsFinds(w.s, h.root, v.defs, AsName(n));
    G.FlatSettled(w.s, h.root, h.leaves);
    LookStands(h, s0, w.s, v, AsName(n));
  }

  lemma NamesCalm(h: Host, s0: R.State, calm: iset<(Watched, View)>)
    requires forall w: Watched, v: View :: (w, v) in calm <==> IsCalm(h, s0, w, v)
    ensures S.NamesAgree(WatchOps(h, LeftIn(h, s0)), Ideal(h, s0), CalmFrame(h, s0, calm))
  {
    var ops, ideal, fr := WatchOps(h, LeftIn(h, s0)), Ideal(h, s0), CalmFrame(h, s0, calm);
    forall p, f: File, t: string | p in fr.pairs
      ensures var r, u := ops.includeName(p.0, f, t), ideal.includeName(p.1, f, t);
              r.0 == u.0 && (r.1, u.1) in fr.pairs && S.Lives(fr, p.0, r.1)
    {
      assert (p.0, p.1) in calm;
      NameCalm(h, s0, p.0, p.1, t);
    }
  }

  lemma NameCalm(h: Host, s0: R.State, w: Watched, v: View, t: string)
    requires IsCalm(h, s0, w, v)
    ensures var r := WatchName(h, w, t); r.0 == ParseInclude(End(v.defs, t)) && IsCalm(h, s0, r.1, v) && r.1.s.g == w.s.g
  {
    VisiblesAre(h, s0, w.s, v);
    FlatHarmless(h, s0, w.s, v, h.refers(t, v.defs));
    LookAllStands(h, s0, w.s, v, h.refers(t, v.defs));
  }

  lemma DefineIsCalm(h: Host, s0: R.State, w: Watched, v: View, f: File, d: string)
    requires FlatHost(h) && IsCalm(h, s0, w, v) && IsRead(h, w.s, f) && MayDefine(v, d) && HasCell(h, s0, v, d)
    ensures var w' := WatchOps(h, LeftIn(h, s0)).define(w, f, d); IsCalm(h, s0, w', Defined(v, d)) && GoesOn(h, w, w')
  {
    DefineCalm(h, s0, w.s, v, f, d);
    DefineStands(h, s0, w.s, v, f, d);
    DefineLives(h, w.s, DefineOp(h, w.s, f, d));
  }

  lemma DefinesCalm(h: Host, s0: R.State, calm: iset<(Watched, View)>)
    requires FlatHost(h) && forall w: Watched, v: View :: (w, v) in calm <==> IsCalm(h, s0, w, v)
    ensures S.DefinesAgree(WatchOps(h, LeftIn(h, s0)), Ideal(h, s0), CalmFrame(h, s0, calm))
  {
    var ops, ideal, fr := WatchOps(h, LeftIn(h, s0)), Ideal(h, s0), CalmFrame(h, s0, calm);
    forall p, f: File, d: string | p in fr.pairs && fr.reading(p.0, f) && fr.rules.fits(p.1, f, d)
      ensures (ops.define(p.0, f, d), ideal.define(p.1, f, d)) in fr.pairs && S.Lives(fr, p.0, ops.define(p.0, f, d))
    {
      assert (p.0, p.1) in calm;
      DefineAgrees(h, s0, calm, p.0, p.1, f, d);
    }
  }

  lemma DefineAgrees(h: Host, s0: R.State, calm: iset<(Watched, View)>, w: Watched, v: View, f: File, d: string)
    requires FlatHost(h) && (forall w: Watched, v: View :: (w, v) in calm <==> IsCalm(h, s0, w, v)) && (w, v) in calm
    requires IsRead(h, w.s, f) && MayDefine(v, d) && HasCell(h, s0, v, d)
    ensures var w' := WatchOps(h, LeftIn(h, s0)).define(w, f, d);
            (w', Ideal(h, s0).define(v, f, d)) in calm && S.Lives(CalmFrame(h, s0, calm), w, w')
  {
    DefineIsCalm(h, s0, w, v, f, d);
  }

  lemma UndefineIsCalm(h: Host, s0: R.State, w: Watched, v: View, n: string)
    requires IsCalm(h, s0, w, v)
    ensures var w' := WatchOps(h, LeftIn(h, s0)).undefine(w, n); IsCalm(h, s0, w', Undefined(v, n)) && GoesOn(h, w, w')
  {
    G.FlatSettled(w.s, h.root, h.leaves);
    UndefineStands(h, s0, w.s, v, AsName(n));
    UndefineLives(h, w.s, AsName(n));
  }

  lemma UndefinesCalm(h: Host, s0: R.State, calm: iset<(Watched, View)>)
    requires forall w: Watched, v: View :: (w, v) in calm <==> IsCalm(h, s0, w, v)
    ensures S.UndefinesAgree(WatchOps(h, LeftIn(h, s0)), Ideal(h, s0), CalmFrame(h, s0, calm))
  {
    var ops, ideal, fr := WatchOps(h, LeftIn(h, s0)), Ideal(h, s0), CalmFrame(h, s0, calm);
    forall p, n: string | p in fr.pairs
      ensures (ops.undefine(p.0, n), ideal.undefine(p.1, n)) in fr.pairs && S.Lives(fr, p.0, ops.undefine(p.0, n))
    {
      assert (p.0, p.1) in calm;
      UndefineIsCalm(h, s0, p.0, p.1, n);
    }
  }

  lemma FinishIsCalm(h: Host, s0: R.State, w: Watched, v: View, f: File)
    requires IsCalm(h, s0, w, v)
    ensures IsCalm(h, s0, WatchOps(h, LeftIn(h, s0)).finish(w, f), v)
  {
    FinishStands(h, s0, w.s, v, f);
  }

  lemma FinishesCalm(h: Host, s0: R.State, calm: iset<(Watched, View)>)
    requires forall w: Watched, v: View :: (w, v) in calm <==> IsCalm(h, s0, w, v)
    ensures S.FinishesAgree(WatchOps(h, LeftIn(h, s0)), Ideal(h, s0), CalmFrame(h, s0, calm))
  {
    var ops, ideal, fr := WatchOps(h, LeftIn(h, s0)), Ideal(h, s0), CalmFrame(h, s0, calm);
    forall p, f: File | p in fr.pairs ensures (ops.finish(p.0, f), ideal.finish(p.1, f)) in fr.pairs {
      assert (p.0, p.1) in calm;
      FinishIsCalm(h, s0, p.0, p.1, f);
    }
    FinishesLive(h, s0, calm);
  }

  lemma FinishesLive(h: Host, s0: R.State, calm: iset<(Watched, View)>)
    requires forall w: Watched, v: View :: (w, v) in calm ==> IsCalm(h, s0, w, v)
    ensures var ops, fr := WatchOps(h, LeftIn(h, s0)), CalmFrame(h, s0, calm);
            && (forall p, f: File, x: File :: p in fr.pairs && (x != f || x == fr.root) && fr.reading(p.0, x) ==>
                  fr.reading(ops.finish(p.0, f), x))
            && (forall p, f: File, x: File :: p in fr.pairs && x != f && fr.unread(p.0, x) ==> fr.unread(ops.finish(p.0, f), x))
  {
    forall p, f: File, x: File | p in calm { FinishLives(h, p.0.s, f, x); }
  }

  lemma ResolveIsCalm(h: Host, s0: R.State, w: Watched, v: View, f: File, n: string, q: bool)
    requires FlatHost(h) && IsCalm(h, s0, w, v) && Joins(h, s0, v, f, n, q)
    ensures var r, u := S.Resolve(WatchOps(h, LeftIn(h, s0)), w, f, n, q), S.Resolve(Ideal(h, s0), v, f, n, q);
            && r.0 == u.0 && IsCalm(h, s0, r.1, u.1) && GoesOn(h, w, r.1)
            && (r.0.Some? ==> r.0.value in h.leaves && (r.0.value !in w.s.g.finished ==> IsRead(h, r.1.s, r.0.value)))
  {
    ResolveDoes(h, s0, w.s, v, f, n, q);
    if h.locate(f, n, q).Some? { IncludeCalm(h, s0, w.s, v, h.locate(f, n, q).value); }
  }

  lemma ResolveCalm(h: Host, s0: R.State, calm: iset<(Watched, View)>, w: Watched, v: View, f: File, n: string, q: bool)
    requires FlatHost(h) && (forall w: Watched, v: View :: (w, v) in calm <==> IsCalm(h, s0, w, v)) && (w, v) in calm
    requires Joins(h, s0, v, f, n, q)
    ensures var fr, r, u := CalmFrame(h, s0, calm), S.Resolve(WatchOps(h, LeftIn(h, s0)), w, f, n, q), S.Resolve(Ideal(h, s0), v, f, n, q);
            && r.0 == u.0 && (r.1, u.1) in calm && S.Lives(fr, w, r.1)
            && (r.0.Some? && fr.unread(w, r.0.value) ==> fr.reading(r.1, r.0.value))
  {
    ResolveIsCalm(h, s0, w, v, f, n, q);
  }

  lemma ResolvesCalm(h: Host, s0: R.State, calm: iset<(Watched, View)>)
    requires FlatHost(h) && forall w: Watched, v: View :: (w, v) in calm <==> IsCalm(h, s0, w, v)
    ensures S.ResolvesAgree(WatchOps(h, LeftIn(h, s0)), Ideal(h, s0), CalmFrame(h, s0, calm))
  {
    var ops, ideal, fr := WatchOps(h, LeftIn(h, s0)), Ideal(h, s0), CalmFrame(h, s0, calm);
    forall p, f: File, n: string, q: bool | p in fr.pairs && fr.rules.joins(p.1, f, n, q)
      ensures var r, u := S.Resolve(ops, p.0, f, n, q), S.Resolve(ideal, p.1, f, n, q);
              && r.0 == u.0 && (r.1, u.1) in fr.pairs && S.Lives(fr, p.0, r.1)
              && (r.0.Some? && fr.unread(p.0, r.0.value) ==> fr.reading(r.1, r.0.value))
    {
      assert (p.0, p.1) in calm;
      ResolveCalm(h, s0, calm, p.0, p.1, f, n, q);
    }
  }

  lemma CalmAgrees(h: Host, s0: R.State, calm: iset<(Watched, View)>)
    requires FlatHost(h) && forall w: Watched, v: View :: (w, v) in calm <==> IsCalm(h, s0, w, v)
    ensures S.Agree(WatchOps(h, LeftIn(h, s0)), Ideal(h, s0), CalmFrame(h, s0, calm))
  {
    TruthsCalm(h, s0, calm);
    DefinedsCalm(h, s0, calm);
    NamesCalm(h, s0, calm);
    DefinesCalm(h, s0, calm);
    UndefinesCalm(h, s0, calm);
    FinishesCalm(h, s0, calm);
    ResolvesCalm(h, s0, calm);
  }

  /** So the condition for headers nested in any way holds. */
  lemma FlatStaysCalm(h: Host, trees: Trees, st: State<R.State>)
    requires FlatHost(h) && AllWellNested(trees) && h.root in trees && Begins(h, st) && Conforms(h, trees, st) && HasRoom(h, trees, st)
    ensures Q.StaysCalm(h, LeftIn(h, st.w), trees, st, Start(h, st).w)
  {
    var left, v := LeftIn(h, st.w), Start(h, st).w;
    var calm := iset w: Watched, v: View | IsCalm(h, st.w, w, v) :: (w, v);
    var fr, begin := CalmFrame(h, st.w, calm), Q.Watching(st, v);
    StartStands(h, st);
    RoomLasts(h, trees, st);
    CalmAgrees(h, st.w, calm);
    assert (begin.w, v) in calm;
    AgreeingRun(WatchOps(h, left), Ideal(h, st.w), fr, trees, h.root, begin, Start(h, st));
    var r := Q.RunOf(WatchOps(h, left), trees, h.root, begin);
    assert (r.st.w, Standard(Ideal(h, st.w), trees, h.root, Start(h, st)).w) in calm;
  }
}
