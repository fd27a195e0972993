/**
 The engine of conditionals over the real symbol tables, watched: beside the tables runs one table of definitions, and a flag
 says whether the two still have to agree, however deep headers are nested.
 */
module NestedOps {
  import opened CStrings
  import opened LookupSpec
  import opened Runs
  import opened AliasChain
  import opened Cppsetup
  import opened DirectiveText
  import opened OneTable
  import opened GraphOps
  import opened TablesAsOne
  import D = Directives
  import S = Selection

  /** The tables, the one table, and whether nothing has happened that can part them. */
  datatype Watched = Watched(s: State, v: View, calm: bool)

  // ---------- what parts the tables from the one table ----------

  /** None of the lookups hides anything. */
  ghost predicate AllHarmless(s: State, root: File, names: seq<CString>)
    requires Ready(s, root)
    decreases |names|
  {
    names == [] || (Harmless(s, root, names[0]) && AllHarmless(Perform(s, Look(names[0], root)), root, names[1..]))
  }

  /** The file is one that counts, its cell is its own or new, and the macro is defined as it is if it is defined. */
  ghost predicate DefinesWell(h: Host, s: State, v: View, f: File, d: string) {
    var op := DefineOp(h, s, f, d);
    && Ready(s, h.root) && f in Seen(s.g, s.w, h.root) && Fits(s, op) && op.cell.name == AsName(ParseDefine(d).0) && MayDefine(v, d)
  }

  /** What is seen from the file included is what it is said to bring, and does not change what is defined. */
  ghost predicate JoinsWell(h: Host, s: State, v: View, left: map<File, Defs>, f: File, c: File) {
    var now := WithHeader(v, left, c).defs;
    && Ready(s, h.root) && Fits(s, Include(f, c))
    && if c in s.g.lists[f] then now == v.defs
       else
         && Reaches(s.g, s.w, h.root, f) && MadeOf(s.w, Seen(s.g, s.w, c), Fitting(s.vals, now)) && Within(v.defs, now)
         && forall x :: x in now && x !in v.defs ==> AsName(x) == x && Sees(s, c, AsName(x))
  }

  // ---------- the operations ----------

  ghost function WatchTruth(h: Host, w: Watched, e: string): (bool, Watched) {
    if w.calm && Ready(w.s, h.root)
    then (Truth(h, w.s, e).0, w.(s := Truth(h, w.s, e).1, calm := AllHarmless(w.s, h.root, h.asks(e, Visibles(w.s, h.root)))))
    else (IsTrue(w.v.defs, e), w.(calm := false))
  }

  ghost function WatchDefined(h: Host, w: Watched, n: string): (bool, Watched) {
    if w.calm && Ready(w.s, h.root)
    then (IsDefinedIn(h, w.s, n).0, w.(s := IsDefinedIn(h, w.s, n).1, calm := Harmless(w.s, h.root, AsName(n))))
    else (AsName(n) in w.v.defs, w.(calm := false))
  }

  ghost function WatchName(h: Host, w: Watched, t: string): (D.IncludeName, Watched) {
    if w.calm && Ready(w.s, h.root)
    then (IncludeName(h, w.s, t).0, w.(s := IncludeName(h, w.s, t).1, calm := AllHarmless(w.s, h.root, h.refers(t, Visibles(w.s, h.root)))))
    else (D.ParseInclude(End(w.v.defs, t)), w.(calm := false))
  }

  /** As long as it is calm the real tables answer. */
  ghost function WatchOps(h: Host, left: map<File, Defs>): D.Ops<Watched> {
    D.Ops(
      (w: Watched, e: string) => WatchTruth(h, w, e),
      (w: Watched, n: string) => WatchDefined(h, w, n),
      (w: Watched, f: File, d: string) =>
        Watched(Do(w.s, DefineOp(h, w.s, f, d)), Defined(w.v, d), w.calm && DefinesWell(h, w.s, w.v, f, d)),
      (w: Watched, n: string) =>
        Watched(Do(w.s, Undef(AsName(n), h.root)), Undefined(w.v, n),
                w.calm && Ready(w.s, h.root) && Calm(w.s, h.root, AsName(n))),
      (w: Watched, f: File, t: string) => WatchName(h, w, t),
      (w: Watched, f: File, n: string, quoted: bool) => (h.locate(f, n, quoted), w),
      (w: Watched, f: File, c: File) =>
        Watched(Do(w.s, Include(f, c)), WithHeader(w.v, left, c), w.calm && JoinsWell(h, w.s, w.v, left, f, c)),
      (w: Watched, f: File) => w.(s := Do(w.s, Finish(f))))
  }

  // ---------- while it is calm the tables stand for the one table ----------

  ghost predicate StaysOne(h: Host, w: Watched) { w.calm ==> w.s.Ok() && Stands(w.s, h.root, w.v.defs) }

  lemma {:induction false} LooksStand(s: State, root: File, defs: Defs, names: seq<CString>)
    requires s.Ok() && Stands(s, root, defs) && AllHarmless(s, root, names)
    ensures Stands(LookAll(s, root, names), root, defs)
    decreases |names|
  {
    if names != [] {
      LookStands(s, root, defs, names[0]);
      LooksStand(Perform(s, Look(names[0], root)), root, defs, names[1..]);
    }
  }

  lemma TruthStays(h: Host, w: Watched, e: string)
    requires StaysOne(h, w)
    ensures WatchTruth(h, w, e).0 == IsTrue(w.v.defs, e) && WatchTruth(h, w, e).1.v == w.v && StaysOne(h, WatchTruth(h, w, e).1)
  {
    if w.calm {
      StandsAnswers(w.s, h.root, w.v.defs);
      if WatchTruth(h, w, e).1.calm { LooksStand(w.s, h.root, w.v.defs, h.asks(e, Visibles(w.s, h.root))); }
    }
  }

  lemma DefinedStays(h: Host, w: Watched, n: string)
    requires StaysOne(h, w)
    ensures WatchDefined(h, w, n).0 == (AsName(n) in w.v.defs) && WatchDefined(h, w, n).1.v == w.v && StaysOne(h, WatchDefined(h, w, n).1)
  {
    if w.calm {
      StandsFinds(w.s, h.root, w.v.defs, AsName(n));
      if WatchDefined(h, w, n).1.calm { LookStands(w.s, h.root, w.v.defs, AsName(n)); }
    }
  }

  lemma NameStays(h: Host, w: Watched, t: string)
    requires StaysOne(h, w)
    ensures WatchName(h, w, t).0 == D.ParseInclude(End(w.v.defs, t)) && WatchName(h, w, t).1.v == w.v && StaysOne(h, WatchName(h, w, t).1)
  {
    if w.calm {
      StandsAnswers(w.s, h.root, w.v.defs);
      if WatchName(h, w, t).1.calm { LooksStand(w.s, h.root, w.v.defs, h.refers(t, Visibles(w.s, h.root))); }
    }
  }

  lemma DefineStays(h: Host, left: map<File, Defs>, w: Watched, f: File, d: string)
    requires StaysOne(h, w)
    ensures StaysOne(h, WatchOps(h, left).define(w, f, d)) && WatchOps(h, left).define(w, f, d).v == Defined(w.v, d)
  {
    if w.calm && DefinesWell(h, w.s, w.v, f, d) {
      var op := DefineOp(h, w.s, f, d);
      DefineStands(w.s, h.root, w.v.defs, op.cell, op.value, f);
    }
  }

  lemma UndefineStays(h: Host, left: map<File, Defs>, w: Watched, n: string)
    requires StaysOne(h, w)
    ensures StaysOne(h, WatchOps(h, left).undefine(w, n))
    ensures WatchOps(h, left).undefine(w, n).v == Undefined(w.v, n)
  {
    if w.calm && Calm(w.s, h.root, AsName(n)) {
      assert Do(w.s, Undef(AsName(n), h.root)) == Perform(w.s, Undef(AsName(n), h.root));
      UndefineStands(w.s, h.root, w.v.defs, AsName(n));
    }
  }

  lemma IncludeStays(h: Host, left: map<File, Defs>, w: Watched, f: File, c: File)
    requires StaysOne(h, w)
    ensures StaysOne(h, WatchOps(h, left).includedBy(w, f, c))
  {
    if w.calm && JoinsWell(h, w.s, w.v, left, f, c) && c !in w.s.g.lists[f] {
      IncludeStands(w.s, h.root, w.v.defs, f, c, WithHeader(w.v, left, c).defs);
    }
  }

  lemma FinishStays(h: Host, left: map<File, Defs>, w: Watched, f: File)
    requires StaysOne(h, w)
    ensures StaysOne(h, WatchOps(h, left).finish(w, f))
  {
    if w.calm && f < |w.s.g.lists| { FinishStands(w.s, h.root, w.v.defs, f); }
  }

  // ---------- so they agree ----------

  ghost predicate Pair(h: Host, w: Watched, v: View) { w.v == v && StaysOne(h, w) }

  ghost function FrameOf(h: Host, pairs: iset<(Watched, View)>): S.Frame<Watched, View> {
    S.Frame(pairs, (w: Watched, f: File) => true, (w: Watched, f: File) => true,
            S.Rules((v: View, f: File, d: string) => true, (v: View, f: File, n: string, q: bool) => true), h.root)
  }

  lemma TruthAgrees(h: Host, left: map<File, Defs>, pairs: iset<(Watched, View)>, w: Watched, v: View, e: string)
    requires (forall w: Watched, v: View :: (w, v) in pairs <==> Pair(h, w, v)) && (w, v) in pairs
    ensures var r := WatchOps(h, left).truth(w, e); r.0 == TheOps(h.locate, left).truth(v, e).0 && (r.1, v) in pairs
  {
    TruthStays(h, w, e);
    assert Pair(h, WatchTruth(h, w, e).1, v);
  }

  lemma DefinedAgrees(h: Host, left: map<File, Defs>, pairs: iset<(Watched, View)>, w: Watched, v: View, n: string)
    requires (forall w: Watched, v: View :: (w, v) in pairs <==> Pair(h, w, v)) && (w, v) in pairs
    ensures var r := WatchOps(h, left).isDefined(w, n); r.0 == TheOps(h.locate, left).isDefined(v, n).0 && (r.1, v) in pairs
  {
    DefinedStays(h, w, n);
    assert Pair(h, WatchDefined(h, w, n).1, v);
  }

  lemma NameAgrees(h: Host, left: map<File, Defs>, pairs: iset<(Watched, View)>, w: Watched, v: View, f: File, t: string)
    requires (forall w: Watched, v: View :: (w, v) in pairs <==> Pair(h, w, v)) && (w, v) in pairs
    ensures var r := WatchOps(h, left).includeName(w, f, t);
            r.0 == TheOps(h.locate, left).includeName(v, f, t).0
            && (r.1, TheOps(h.locate, left).includeName(v, f, t).1) in pairs
  {
    NameStays(h, w, t);
    assert Pair(h, WatchName(h, w, t).1, v);
  }

  lemma TruthsAgree(h: Host, left: map<File, Defs>, pairs: iset<(Watched, View)>)
    requires forall w: Watched, v: View :: (w, v) in pairs <==> Pair(h, w, v)
    ensures var ops, one, fr := WatchOps(h, left), TheOps(h.locate, left), FrameOf(h, pairs);
            forall p, e: string :: p in fr.pairs ==>
              ops.truth(p.0, e).0 == one.truth(p.1, e).0 && S.Unnoticed(fr, p.0, p.1, ops.truth(p.0, e).1)
  {
    var ops, one, fr := WatchOps(h, left), TheOps(h.locate, left), FrameOf(h, pairs);
    forall p, e: string | p in fr.pairs
      ensures ops.truth(p.0, e).0 == one.truth(p.1, e).0 && S.Unnoticed(fr, p.0, p.1, ops.truth(p.0, e).1)
    {
      assert (p.0, p.1) in pairs;
      TruthAgrees(h, left, pairs, p.0, p.1, e);
    }
  }

  lemma DefinedsAgree(h: Host, left: map<File, Defs>, pairs: iset<(Watched, View)>)
    requires forall w: Watched, v: View :: (w, v) in pairs <==> Pair(h, w, v)
    ensures var ops, one, fr := WatchOps(h, left), TheOps(h.locate, left), FrameOf(h, pairs);
            forall p, n: string :: p in fr.pairs ==>
              ops.isDefined(p.0, n).0 == one.isDefined(p.1, n).0 && S.Unnoticed(fr, p.0, p.1, ops.isDefined(p.0, n).1)
  {
    var ops, one, fr := WatchOps(h, left), TheOps(h.locate, left), FrameOf(h, pairs);
    forall p, n: string | p in fr.pairs
      ensures ops.isDefined(p.0, n).0 == one.isDefined(p.1, n).0 && S.Unnoticed(fr, p.0, p.1, ops.isDefined(p.0, n).1)
    {
      assert (p.0, p.1) in pairs;
      DefinedAgrees(h, left, pairs, p.0, p.1, n);
    }
  }

  lemma OthersAgree(h: Host, left: map<File, Defs>, pairs: iset<(Watched, View)>)
    requires forall w: Watched, v: View :: (w, v) in pairs <==> Pair(h, w, v)
    ensures var ops, one, fr := WatchOps(h, left), TheOps(h.locate, left), FrameOf(h, pairs);
            && S.DefinesAgree(ops, one, fr) && S.UndefinesAgree(ops, one, fr) && S.FinishesAgree(ops, one, fr)
  {
    var ops, one := WatchOps(h, left), TheOps(h.locate, left);
    forall p, f: File, d: string | p in pairs ensures (ops.define(p.0, f, d), one.define(p.1, f, d)) in pairs {
      assert (p.0, p.1) in pairs;
      DefineStays(h, left, p.0, f, d);
    }
    forall p, n: string | p in pairs ensures (ops.undefine(p.0, n), one.undefine(p.1, n)) in pairs {
      assert (p.0, p.1) in pairs;
      UndefineStays(h, left, p.0, n);
    }
    forall p, f: File | p in pairs ensures (ops.finish(p.0, f), one.finish(p.1, f)) in pairs {
      assert (p.0, p.1) in pairs;
      FinishStays(h, left, p.0, f);
    }
  }

  lemma NamesAgree(h: Host, left: map<File, Defs>, pairs: iset<(Watched, View)>)
    requires forall w: Watched, v: View :: (w, v) in pairs <==> Pair(h, w, v)
    ensures S.NamesAgree(WatchOps(h, left), TheOps(h.locate, left), FrameOf(h, pairs))
  {
    var ops, one := WatchOps(h, left), TheOps(h.locate, left);
    forall p, f: File, t: string | p in pairs
      ensures ops.includeName(p.0, f, t).0 == one.includeName(p.1, f, t).0
      ensures (ops.includeName(p.0, f, t).1, one.includeName(p.1, f, t).1) in pairs
    {
      assert (p.0, p.1) in pairs;
      NameAgrees(h, left, pairs, p.0, p.1, f, t);
    }
  }

  lemma ResolvesAgree(h: Host, left: map<File, Defs>, pairs: iset<(Watched, View)>)
    requires forall w: Watched, v: View :: (w, v) in pairs <==> Pair(h, w, v)
    ensures S.ResolvesAgree(WatchOps(h, left), TheOps(h.locate, left), FrameOf(h, pairs))
  {
    var ops, one := WatchOps(h, left), TheOps(h.locate, left);
    forall p, f: File, n: string, q: bool | p in pairs
      ensures S.Resolve(ops, p.0, f, n, q).0 == S.Resolve(one, p.1, f, n, q).0
      ensures (S.Resolve(ops, p.0, f, n, q).1, S.Resolve(one, p.1, f, n, q).1) in pairs
    {
      assert (p.0, p.1) in pairs;
      if h.locate(f, n, q).Some? { IncludeStays(h, left, p.0, f, h.locate(f, n, q).value); }
    }
  }

  lemma WatchedAgrees(h: Host, left: map<File, Defs>, pairs: iset<(Watched, View)>)
    requires forall w: Watched, v: View :: (w, v) in pairs <==> Pair(h, w, v)
    ensures S.Agree(WatchOps(h, left), TheOps(h.locate, left), FrameOf(h, pairs))
  {
    TruthsAgree(h, left, pairs);
    DefinedsAgree(h, left, pairs);
    OthersAgree(h, left, pairs);
    NamesAgree(h, left, pairs);
    ResolvesAgree(h, left, pairs);
  }
}
