/**
 While headers include nothing, the symbol tables stand for one table of definitions, whatever lookups merge.
 */
module FlatOps {
  import opened CStrings
  import opened SymbolTable
  import opened LookupSpec
  import opened Runs
  import opened FlatGraph
  import opened Cppsetup
  import opened DirectiveText
  import opened OneTable
  import opened Wrappers
  import opened GraphOps
  import D = Directives
  import S = Selection
  import T = TablesAsOne

  /** Headers include no file that is found, and only headers are included. */
  ghost predicate FlatHost(h: Host) {
    && IsSupply(h)
    && (forall f: File, n: string, q: bool :: f in h.leaves ==> h.locate(f, n, q) == None)
    && (forall f: File, n: string, q: bool :: h.locate(f, n, q).Some? ==> h.locate(f, n, q).value in h.leaves)
  }

  // ---------- what the tables stand for ----------

  /** No file but the root and the headers it includes has changed since `s0`, and no cell has got another value. */
  ghost predicate Since(h: Host, s0: State, s: State)
    requires s.Ok() && h.root < |s.g.lists|
  {
    && s0.Ok() && |s.g.lists| == |s0.g.lists| && s.g.main == s0.g.main
    && (forall f: File :: f < |s.g.lists| && f != h.root ==> s.g.lists[f] == s0.g.lists[f])
    && (forall f: File :: f < |s.g.lists| && f != h.root && f != s.g.main && !IsChild(s.g, h.root, f) ==>
          s.w.tables[f] == s0.w.tables[f])
    && (forall c: Symtab :: c in s0.vals ==> c in s.vals && s.vals[c] == s0.vals[c])
  }

  /** `s`, which began as `s0`, stands for one table of definitions. */
  ghost predicate StandsFor(h: Host, s0: State, s: State, v: View) {
    && Flat(s, h.root, h.leaves) && Supplied(h, s) && Since(h, s0, s) && |s.vals| <= |s0.vals| + v.made
    && T.Stands(s, h.root, v.defs)
    && forall c: File :: c in v.included <==> IsChild(s.g, h.root, c)
  }

  /** What a header's table held, with the values of that time. */
  ghost function LeftBy(s: State, c: File): Defs {
    map name: CString | name in Names(s) && c < |s.w.tables| && Holds(s.w.tables[c], name) :: name := EntryValue(s, c, name)
  }

  ghost function LeftIn(h: Host, s0: State): map<File, Defs> { map c: File | c in h.leaves :: c := LeftBy(s0, c) }

  ghost function Ideal(h: Host, s0: State): D.Ops<View> { TheOps(h.locate, LeftIn(h, s0)) }

  // ---------- lookups and #undef ----------

  /** So the values that lookups give are those of the one table. */
  lemma VisiblesAre(h: Host, s0: State, s: State, v: View)
    requires StandsFor(h, s0, s, v)
    ensures Visibles(s, h.root) == v.defs
  {
    T.StandsAnswers(s, h.root, v.defs);
  }

  lemma LookStands(h: Host, s0: State, s: State, v: View, symbol: CString)
    requires StandsFor(h, s0, s, v)
    ensures StandsFor(h, s0, Perform(s, Look(symbol, h.root)), v)
  {
    LookFlat(s, h.root, h.leaves, symbol);
    FlatSettled(s, h.root, h.leaves);
    T.LookStands(s, h.root, v.defs, symbol);
  }

  lemma {:induction false} LookAllStands(h: Host, s0: State, s: State, v: View, names: seq<CString>)
    requires StandsFor(h, s0, s, v)
    ensures StandsFor(h, s0, LookAll(s, h.root, names), v)
    decreases |names|
  {
    if names != [] {
      LookStands(h, s0, s, v, names[0]);
      LookAllStands(h, s0, Perform(s, Look(names[0], h.root)), v, names[1..]);
    }
  }

  lemma UndefineStands(h: Host, s0: State, s: State, v: View, symbol: CString)
    requires StandsFor(h, s0, s, v)
    ensures StandsFor(h, s0, Perform(s, Undef(symbol, h.root)), v.(defs := v.defs - {symbol}))
  {
    UndefineFlat(s, h.root, h.leaves, symbol);
    FlatSettled(s, h.root, h.leaves);
    T.UndefineStands(s, h.root, v.defs, symbol);
  }

  // ---------- #define ----------

  /** The file is being read: its definitions are in view. */
  ghost predicate IsRead(h: Host, s: State, f: File) {
    f == h.root || (Ready(s, h.root) && IsChild(s.g, h.root, f) && f !in s.g.finished)
  }

  lemma ReadIsSeen(h: Host, s: State, f: File)
    requires Flat(s, h.root, h.leaves) && IsRead(h, s, f)
    ensures f < |s.g.lists| && f in T.Seen(s.g, s.w, h.root) && f != s.g.main
  {
    Here(s.g, s.w, h.root);
    if f != h.root {
      var i :| 0 <= i < |s.g.lists[h.root]| && s.g.lists[h.root][i] == f;
      assert !s.w.merged[h.root][i];
      ReachedInView(s, h.root, f);
    }
  }

  /** There is a new cell for the definition if it needs one. */
  ghost predicate HasCell(h: Host, s0: State, v: View, d: string) {
    AsName(ParseDefine(d).0) in h.names && |s0.vals| + v.made < h.limit
  }

  lemma DefineStands(h: Host, s0: State, s: State, v: View, f: File, d: string)
    requires IsSupply(h) && StandsFor(h, s0, s, v) && IsRead(h, s, f) && MayDefine(v, d) && HasCell(h, s0, v, d)
    ensures StandsFor(h, s0, Do(s, DefineOp(h, s, f, d)), Defined(v, d))
  {
    ReadIsSeen(h, s, f);
    if Holds(s.w.tables[f], AsName(ParseDefine(d).0)) {
      DefineOld(h, s, v, f, d);
      assert StandsFor(h, s0, s, v.(made := v.made + 1));
    } else {
      NewCellFits(h, s, f, d);
      DefineNew(h, s0, s, v, f, DefineOp(h, s, f, d));
    }
  }

  lemma EntryFits(s: State, root: File, defs: Defs, f: File, name: CString)
    requires s.Ok() && T.Stands(s, root, defs) && f in T.Seen(s.g, s.w, root) && Holds(s.w.tables[f], name)
    ensures var c := Lookup(s.w.tables[f], name); c != null && c in s.vals && c.name == name && name in defs && s.vals[c] == defs[name]
  {
    var i :| 0 <= i < |s.w.tables[f]| && s.w.tables[f][i].name == name;
    LookupAt(s.w.tables[f], i);
    assert s.w.tables[f][i] in T.Fitting(s.vals, defs);
  }

  /** The file holds the name: its cell gets the value that it has. */
  lemma DefineOld(h: Host, s: State, v: View, f: File, d: string)
    requires s.Ok() && T.Stands(s, h.root, v.defs) && f in T.Seen(s.g, s.w, h.root) && MayDefine(v, d)
    requires Holds(s.w.tables[f], AsName(ParseDefine(d).0))
    ensures Do(s, DefineOp(h, s, f, d)) == s && Defined(v, d) == v.(made := v.made + 1)
  {
    EntryFits(s, h.root, v.defs, f, AsName(ParseDefine(d).0));
    DefineAgain(s, DefineOp(h, s, f, d));
    DefinedAgain(v, d);
  }

  /** The file does not hold the name: it gets a new cell. */
  lemma NewCellFits(h: Host, s: State, f: File, d: string)
    requires IsSupply(h) && s.Ok() && Supplied(h, s) && f < |s.g.lists|
    requires InSupply(h, AsName(ParseDefine(d).0), |s.vals|) && !Holds(s.w.tables[f], AsName(ParseDefine(d).0))
    ensures var op, name := DefineOp(h, s, f, d), AsName(ParseDefine(d).0);
            Fits(s, op) && op.cell.name == name && op.cell == h.cell(name, |s.vals|) && op.cell !in s.vals
  {
  }

  lemma DefinedAgain(v: View, d: string)
    requires AsName(ParseDefine(d).0) in v.defs && MayDefine(v, d)
    ensures Defined(v, d) == v.(made := v.made + 1)
  {
    assert v.defs[AsName(ParseDefine(d).0) := ParseDefine(d).1] == v.defs;
  }

  lemma DefineAgain(s: State, op: Op)
    requires s.Ok() && op.Def? && Fits(s, op) && Holds(s.w.tables[op.file], op.cell.name) && op.cell in s.vals
            && s.vals[op.cell] == op.value
    ensures Perform(s, op) == s
  {
    assert s.vals[op.cell := op.value] == s.vals;
  }

  lemma DefineNew(h: Host, s0: State, s: State, v: View, f: File, op: Op)
    requires IsSupply(h) && StandsFor(h, s0, s, v) && IsRead(h, s, f) && op.Def? && op.file == f && Fits(s, op)
    requires op.cell !in s.vals && !Holds(s.w.tables[f], op.cell.name)
    requires InSupply(h, op.cell.name, |s.vals|) && op.cell == h.cell(op.cell.name, |s.vals|)
    requires op.cell.name in v.defs ==> v.defs[op.cell.name] == op.value
    ensures StandsFor(h, s0, Perform(s, op), v.(defs := v.defs[op.cell.name := op.value], made := v.made + 1))
  {
    DefineFlat(h, s0, s, f, op);
    T.DefineStands(s, h.root, v.defs, op.cell, op.value, f);
    StillSupplied(h, s, Perform(s, op), op);
  }

  lemma DefineFlat(h: Host, s0: State, s: State, f: File, op: Op)
    requires Flat(s, h.root, h.leaves) && Since(h, s0, s) && IsRead(h, s, f) && op.Def? && op.file == f && Fits(s, op)
    requires op.cell !in s.vals
    ensures f in T.Seen(s.g, s.w, h.root)
    ensures var t := Perform(s, op); t.g == s.g && Flat(t, h.root, h.leaves) && Since(h, s0, t)
  {
    ReadIsSeen(h, s, f);
  }

  lemma StillSupplied(h: Host, s: State, t: State, op: Op)
    requires IsSupply(h) && Supplied(h, s) && op.Def? && op.cell !in s.vals && t.vals == s.vals[op.cell := op.value]
    requires InSupply(h, op.cell.name, |s.vals|) && op.cell == h.cell(op.cell.name, |s.vals|)
    ensures Supplied(h, t) && |t.vals| == |s.vals| + 1
  {
    forall other: CString, k: nat | InSupply(h, other, k) && |t.vals| <= k ensures h.cell(other, k) !in t.vals {
      assert |t.vals| == |s.vals| + 1;
    }
  }

  // ---------- #include and the end of a file ----------

  lemma LeftIs(s: State, c: File, name: CString)
    requires s.Ok() && c < |s.g.lists|
    ensures name in LeftBy(s, c) <==> Holds(s.w.tables[c], name)
    ensures Holds(s.w.tables[c], name) ==> LeftBy(s, c)[name] == EntryValue(s, c, name)
  {
    if Holds(s.w.tables[c], name) { HeldIsNamed(s, c, name); }
  }

  /** A header's table is as it was when the command-line file was begun, until it is included. */
  lemma LeftHolds(h: Host, s0: State, s: State, v: View, c: File, name: CString)
    requires StandsFor(h, s0, s, v) && c in h.leaves && c !in v.included
    ensures name in Left(LeftIn(h, s0), c) <==> Holds(s.w.tables[c], name)
    ensures Holds(s.w.tables[c], name) ==> Left(LeftIn(h, s0), c)[name] == EntryValue(s, c, name)
  {
    LeftIs(s0, c, name);
    if Holds(s.w.tables[c], name) { EntryIsCell(s0, c, name); }
  }

  lemma LeftIsNamed(h: Host, s0: State, c: File, x: string)
    requires x in Left(LeftIn(h, s0), c)
    ensures AsName(x) == x
  {
    assert x in LeftBy(s0, c);
    var name: CString :| name in Names(s0) && name == x;
  }

  lemma IncludeStands(h: Host, s0: State, s: State, v: View, c: File)
    requires StandsFor(h, s0, s, v) && c in h.leaves && MayJoin(v, LeftIn(h, s0), c)
    ensures StandsFor(h, s0, Do(s, Include(h.root, c)), WithHeader(v, LeftIn(h, s0), c))
    ensures IsChild(Do(s, Include(h.root, c)).g, h.root, c)
  {
    if c !in v.included {
      assert c !in s.g.lists[h.root];
      IncludeFlat(h, s0, s, c);
      IncludeBrings(h, s0, s, v, c);
      NewStands(h, s0, s, v, c, v.defs + Left(LeftIn(h, s0), c));
    }
  }

  lemma NewStands(h: Host, s0: State, s: State, v: View, c: File, now: Defs)
    requires Supplied(h, s) && s.Ok() && Fits(s, Include(h.root, c)) && |s.vals| <= |s0.vals| + v.made
    requires forall f: File :: f in v.included <==> IsChild(s.g, h.root, f)
    requires var t := Perform(s, Include(h.root, c));
             && Flat(t, h.root, h.leaves) && Since(h, s0, t) && t.vals == s.vals && T.Stands(t, h.root, now)
             && forall f: File :: IsChild(t.g, h.root, f) <==> IsChild(s.g, h.root, f) || f == c
    ensures StandsFor(h, s0, Perform(s, Include(h.root, c)), v.(defs := now, included := v.included + {c}))
  {
  }

  lemma IncludeBrings(h: Host, s0: State, s: State, v: View, c: File)
    requires StandsFor(h, s0, s, v) && c in h.leaves && MayJoin(v, LeftIn(h, s0), c) && c !in v.included && c !in s.g.lists[h.root]
    ensures T.Stands(Perform(s, Include(h.root, c)), h.root, v.defs + Left(LeftIn(h, s0), c))
  {
    LeafIsLeft(h, s0, s, v, c);
    Here(s.g, s.w, h.root);
    T.IncludeStands(s, h.root, v.defs, h.root, c, v.defs + Left(LeftIn(h, s0), c));
  }

  lemma IncludeFlat(h: Host, s0: State, s: State, c: File)
    requires Flat(s, h.root, h.leaves) && Since(h, s0, s) && c in h.leaves && c !in s.g.lists[h.root]
    ensures var t := Perform(s, Include(h.root, c));
            && Flat(t, h.root, h.leaves) && Since(h, s0, t) && t.vals == s.vals
            && forall f: File :: IsChild(t.g, h.root, f) <==> IsChild(s.g, h.root, f) || f == c
  {
    IncludeChildren(h, s, c);
  }

  /** What is seen from a header that the root has not included is the command line and what the header has left. */
  lemma LeafIsLeft(h: Host, s0: State, s: State, v: View, c: File)
    requires StandsFor(h, s0, s, v) && c in h.leaves && c !in v.included && MayJoin(v, LeftIn(h, s0), c)
    ensures var left := Left(LeftIn(h, s0), c);
            && T.MadeOf(s.w, T.Seen(s.g, s.w, c), T.Fitting(s.vals, v.defs + left))
            && forall x :: x in left ==> AsName(x) == x && Sees(s, c, AsName(x))
  {
    var left := Left(LeftIn(h, s0), c);
    forall f: File, k | f in T.Seen(s.g, s.w, c) && 0 <= k < |s.w.tables[f]|
      ensures s.w.tables[f][k] in T.Fitting(s.vals, v.defs + left)
    {
      if f == s.g.main {
        assert f in T.Seen(s.g, s.w, h.root) && s.w.tables[f][k] in T.Fitting(s.vals, v.defs);
      } else {
        LeafReaches(s, c, f);
        LeftCell(h, s0, s, v, c, k);
      }
    }
    forall x | x in left ensures AsName(x) == x && Sees(s, c, AsName(x)) {
      LeftIsNamed(h, s0, c, x);
      LeftHolds(h, s0, s, v, c, x);
      LeafSees(s, c, x);
    }
  }

  lemma LeftCell(h: Host, s0: State, s: State, v: View, c: File, k: nat)
    requires StandsFor(h, s0, s, v) && c in h.leaves && c !in v.included && k < |s.w.tables[c]|
    ensures var cell := s.w.tables[c][k];
            cell in s.vals && cell.name in Left(LeftIn(h, s0), c) && Left(LeftIn(h, s0), c)[cell.name] == s.vals[cell]
  {
    LeftHolds(h, s0, s, v, c, s.w.tables[c][k].name);
    LookupAt(s.w.tables[c], k);
  }

  lemma IncludeChildren(h: Host, s: State, c: File)
    requires Flat(s, h.root, h.leaves) && c in h.leaves && c !in s.g.lists[h.root]
    ensures var t := Perform(s, Include(h.root, c)); forall f: File :: IsChild(t.g, h.root, f) <==> IsChild(s.g, h.root, f) || f == c
  {
    var t := Perform(s, Include(h.root, c));
    assert t.g.lists[h.root] == s.g.lists[h.root] + [c];
    forall f: File | IsChild(s.g, h.root, f) ensures IsChild(t.g, h.root, f) {
      var i :| 0 <= i < |s.g.lists[h.root]| && s.g.lists[h.root][i] == f;
      assert t.g.lists[h.root][i] == f;
    }
    assert t.g.lists[h.root][|s.g.lists[h.root]|] == c;
  }

  lemma FinishStands(h: Host, s0: State, s: State, v: View, f: File)
    requires StandsFor(h, s0, s, v)
    ensures StandsFor(h, s0, Do(s, Finish(f)), v)
  {
    if f < |s.g.lists| {
      FinishFlat(h, s, f);
      T.FinishStands(s, h.root, v.defs, f);
    }
  }

  lemma FinishFlat(h: Host, s: State, f: File)
    requires Flat(s, h.root, h.leaves) && f < |s.g.lists|
    ensures var t := Perform(s, Finish(f));
            && Flat(t, h.root, h.leaves) && t.g.lists == s.g.lists && t.g.main == s.g.main && t.w == s.w && t.vals == s.vals
            && (forall g: File :: InView(t, h.root, g) <==> InView(s, h.root, g))
            && forall g: File :: IsChild(t.g, h.root, g) <==> IsChild(s.g, h.root, g)
  {
    var t := Perform(s, Finish(f));
    forall g: File ensures Open(t.g, t.w, h.root, g) <==> Open(s.g, s.w, h.root, g) { }
  }

  // ---------- the operations agree ----------

  ghost predicate Joins(h: Host, s0: State, v: View, f: File, n: string, q: bool) {
    var c := h.locate(f, n, q);
    c.Some? ==> f == h.root && MayJoin(v, LeftIn(h, s0), c.value)
  }

  /** How states stand for one table of definitions, given all `pairs` that do. */
  ghost function FrameWith(h: Host, s0: State, pairs: iset<(State, View)>): S.Frame<State, View> {
    S.Frame(pairs, (s: State, f: File) => IsRead(h, s, f), (s: State, f: File) => f in h.leaves ==> f !in s.g.finished,
            RulesOf(h, s0), h.root)
  }

  /** What the standard allows. */
  ghost function Constraints(h: Host, s0: State): S.Rules<View> {
    S.Rules((v: View, f: File, d: string) => MayDefine(v, d), (v: View, f: File, n: string, q: bool) => Joins(h, s0, v, f, n, q))
  }

  /** And what the supply of cells allows. */
  ghost function RulesOf(h: Host, s0: State): S.Rules<View> {
    S.Rules((v: View, f: File, d: string) => MayDefine(v, d)
        && HasCell(h, s0, v, d), (v: View, f: File, n: string, q: bool) => Joins(h, s0, v, f, n, q))
  }

  lemma LookAllUnnoticed(h: Host, s0: State, pairs: iset<(State, View)>, s: State, v: View, names: seq<CString>)
    requires forall a: State, b: View :: (a, b) in pairs <==> StandsFor(h, s0, a, b)
    requires StandsFor(h, s0, s, v)
    ensures S.Unnoticed(FrameWith(h, s0, pairs), s, v, LookAll(s, h.root, names))
  {
    LookAllStands(h, s0, s, v, names);
  }

  lemma TestsDo(h: Host, s0: State, pairs: iset<(State, View)>)
    requires forall a: State, b: View :: (a, b) in pairs <==> StandsFor(h, s0, a, b)
    ensures S.TestsAgree(TableOps(h), Ideal(h, s0), FrameWith(h, s0, pairs))
  {
    var fr := FrameWith(h, s0, pairs);
    forall p, e: string | p in pairs
      ensures TableOps(h).truth(p.0, e).0 == Ideal(h, s0).truth(p.1, e).0 && S.Unnoticed(fr, p.0, p.1, TableOps(h).truth(p.0, e).1)
    {
      assert (p.0, p.1) in pairs;
      VisiblesAre(h, s0, p.0, p.1);
      LookAllUnnoticed(h, s0, pairs, p.0, p.1, h.asks(e, p.1.defs));
    }
    forall p, e: string | p in pairs
      ensures TableOps(h).isDefined(p.0, e).0 == Ideal(h, s0).isDefined(p.1, e).0
      ensures S.Unnoticed(fr, p.0, p.1, TableOps(h).isDefined(p.0, e).1)
    {
      assert (p.0, p.1) in pairs;
      T.StandsFinds(p.0, h.root, p.1.defs, AsName(e));
      LookStands(h, s0, p.0, p.1, AsName(e));
    }
  }

  lemma DefinesDo(h: Host, s0: State, pairs: iset<(State, View)>)
    requires FlatHost(h) && forall a: State, b: View :: (a, b) in pairs <==> StandsFor(h, s0, a, b)
    ensures S.DefinesAgree(TableOps(h), Ideal(h, s0), FrameWith(h, s0, pairs))
  {
    var fr := FrameWith(h, s0, pairs);
    forall p, f: File, d: string | p in pairs && fr.reading(p.0, f) && fr.rules.fits(p.1, f, d)
      ensures (TableOps(h).define(p.0, f, d), Ideal(h, s0).define(p.1, f, d)) in pairs && S.Lives(fr, p.0, TableOps(h).define(p.0, f, d))
    {
      assert (p.0, p.1) in pairs;
      DefineStands(h, s0, p.0, p.1, f, d);
      DefineLives(h, p.0, DefineOp(h, p.0, f, d));
    }
  }

  lemma DefineLives(h: Host, s: State, op: Op)
    requires op.Def?
    ensures Do(s, op).g == s.g && forall f: File :: IsRead(h, s, f) ==> IsRead(h, Do(s, op), f)
  {
  }

  lemma UndefinesDo(h: Host, s0: State, pairs: iset<(State, View)>)
    requires forall a: State, b: View :: (a, b) in pairs <==> StandsFor(h, s0, a, b)
    ensures S.UndefinesAgree(TableOps(h), Ideal(h, s0), FrameWith(h, s0, pairs))
  {
    var fr := FrameWith(h, s0, pairs);
    forall p, n: string | p in pairs
      ensures (TableOps(h).undefine(p.0, n), Ideal(h, s0).undefine(p.1, n)) in pairs && S.Lives(fr, p.0, TableOps(h).undefine(p.0, n))
    {
      assert (p.0, p.1) in pairs;
      UndefineStands(h, s0, p.0, p.1, AsName(n));
      UndefineLives(h, p.0, AsName(n));
    }
  }

  lemma UndefineLives(h: Host, s: State, symbol: CString)
    requires Flat(s, h.root, h.leaves)
    ensures var op := Undef(symbol, h.root);
            Do(s, op) == Perform(s, op) && Do(s, op).g == s.g && forall f: File :: IsRead(h, s, f) ==> IsRead(h, Do(s, op), f)
  {
    UndefineFlat(s, h.root, h.leaves, symbol);
  }

  lemma FinishesDo(h: Host, s0: State, pairs: iset<(State, View)>)
    requires forall a: State, b: View :: (a, b) in pairs <==> StandsFor(h, s0, a, b)
    ensures S.FinishesAgree(TableOps(h), Ideal(h, s0), FrameWith(h, s0, pairs))
  {
    var fr := FrameWith(h, s0, pairs);
    forall p, f: File | p in pairs ensures (TableOps(h).finish(p.0, f), Ideal(h, s0).finish(p.1, f)) in pairs {
      assert (p.0, p.1) in pairs;
      FinishStands(h, s0, p.0, p.1, f);
    }
    FinishesLive(h, s0, pairs);
  }

  lemma FinishesLive(h: Host, s0: State, pairs: iset<(State, View)>)
    requires forall a: State, b: View :: (a, b) in pairs ==> StandsFor(h, s0, a, b)
    ensures var fr := FrameWith(h, s0, pairs);
            && (forall p, f: File, x: File :: p in pairs && (x != f || x == fr.root) && fr.reading(p.0, x) ==>
                  fr.reading(TableOps(h).finish(p.0, f), x))
            && (forall p, f: File, x: File :: p in pairs && x != f && fr.unread(p.0, x) ==> fr.unread(TableOps(h).finish(p.0, f), x))
  {
    forall p, f: File, x: File | p in pairs { FinishLives(h, p.0, f, x); }
  }

  lemma FinishLives(h: Host, s: State, f: File, x: File)
    requires Flat(s, h.root, h.leaves)
    ensures var t := Do(s, Finish(f));
            ((x != f || x == h.root) && IsRead(h, s, x) ==> IsRead(h, t, x)) && (x != f && x !in s.g.finished ==> x !in t.g.finished)
  {
    if f < |s.g.lists| { FinishFlat(h, s, f); }
  }

  lemma NamesDo(h: Host, s0: State, pairs: iset<(State, View)>)
    requires forall a: State, b: View :: (a, b) in pairs <==> StandsFor(h, s0, a, b)
    ensures S.NamesAgree(TableOps(h), Ideal(h, s0), FrameWith(h, s0, pairs))
  {
    var fr := FrameWith(h, s0, pairs);
    forall p, f: File, t: string | p in pairs
      ensures var r, u := TableOps(h).includeName(p.0, f, t), Ideal(h, s0).includeName(p.1, f, t);
              r.0 == u.0 && (r.1, u.1) in pairs && S.Lives(fr, p.0, r.1)
    {
      assert (p.0, p.1) in pairs;
      VisiblesAre(h, s0, p.0, p.1);
      LookAllUnnoticed(h, s0, pairs, p.0, p.1, h.refers(t, p.1.defs));
    }
  }

  lemma ResolvesDo(h: Host, s0: State, pairs: iset<(State, View)>)
    requires FlatHost(h) && forall a: State, b: View :: (a, b) in pairs <==> StandsFor(h, s0, a, b)
    ensures S.ResolvesAgree(TableOps(h), Ideal(h, s0), FrameWith(h, s0, pairs))
  {
    var fr := FrameWith(h, s0, pairs);
    forall p, f: File, n: string, q: bool | p in pairs && fr.rules.joins(p.1, f, n, q)
      ensures var r, u := S.Resolve(TableOps(h), p.0, f, n, q), S.Resolve(Ideal(h, s0), p.1, f, n, q);
              && r.0 == u.0 && (r.1, u.1) in pairs && S.Lives(fr, p.0, r.1)
              && (r.0.Some? && fr.unread(p.0, r.0.value) ==> fr.reading(r.1, r.0.value))
    {
      assert (p.0, p.1) in pairs;
      ResolveDoes(h, s0, p.0, p.1, f, n, q);
    }
  }

  lemma ResolveDoes(h: Host, s0: State, s: State, v: View, f: File, n: string, q: bool)
    requires FlatHost(h) && StandsFor(h, s0, s, v) && Joins(h, s0, v, f, n, q)
    ensures var r, u := S.Resolve(TableOps(h), s, f, n, q), S.Resolve(Ideal(h, s0), v, f, n, q);
            && r.0 == u.0 && StandsFor(h, s0, r.1, u.1) && r.1.Ok() && r.1.g.finished == s.g.finished
            && (forall x: File :: IsRead(h, s, x) ==> IsRead(h, r.1, x))
            && (r.0.Some? ==> r.0.value in h.leaves && (r.0.value !in s.g.finished ==> IsRead(h, r.1, r.0.value)))
  {
    var c := h.locate(f, n, q);
    if c.Some? {
      IncludeStands(h, s0, s, v, c.value);
      IncludeLives(h, s, c.value);
    }
  }

  lemma IncludeLives(h: Host, s: State, c: File)
    requires Flat(s, h.root, h.leaves) && c in h.leaves
    ensures var t := Do(s, Include(h.root, c)); t.g.finished == s.g.finished && forall f: File :: IsRead(h, s, f) ==> IsRead(h, t, f)
  {
    if c !in s.g.lists[h.root] { IncludeChildren(h, s, c); }
  }

  /** So the real tables, merges and all, run as one table of definitions. */
  lemma FlatAgrees(h: Host, s0: State, pairs: iset<(State, View)>)
    requires FlatHost(h) && forall s: State, v: View :: (s, v) in pairs <==> StandsFor(h, s0, s, v)
    ensures S.Agree(TableOps(h), Ideal(h, s0), FrameWith(h, s0, pairs))
  {
    TestsDo(h, s0, pairs);
    DefinesDo(h, s0, pairs);
    UndefinesDo(h, s0, pairs);
    FinishesDo(h, s0, pairs);
    NamesDo(h, s0, pairs);
    ResolvesDo(h, s0, pairs);
  }
}
