/**
 Runs over the real symbol tables with headers nested in any way: while the watch beside them stays calm, they are runs over
 one table of definitions.
 */
module NestedRuns {
  import opened Cppsetup
  import opened OneTable
  import opened GraphOps
  import opened TablesAsOne
  import opened NestedOps
  import opened Directives
  import opened Nesting
  import opened Wrappers
  import F = FlatRuns
  import R = Runs
  import S = Selection

  ghost function Unwatched(st: State<Watched>): State<R.State> { State(st.w.s, st.searched, st.scanned) }

  // ---------- watching changes nothing ----------

  /** Once it is not calm it never is again; until then the tables do what they do unwatched. */
  ghost predicate Follows(w: Watched, w': Watched, s': R.State) { w'.calm ==> w.calm && w'.s == s' }

  lemma TestFollows(h: Host, left: map<File, Defs>, kind: Kind, w: Watched)
    ensures var (b, w') := Test(WatchOps(h, left), kind, w);
            Follows(w, w', Test(TableOps(h), kind, w.s).1) && (w'.calm ==> b == Test(TableOps(h), kind, w.s).0)
  {
  }

  lemma {:induction false} SkipFollows(h: Host, left: map<File, Defs>, b: Block, w: Watched)
    ensures Follows(w, SkipBlock(WatchOps(h, left), b, w), SkipBlock(TableOps(h), b, w.s))
    decreases b
  {
    match b
    case Empty =>
    case Plain(_, rest) => SkipFollows(h, left, rest, w);
    case Cond(_, body, tail, rest) =>
      var w1 := SkipBlock(WatchOps(h, left), body, w);
      var w2 := SkipTail(WatchOps(h, left), tail, w1);
      SkipFollows(h, left, body, w);
      SkipTailFollows(h, left, tail, w1);
      SkipFollows(h, left, rest, w2);
  }

  lemma {:induction false} SkipTailFollows(h: Host, left: map<File, Defs>, t: Tail, w: Watched)
    ensures Follows(w, SkipTail(WatchOps(h, left), t, w), SkipTail(TableOps(h), t, w.s))
    decreases t
  {
    match t
    case EndTail(_) =>
    case ElseTail(_, body, _) => SkipFollows(h, left, body, w);
    case ElifTail(line, body, tail) =>
      var w1 := Test(WatchOps(h, left), line.kind, w).1;
      TestFollows(h, left, line.kind, w);
      SkipFollows(h, left, body, w1);
      SkipTailFollows(h, left, tail, SkipBlock(WatchOps(h, left), body, w1));
  }

  lemma SkipRestFollows(h: Host, left: map<File, Defs>, t: Tail, w: Watched)
    ensures Follows(w, SkipAfterTaken(WatchOps(h, left), t, w), SkipAfterTaken(TableOps(h), t, w.s))
  {
    match t
    case EndTail(_) =>
    case ElseTail(_, body, _) => SkipFollows(h, left, body, w);
    case ElifTail(_, body, tail) =>
      SkipFollows(h, left, body, w);
      SkipTailFollows(h, left, tail, SkipBlock(WatchOps(h, left), body, w));
  }

  ghost predicate RunFollows(st: State<Watched>, end: State<Watched>, plain: State<R.State>) {
    end.w.calm ==> st.w.calm && Unwatched(end) == plain
  }

  lemma {:induction false} BlockFollows(h: Host, left: map<File, Defs>, trees: Trees, file: File, b: Block, st: State<Watched>)
    ensures RunFollows(st, ExecBlock(WatchOps(h, left), trees, file, b, st), ExecBlock(TableOps(h), trees, file, b, Unwatched(st)))
    decreases Unread(trees, st), Size(b), 1
  {
    var ops := WatchOps(h, left);
    match b
    case Empty =>
    case Plain(line, rest) =>
      LineFollows(h, left, trees, file, line.kind, st);
      BlockFollows(h, left, trees, file, rest, ExecLine(ops, trees, file, line.kind, st));
    case Cond(open, body, tail, rest) =>
      var (taken, w1) := Test(ops, open.kind, st.w);
      TestFollows(h, left, open.kind, st.w);
      GroupsFollow(h, left, trees, file, taken, body, tail, st.(w := w1));
      BlockFollows(h, left, trees, file, rest, ExecGroups(ops, trees, file, taken, body, tail, st.(w := w1)));
  }

  lemma {:induction false} GroupsFollow(h: Host, left: map<File, Defs>, trees: Trees, file: File, taken: bool, body: Block, tail: Tail,
                                        st: State<Watched>)
    ensures RunFollows(st, ExecGroups(WatchOps(h, left), trees, file, taken, body, tail, st),
                       ExecGroups(TableOps(h), trees, file, taken, body, tail, Unwatched(st)))
    decreases Unread(trees, st), Size(body) + TailSize(tail), 1
  {
    var ops := WatchOps(h, left);
    if taken {
      BlockFollows(h, left, trees, file, body, st);
      SkipRestFollows(h, left, tail, ExecBlock(ops, trees, file, body, st).w);
    } else {
      SkipFollows(h, left, body, st.w);
      TailFollows(h, left, trees, file, tail, st.(w := SkipBlock(ops, body, st.w)));
    }
  }

  lemma {:induction false} TailFollows(h: Host, left: map<File, Defs>, trees: Trees, file: File, t: Tail, st: State<Watched>)
    ensures RunFollows(st, ExecTail(WatchOps(h, left), trees, file, t, st), ExecTail(TableOps(h), trees, file, t, Unwatched(st)))
    decreases Unread(trees, st), TailSize(t), 0
  {
    match t
    case EndTail(_) =>
    case ElseTail(_, body, _) => BlockFollows(h, left, trees, file, body, st);
    case ElifTail(line, body, tail) =>
      var (taken, w1) := Test(WatchOps(h, left), line.kind, st.w);
      TestFollows(h, left, line.kind, st.w);
      GroupsFollow(h, left, trees, file, taken, body, tail, st.(w := w1));
  }

  lemma {:induction false} LineFollows(h: Host, left: map<File, Defs>, trees: Trees, file: File, kind: Kind, st: State<Watched>)
    ensures RunFollows(st, ExecLine(WatchOps(h, left), trees, file, kind, st), ExecLine(TableOps(h), trees, file, kind, Unwatched(st)))
    decreases Unread(trees, st), 0, 2
  {
    match kind
    case Include(text) => IncludeLineFollows(h, left, trees, file, text, st);
    case Define(def) => DefineFollows(h, left, file, def, st.w);
    case Undef(symbol) => UndefineFollows(h, left, symbol, st.w);
    case _ =>
  }

  lemma DefineFollows(h: Host, left: map<File, Defs>, file: File, def: string, w: Watched)
    ensures Follows(w, WatchOps(h, left).define(w, file, def), TableOps(h).define(w.s, file, def))
  {
  }

  lemma UndefineFollows(h: Host, left: map<File, Defs>, symbol: string, w: Watched)
    ensures Follows(w, WatchOps(h, left).undefine(w, symbol), TableOps(h).undefine(w.s, symbol))
  {
  }

  lemma NameFollows(h: Host, left: map<File, Defs>, file: File, text: string, w: Watched)
    ensures var (name, w') := WatchOps(h, left).includeName(w, file, text);
            Follows(w, w', TableOps(h).includeName(w.s, file, text).1) && (w'.calm ==> name == TableOps(h).includeName(w.s, file, text).0)
  {
  }

  lemma {:induction false} IncludeLineFollows(h: Host, left: map<File, Defs>, trees: Trees, file: File, text: string, st: State<Watched>)
    ensures RunFollows(st, ExecLine(WatchOps(h, left), trees, file, Include(text), st),
                       ExecLine(TableOps(h), trees, file, Include(text), Unwatched(st)))
    decreases Unread(trees, st), 0, 1
  {
    var (name, w1) := WatchOps(h, left).includeName(st.w, file, text);
    NameFollows(h, left, file, text, st.w);
    LineIsInclude(WatchOps(h, left), trees, file, text, st);
    LineIsInclude(TableOps(h), trees, file, text, Unwatched(st));
    if name != NoName { IncludeFollows(h, left, trees, file, h.locate(file, name.name, name.Quoted?), w1, st); }
  }

  lemma LineIsInclude<W>(ops: Ops<W>, trees: Trees, file: File, text: string, st: State<W>)
    ensures var (name, w1) := ops.includeName(st.w, file, text);
            ExecLine(ops, trees, file, Include(text), st)
            == if name == NoName then st.(w := w1)
               else ExecInclude(ops, trees, file, ops.find(w1, file, name.name, name.Quoted?), st)
  {
  }

  lemma {:induction false} IncludeFollows(h: Host, left: map<File, Defs>, trees: Trees, file: File, found: Option<File>, w1: Watched,
                                          st: State<Watched>)
    ensures var end := ExecInclude(WatchOps(h, left), trees, file, (found, w1), st);
            end.w.calm ==> w1.calm && Unwatched(end) == ExecInclude(TableOps(h), trees, file, (found, w1.s), Unwatched(st))
    decreases Unread(trees, st), 0, 0
  {
    if found.Some? {
      var f := found.value;
      var w2 := WatchOps(h, left).includedBy(w1, file, f);
      assert Follows(w1, w2, TableOps(h).includedBy(w1.s, file, f));
      if f !in st.searched {
        var st2 := State(w2, st.searched + {f}, st.scanned + [f]);
        if f in trees { FileFollows(h, left, trees, f, st2); } else { assert Follows(w2, WatchOps(h, left).finish(w2,
            f), TableOps(h).finish(w2.s, f)); }
      }
    }
  }

  lemma {:induction false} FileFollows(h: Host, left: map<File, Defs>, trees: Trees, file: File, st: State<Watched>)
    requires file in trees
    ensures RunFollows(st, ExecFile(WatchOps(h, left), trees, file, st), ExecFile(TableOps(h), trees, file, Unwatched(st)))
    decreases Unread(trees, st), Size(trees[file]), 2
  {
    BlockFollows(h, left, trees, file, trees[file], st);
  }

  // ---------- the main result ----------

  /** The run of a file, from its lines. */
  function RunOf<W>(ops: Ops<W>, trees: Trees, file: File, st: State<W>): Found<W>
    requires file in trees
  {
    FindIncludes(ops, ContentsOf(trees), file, 0, ContentsOf(trees)[file], st)
  }

  ghost function Watching(st: State<R.State>, v: View): State<Watched> { State(Watched(st.w, v, true), st.searched, st.scanned) }

  /** Beside the run of the command-line file the watch is calm to the end. */
  ghost predicate StaysCalm(h: Host, left: map<File, Defs>, trees: Trees, st: State<R.State>, v: View)
    requires h.root in trees
  {
    RunOf(WatchOps(h, left), trees, h.root, Watching(st, v)).st.w.calm
  }

  lemma WatchFollows(h: Host, left: map<File, Defs>, trees: Trees, st: State<R.State>, v: View)
    requires AllWellNested(trees) && h.root in trees && StaysCalm(h, left, trees, st, v)
    ensures var r, w := RunOf(TableOps(h), trees, h.root, st), RunOf(WatchOps(h, left), trees, h.root, Watching(st, v));
            r.stop == AtEnd && r.rest == [] && r.st == Unwatched(w.st)
  {
    FindFile(TableOps(h), trees, h.root, st);
    FindFile(WatchOps(h, left), trees, h.root, Watching(st, v));
    assert Unwatched(Watching(st, v)) == st;
    FileFollows(h, left, trees, h.root, Watching(st, v));
  }

  lemma WatchIsOne(h: Host, left: map<File, Defs>, trees: Trees, st: State<R.State>, v: View)
    requires AllWellNested(trees) && h.root in trees && st.w.Ok() && Stands(st.w, h.root, v.defs)
    ensures var w := RunOf(WatchOps(h, left), trees, h.root, Watching(st, v)).st;
            var one := RunOf(TheOps(h.locate, left), trees, h.root, State(v, st.searched, st.scanned));
            && one.stop == AtEnd && one.rest == [] && w.searched == one.st.searched && w.scanned == one.st.scanned
            && w.w.v == one.st.w && StaysOne(h, w.w)
  {
    var pairs := iset w: Watched, v: View | Pair(h, w, v) :: (w, v);
    var ops, ideal, fr := WatchOps(h, left), TheOps(h.locate, left), FrameOf(h, pairs);
    var begin, one := Watching(st, v), State(v, st.searched, st.scanned);
    WatchedAgrees(h, left, pairs);
    S.AllTame(ideal, fr.rules, trees, h.root, trees[h.root], one);
    S.FindIncludesMeansSelection(ops, ideal, fr, trees, h.root, begin, one);
    F.OneTableRun(h.locate, left, trees, h.root, one);
    var p := (RunOf(ops, trees, h.root, begin).st.w, RunOf(ideal, trees, h.root, one).st.w);
    assert p in pairs;
  }

  /** What the run over the tables comes to, against the one over one table of definitions. */
  ghost predicate RunsAsOne(h: Host, left: map<File, Defs>, trees: Trees, st: State<R.State>, v: View)
    requires h.root in trees
  {
    var r := RunOf(TableOps(h), trees, h.root, st);
    var one := RunOf(TheOps(h.locate, left), trees, h.root, State(v, st.searched, st.scanned));
    && r.stop == AtEnd && r.rest == [] && one.stop == AtEnd && one.rest == []
    && r.st.searched == one.st.searched && r.st.scanned == one.st.scanned
    && Ready(r.st.w, h.root) && Visibles(r.st.w, h.root) == one.st.w.defs
  }

  /**
   However deep headers include headers: as long as no lookup hides a name, and no macro is defined again otherwise than
   it is, the real tables with all their merges run as one table of definitions.
   */
  lemma NestedRun(h: Host, left: map<File, Defs>, trees: Trees, st: State<R.State>, v: View)
    requires AllWellNested(trees) && h.root in trees && st.w.Ok() && Stands(st.w, h.root, v.defs)
    requires StaysCalm(h, left, trees, st, v)
    ensures RunsAsOne(h, left, trees, st, v)
  {
    WatchFollows(h, left, trees, st, v);
    WatchIsOne(h, left, trees, st, v);
    StandsAnswers(RunOf(TableOps(h), trees, h.root, st).st.w, h.root,
                  RunOf(TheOps(h.locate, left), trees, h.root, State(v, st.searched, st.scanned)).st.w.defs);
  }
}
