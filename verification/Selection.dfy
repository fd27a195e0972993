/**
 The meaning of conditionals in section 6.10.1 of ISO/IEC 9899:1999, and which files a run reads.
 */
module Selection {
  import opened Sequences
  import opened Wrappers
  import opened Directives
  import opened Nesting

  // ---------- the first group whose condition is true ----------

  function Chosen<W>(ops: Ops<W>, w: W, open: Directive, body: Block, tail: Tail): (b: Block)
    ensures Size(b) <= Size(body) + TailSize(tail)
  {
    if Test(ops, open.kind, w).0 then body else ChosenBehind(ops, w, tail)
  }

  function ChosenBehind<W>(ops: Ops<W>, w: W, t: Tail): (b: Block)
    ensures Size(b) <= TailSize(t)
    decreases t
  {
    match t
    case EndTail(_) => Empty
    case ElseTail(_, body, _) => body
    case ElifTail(line, body, tail) => if Test(ops, line.kind, w).0 then body else ChosenBehind(ops, w, tail)
  }

  /** Each conditional means the group its conditions choose in the definitions in force there. */
  function Meaning<W>(ops: Ops<W>, trees: Trees, file: File, b: Block, st: State<W>): (st': State<W>)
    ensures st.searched <= st'.searched
    decreases Unread(trees, st), Size(b), 1
  {
    match b
    case Empty => st
    case Plain(line, rest) =>
      var st1 := LineMeaning(ops, trees, file, line.kind, st);
      Meaning(ops, trees, file, rest, st1)
    case Cond(open, body, tail, rest) =>
      var st1 := Meaning(ops, trees, file, Chosen(ops, st.w, open, body, tail), st);
      Meaning(ops, trees, file, rest, st1)
  }

  function LineMeaning<W>(ops: Ops<W>, trees: Trees, file: File, kind: Kind, st: State<W>): (st': State<W>)
    ensures st.searched <= st'.searched
    decreases Unread(trees, st), 0, 1
  {
    match kind
    case Define(def) => st.(w := ops.define(st.w, file, def))
    case Undef(symbol) => if symbol == "" then st else st.(w := ops.undefine(st.w, symbol))
    case Include(text) =>
      var (name, w1) := ops.includeName(st.w, file, text);
      (match name
       case NoName => st.(w := w1)
       case Quoted(name) => IncludeMeaning(ops, trees, file, ops.find(w1, file, name, true), st)
       case Bracketed(name) => IncludeMeaning(ops, trees, file, ops.find(w1, file, name, false), st))
    case _ => st
  }

  function IncludeMeaning<W>(ops: Ops<W>, trees: Trees, file: File, found: (Option<File>, W), st: State<W>): (st': State<W>)
    ensures st.searched <= st'.searched
    decreases Unread(trees, st), 0, 0
  {
    match found.0
    case None => st.(w := found.1)
    case Some(f) =>
      var st1 := st.(w := ops.includedBy(found.1, file, f));
      if f in st1.searched then st1
      else
        var st2 := st1.(searched := st1.searched + {f}, scanned := st1.scanned + [f]);
        var st3 := if f in trees then Meaning(ops, trees, f, trees[f], st2) else st2;
        st3.(w := ops.finish(st3.w, f))
  }

  // ---------- states that stand for each other ----------

  /**
   How the states of a program stand for those of another, ideal one.  `reading`: the file is being read, and what it
   defines counts; `unread`: it can still be.  `rules` say for which definitions and #includes the ideal speaks.
   `root` is the command-line file, which is being read always.
   */
  datatype Frame<!W, !V> = Frame(ghost pairs: iset<(W, V)>, reading: (W, File) -> bool, unread: (W, File) -> bool,
                                 rules: Rules<V>, root: File)

  datatype Rules<!V> = Rules(fits: (V, File, string) -> bool, joins: (V, File, string, bool) -> bool)

  ghost predicate Lives<W, V>(fr: Frame<W, V>, w: W, w': W) {
    forall x: File :: (fr.reading(w, x) ==> fr.reading(w', x)) && (fr.unread(w, x) ==> fr.unread(w', x))
  }

  /** A step that the ideal does not make. */
  ghost predicate Unnoticed<W, V>(fr: Frame<W, V>, w: W, v: V, w': W) { (w', v) in fr.pairs && Lives(fr, w, w') }

  /** What a name leads to: the file found, and the new edge to it. */
  function Resolve<W>(ops: Ops<W>, w: W, file: File, name: string, quoted: bool): (Option<File>, W) {
    var (found, w1) := ops.find(w, file, name, quoted);
    (found, if found.Some? then ops.includedBy(w1, file, found.value) else w1)
  }

  /** Looking at a condition gives what it gives in the ideal, and goes unnoticed. */
  ghost predicate TestsAgree<W, V>(ops: Ops<W>, ideal: Ops<V>, fr: Frame<W, V>) {
    && (forall p, e: string :: p in fr.pairs ==>
          ops.truth(p.0, e).0 == ideal.truth(p.1, e).0 && Unnoticed(fr, p.0, p.1, ops.truth(p.0, e).1))
    && (forall p, e: string :: p in fr.pairs ==>
          ops.isDefined(p.0, e).0 == ideal.isDefined(p.1, e).0 && Unnoticed(fr, p.0, p.1, ops.isDefined(p.0, e).1))
  }

  ghost predicate DefinesAgree<W, V>(ops: Ops<W>, ideal: Ops<V>, fr: Frame<W, V>) {
    forall p, f: File, d: string :: p in fr.pairs && fr.reading(p.0, f) && fr.rules.fits(p.1, f, d) ==>
      (ops.define(p.0, f, d), ideal.define(p.1, f, d)) in fr.pairs && Lives(fr, p.0, ops.define(p.0, f, d))
  }

  ghost predicate UndefinesAgree<W, V>(ops: Ops<W>, ideal: Ops<V>, fr: Frame<W, V>) {
    forall p, n: string :: p in fr.pairs ==>
      (ops.undefine(p.0, n), ideal.undefine(p.1, n)) in fr.pairs && Lives(fr, p.0, ops.undefine(p.0, n))
  }

  /** No file but a finished one stops being read. */
  ghost predicate FinishesAgree<W, V>(ops: Ops<W>, ideal: Ops<V>, fr: Frame<W, V>) {
    && (forall p, f: File :: p in fr.pairs ==> (ops.finish(p.0, f), ideal.finish(p.1, f)) in fr.pairs)
    && (forall p, f: File, x: File :: p in fr.pairs && (x != f || x == fr.root) && fr.reading(p.0, x) ==> fr.reading(ops.finish(p.0, f), x))
    && (forall p, f: File, x: File :: p in fr.pairs && x != f && fr.unread(p.0, x) ==> fr.unread(ops.finish(p.0, f), x))
  }

  ghost predicate NamesAgree<W, V>(ops: Ops<W>, ideal: Ops<V>, fr: Frame<W, V>) {
    forall p, f: File, t: string :: p in fr.pairs ==>
      var r, u := ops.includeName(p.0, f, t), ideal.includeName(p.1, f, t);
      r.0 == u.0 && (r.1, u.1) in fr.pairs && Lives(fr, p.0, r.1)
  }

  ghost predicate ResolvesAgree<W, V>(ops: Ops<W>, ideal: Ops<V>, fr: Frame<W, V>) {
    forall p, f: File, n: string, q: bool :: p in fr.pairs && fr.rules.joins(p.1, f, n, q) ==>
      var r, u := Resolve(ops, p.0, f, n, q), Resolve(ideal, p.1, f, n, q);
      && r.0 == u.0 && (r.1, u.1) in fr.pairs && Lives(fr, p.0, r.1)
      && (r.0.Some? && fr.unread(p.0, r.0.value) ==> fr.reading(r.1, r.0.value))
  }

  ghost predicate Agree<W, V>(ops: Ops<W>, ideal: Ops<V>, fr: Frame<W, V>) {
    && TestsAgree(ops, ideal, fr) && DefinesAgree(ops, ideal, fr) && UndefinesAgree(ops, ideal, fr)
    && FinishesAgree(ops, ideal, fr) && NamesAgree(ops, ideal, fr) && ResolvesAgree(ops, ideal, fr)
  }

  // ---------- runs of which the ideal speaks ----------

  /** All that the ideal executes fits and joins. */
  ghost predicate Tame<V>(ideal: Ops<V>, rules: Rules<V>, trees: Trees, file: File, b: Block, st: State<V>)
    decreases Unread(trees, st), Size(b), 1
  {
    match b
    case Empty => true
    case Plain(line, rest) =>
      && TameLine(ideal, rules, trees, file, line.kind, st)
      && Tame(ideal, rules, trees, file, rest, LineMeaning(ideal, trees, file, line.kind, st))
    case Cond(open, body, tail, rest) =>
      var chosen := Chosen(ideal, st.w, open, body, tail);
      && Tame(ideal, rules, trees, file, chosen, st)
      && Tame(ideal, rules, trees, file, rest, Meaning(ideal, trees, file, chosen, st))
  }

  ghost predicate TameLine<V>(ideal: Ops<V>, rules: Rules<V>, trees: Trees, file: File, kind: Kind, st: State<V>)
    decreases Unread(trees, st), 0, 1
  {
    match kind
    case Define(def) => rules.fits(st.w, file, def)
    case Include(text) =>
      var (name, v1) := ideal.includeName(st.w, file, text);
      (match name
       case NoName => true
       case Quoted(name) => TameInclude(ideal, rules, trees, file, name, true, st.(w := v1))
       case Bracketed(name) => TameInclude(ideal, rules, trees, file, name, false, st.(w := v1)))
    case _ => true
  }

  ghost predicate TameInclude<V>(ideal: Ops<V>, rules: Rules<V>, trees: Trees, file: File, name: string, quoted: bool, st: State<V>)
    decreases Unread(trees, st), 0, 0
  {
    && rules.joins(st.w, file, name, quoted)
    && var (found, v1) := Resolve(ideal, st.w, file, name, quoted);
       found.Some? && found.value !in st.searched && found.value in trees ==>
         var f := found.value;
         Tame(ideal, rules, trees, f, trees[f], State(v1, st.searched + {f}, st.scanned + [f]))
  }

  // ---------- the two ways to execute stay together ----------

  ghost predicate Near<W, V>(fr: Frame<W, V>, a: State<W>, b: State<V>) {
    (a.w, b.w) in fr.pairs && a.searched == b.searched && a.scanned == b.scanned
  }

  /** The file is being read, and those that have not been can be. */
  ghost predicate Good<W, V>(fr: Frame<W, V>, st: State<W>, file: File) {
    && fr.reading(st.w, file) && (file in st.searched || file == fr.root)
    && forall x: File :: x !in st.searched ==> fr.unread(st.w, x)
  }

  /** Files that are being read still are, and those that can still be read still can. */
  ghost predicate Forward<W, V>(fr: Frame<W, V>, a: State<W>, b: State<W>) {
    && a.searched <= b.searched
    && (forall x: File :: fr.reading(a.w, x) && (x in a.searched || x == fr.root) ==> fr.reading(b.w, x))
    && ((forall x: File :: x !in a.searched ==> fr.unread(a.w, x)) ==> forall x: File :: x !in b.searched ==> fr.unread(b.w, x))
  }

  lemma ForwardGood<W, V>(fr: Frame<W, V>, a: State<W>, b: State<W>, file: File)
    requires Good(fr, a, file) && Forward(fr, a, b)
    ensures Good(fr, b, file)
  {
  }

  lemma ForwardOn<W, V>(fr: Frame<W, V>, a: State<W>, b: State<W>, c: State<W>)
    requires Forward(fr, a, b) && Forward(fr, b, c)
    ensures Forward(fr, a, c)
  {
  }

  lemma UnnoticedOn<W, V>(fr: Frame<W, V>, w: W, v: V, w1: W, w2: W)
    requires Unnoticed(fr, w, v, w1) && Unnoticed(fr, w1, v, w2)
    ensures Unnoticed(fr, w, v, w2)
  {
  }

  lemma TestTogether<W, V>(ops: Ops<W>, ideal: Ops<V>, fr: Frame<W, V>, kind: Kind, w: W, v: V)
    requires TestsAgree(ops, ideal, fr) && (w, v) in fr.pairs
    ensures Test(ops, kind, w).0 == Test(ideal, kind, v).0 && Unnoticed(fr, w, v, Test(ops, kind, w).1)
  {
    var p := (w, v);
    assert p in fr.pairs && p.0 == w && p.1 == v;
    match kind
    case If(expr) => assert Unnoticed(fr, p.0, p.1, ops.truth(p.0, expr).1);
    case Elif(expr) => assert Unnoticed(fr, p.0, p.1, ops.truth(p.0, expr).1);
    case IfDef(symbol) => assert Unnoticed(fr, p.0, p.1, ops.isDefined(p.0, symbol).1);
    case IfNDef(symbol) => assert Unnoticed(fr, p.0, p.1, ops.isDefined(p.0, symbol).1);
    case _ =>
  }

  lemma {:induction false} SkipUnnoticed<W, V>(ops: Ops<W>, ideal: Ops<V>, fr: Frame<W, V>, b: Block, w: W, v: V)
    requires TestsAgree(ops, ideal, fr) && (w, v) in fr.pairs
    ensures Unnoticed(fr, w, v, SkipBlock(ops, b, w))
    decreases Size(b), 1
  {
    match b
    case Empty =>
    case Plain(_, rest) => SkipUnnoticed(ops, ideal, fr, rest, w, v);
    case Cond(_, body, tail, rest) =>
      var w1 := SkipBlock(ops, body, w);
      var w2 := SkipTail(ops, tail, w1);
      SkipUnnoticed(ops, ideal, fr, body, w, v);
      SkipTailUnnoticed(ops, ideal, fr, tail, w1, v);
      UnnoticedOn(fr, w, v, w1, w2);
      SkipUnnoticed(ops, ideal, fr, rest, w2, v);
      UnnoticedOn(fr, w, v, w2, SkipBlock(ops, rest, w2));
  }

  lemma {:induction false} SkipTailUnnoticed<W, V>(ops: Ops<W>, ideal: Ops<V>, fr: Frame<W, V>, t: Tail, w: W, v: V)
    requires TestsAgree(ops, ideal, fr) && (w, v) in fr.pairs
    ensures Unnoticed(fr, w, v, SkipTail(ops, t, w))
    decreases TailSize(t), 0
  {
    match t
    case EndTail(_) =>
    case ElseTail(_, body, _) => SkipUnnoticed(ops, ideal, fr, body, w, v);
    case ElifTail(line, body, tail) =>
      var w1 := Test(ops, line.kind, w).1;
      var w2 := SkipBlock(ops, body, w1);
      TestTogether(ops, ideal, fr, line.kind, w, v);
      SkipUnnoticed(ops, ideal, fr, body, w1, v);
      UnnoticedOn(fr, w, v, w1, w2);
      SkipTailUnnoticed(ops, ideal, fr, tail, w2, v);
      UnnoticedOn(fr, w, v, w2, SkipTail(ops, tail, w2));
  }

  lemma SkipRestUnnoticed<W, V>(ops: Ops<W>, ideal: Ops<V>, fr: Frame<W, V>, t: Tail, w: W, v: V)
    requires TestsAgree(ops, ideal, fr) && (w, v) in fr.pairs
    ensures Unnoticed(fr, w, v, SkipAfterTaken(ops, t, w))
  {
    match t
    case EndTail(_) =>
    case ElseTail(_, body, _) => SkipUnnoticed(ops, ideal, fr, body, w, v);
    case ElifTail(_, body, tail) =>
      var w1 := SkipBlock(ops, body, w);
      SkipUnnoticed(ops, ideal, fr, body, w, v);
      SkipTailUnnoticed(ops, ideal, fr, tail, w1, v);
      UnnoticedOn(fr, w, v, w1, SkipTail(ops, tail, w1));
  }

  /** A step that goes unnoticed keeps everything in place. */
  lemma StandsStill<W, V>(fr: Frame<W, V>, a: State<W>, b: State<V>, w: W, file: File)
    requires Near(fr, a, b) && Good(fr, a, file) && Unnoticed(fr, a.w, b.w, w)
    ensures Near(fr, a.(w := w), b) && Good(fr, a.(w := w), file) && Forward(fr, a, a.(w := w))
  {
  }

  /** `a` is executed as the code does, `b` as the standard says. */
  ghost predicate Together<W, V>(fr: Frame<W, V>, a: State<W>, a': State<W>, b': State<V>) {
    Near(fr, a', b') && Forward(fr, a, a')
  }

  lemma {:induction false} BlockTogether<W, V>(ops: Ops<W>, ideal: Ops<V>, fr: Frame<W, V>, trees: Trees, file: File, b: Block,
                                               st: State<W>, sv: State<V>)
    requires Agree(ops, ideal, fr) && Near(fr, st, sv) && Good(fr, st, file) && Tame(ideal, fr.rules, trees, file, b, sv)
    ensures Together(fr, st, ExecBlock(ops, trees, file, b, st), Meaning(ideal, trees, file, b, sv))
    decreases Unread(trees, st), Size(b), 1
  {
    match b
    case Empty =>
    case Plain(line, rest) =>
      var st1, sv1 := ExecLine(ops, trees, file, line.kind, st), LineMeaning(ideal, trees, file, line.kind, sv);
      LineTogether(ops, ideal, fr, trees, file, line.kind, st, sv);
      ForwardGood(fr, st, st1, file);
      BlockTogether(ops, ideal, fr, trees, file, rest, st1, sv1);
      ForwardOn(fr, st, st1, ExecBlock(ops, trees, file, rest, st1));
    case Cond(open, body, tail, rest) =>
      var (taken, w1) := Test(ops, open.kind, st.w);
      TestTogether(ops, ideal, fr, open.kind, st.w, sv.w);
      StandsStill(fr, st, sv, w1, file);
      var st0 := st.(w := w1);
      GroupsTogether(ops, ideal, fr, trees, file, taken, body, tail, st0, sv);
      var st1 := ExecGroups(ops, trees, file, taken, body, tail, st0);
      var sv1 := Meaning(ideal, trees, file, Chosen(ideal, sv.w, open, body, tail), sv);
      ForwardOn(fr, st, st0, st1);
      ForwardGood(fr, st, st1, file);
      BlockTogether(ops, ideal, fr, trees, file, rest, st1, sv1);
      ForwardOn(fr, st, st1, ExecBlock(ops, trees, file, rest, st1));
  }

  lemma {:induction false} GroupsTogether<W, V>(ops: Ops<W>, ideal: Ops<V>, fr: Frame<W, V>, trees: Trees, file: File, taken: bool,
                                                body: Block, tail: Tail, st: State<W>, sv: State<V>)
    requires Agree(ops, ideal, fr) && Near(fr, st, sv) && Good(fr, st, file)
    requires Tame(ideal, fr.rules, trees, file, if taken then body else ChosenBehind(ideal, sv.w, tail), sv)
    ensures Together(fr, st, ExecGroups(ops, trees, file, taken, body, tail, st),
                     Meaning(ideal, trees, file, if taken then body else ChosenBehind(ideal, sv.w, tail), sv))
    decreases Unread(trees, st), Size(body) + TailSize(tail), 1
  {
    if taken {
      var st1, sv1 := ExecBlock(ops, trees, file, body, st), Meaning(ideal, trees, file, body, sv);
      BlockTogether(ops, ideal, fr, trees, file, body, st, sv);
      ForwardGood(fr, st, st1, file);
      var w2 := SkipAfterTaken(ops, tail, st1.w);
      SkipRestUnnoticed(ops, ideal, fr, tail, st1.w, sv1.w);
      StandsStill(fr, st1, sv1, w2, file);
      ForwardOn(fr, st, st1, st1.(w := w2));
    } else {
      var w1 := SkipBlock(ops, body, st.w);
      SkipUnnoticed(ops, ideal, fr, body, st.w, sv.w);
      StandsStill(fr, st, sv, w1, file);
      TailTogether(ops, ideal, fr, trees, file, tail, st.(w := w1), sv);
      ForwardOn(fr, st, st.(w := w1), ExecTail(ops, trees, file, tail, st.(w := w1)));
    }
  }

  lemma {:induction false} TailTogether<W, V>(ops: Ops<W>, ideal: Ops<V>, fr: Frame<W, V>, trees: Trees, file: File, t: Tail,
                                              st: State<W>, sv: State<V>)
    requires Agree(ops, ideal, fr) && Near(fr, st, sv) && Good(fr, st, file)
    requires Tame(ideal, fr.rules, trees, file, ChosenBehind(ideal, sv.w, t), sv)
    ensures Together(fr, st, ExecTail(ops, trees, file, t, st), Meaning(ideal, trees, file, ChosenBehind(ideal, sv.w, t), sv))
    decreases Unread(trees, st), TailSize(t), 0
  {
    match t
    case EndTail(_) =>
    case ElseTail(_, body, _) => BlockTogether(ops, ideal, fr, trees, file, body, st, sv);
    case ElifTail(line, body, tail) =>
      var (taken, w1) := Test(ops, line.kind, st.w);
      TestTogether(ops, ideal, fr, line.kind, st.w, sv.w);
      StandsStill(fr, st, sv, w1, file);
      GroupsTogether(ops, ideal, fr, trees, file, taken, body, tail, st.(w := w1), sv);
      ForwardOn(fr, st, st.(w := w1), ExecGroups(ops, trees, file, taken, body, tail, st.(w := w1)));
  }

  lemma {:induction false} LineTogether<W, V>(ops: Ops<W>, ideal: Ops<V>, fr: Frame<W, V>, trees: Trees, file: File, kind: Kind,
                                              st: State<W>, sv: State<V>)
    requires Agree(ops, ideal, fr) && Near(fr, st, sv) && Good(fr, st, file) && TameLine(ideal, fr.rules, trees, file, kind, sv)
    ensures Together(fr, st, ExecLine(ops, trees, file, kind, st), LineMeaning(ideal, trees, file, kind, sv))
    decreases Unread(trees, st), 0, 1
  {
    if kind.Include? {
      var (name, w1) := ops.includeName(st.w, file, kind.text);
      var v1 := ideal.includeName(sv.w, file, kind.text).1;
      NameTogether(ops, ideal, fr, file, kind.text, st, sv);
      match name
      case NoName =>
      case Quoted(n) => IncludeTogether(ops, ideal, fr, trees, file, n, true, st.(w := w1), sv.(w := v1), st);
      case Bracketed(n) => IncludeTogether(ops, ideal, fr, trees, file, n, false, st.(w := w1), sv.(w := v1), st);
    } else {
      PlainTogether(ops, ideal, fr, trees, file, kind, st, sv);
    }
  }

  lemma NameTogether<W, V>(ops: Ops<W>, ideal: Ops<V>, fr: Frame<W, V>, file: File, text: string, st: State<W>, sv: State<V>)
    requires NamesAgree(ops, ideal, fr) && Near(fr, st, sv) && Good(fr, st, file)
    ensures var r, u := ops.includeName(st.w, file, text), ideal.includeName(sv.w, file, text);
            && r.0 == u.0 && Near(fr, st.(w := r.1), sv.(w := u.1))
            && Good(fr, st.(w := r.1), file) && Forward(fr, st, st.(w := r.1))
  {
    var p := (st.w, sv.w);
    assert p in fr.pairs && ops.includeName(p.0, file, text) == ops.includeName(st.w, file, text);
  }

  lemma PlainTogether<W, V>(ops: Ops<W>, ideal: Ops<V>, fr: Frame<W, V>, trees: Trees, file: File, kind: Kind, st: State<W>, sv: State<V>)
    requires Agree(ops, ideal, fr) && Near(fr, st, sv) && Good(fr, st, file) && !kind.Include?
    requires TameLine(ideal, fr.rules, trees, file, kind, sv)
    ensures Together(fr, st, ExecLine(ops, trees, file, kind, st), LineMeaning(ideal, trees, file, kind, sv))
  {
    var p := (st.w, sv.w);
    assert p in fr.pairs && p.0 == st.w && p.1 == sv.w;
    match kind
    case Define(d) => assert Lives(fr, p.0, ops.define(p.0, file, d));
    case Undef(n) => assert Lives(fr, p.0, ops.undefine(p.0, n));
    case _ =>
  }

  lemma ResolveTogether<W, V>(ops: Ops<W>, ideal: Ops<V>, fr: Frame<W, V>, file: File, name: string, quoted: bool,
                              st: State<W>, sv: State<V>)
    requires ResolvesAgree(ops, ideal, fr) && Near(fr, st, sv) && Good(fr, st, file) && fr.rules.joins(sv.w, file, name, quoted)
    ensures var r, u := Resolve(ops, st.w, file, name, quoted), Resolve(ideal, sv.w, file, name, quoted);
            && r.0 == u.0 && Near(fr, st.(w := r.1), sv.(w := u.1))
            && Good(fr, st.(w := r.1), file) && Forward(fr, st, st.(w := r.1))
            && (r.0.Some? && r.0.value !in st.searched ==> fr.reading(r.1, r.0.value))
  {
    var p := (st.w, sv.w);
    assert p in fr.pairs && Resolve(ops, p.0, file, name, quoted) == Resolve(ops, st.w, file, name, quoted);
  }

  lemma {:induction false} IncludeTogether<W, V>(ops: Ops<W>, ideal: Ops<V>, fr: Frame<W, V>, trees: Trees, file: File, name: string,
                                                 quoted: bool, st: State<W>, sv: State<V>, before: State<W>)
    requires Agree(ops, ideal, fr) && Near(fr, st, sv) && Good(fr, st, file) && Forward(fr, before, st) && before.searched == st.searched
    requires TameInclude(ideal, fr.rules, trees, file, name, quoted, sv)
    ensures Together(fr, before, ExecInclude(ops, trees, file, ops.find(st.w, file, name, quoted), st),
                     IncludeMeaning(ideal, trees, file, ideal.find(sv.w, file, name, quoted), sv))
    decreases Unread(trees, st), 0, 0
  {
    var (found, w1) := Resolve(ops, st.w, file, name, quoted);
    var v1 := Resolve(ideal, sv.w, file, name, quoted).1;
    var st1, sv1 := st.(w := w1), sv.(w := v1);
    ResolveTogether(ops, ideal, fr, file, name, quoted, st, sv);
    ForwardOn(fr, before, st, st1);
    if found.Some? && found.value !in st.searched {
      var f := found.value;
      var st2 := st1.(searched := st1.searched + {f}, scanned := st1.scanned + [f]);
      var sv2 := sv1.(searched := sv1.searched + {f}, scanned := sv1.scanned + [f]);
      assert Good(fr, st2, f) && Near(fr, st2, sv2);
      if f in trees { BlockTogether(ops, ideal, fr, trees, f, trees[f], st2, sv2); }
      var st3 := if f in trees then ExecBlock(ops, trees, f, trees[f], st2) else st2;
      var sv3 := if f in trees then Meaning(ideal, trees, f, trees[f], sv2) else sv2;
      FinishTogether(ops, ideal, fr, f, st1, st2, st3, sv3);
      ForwardOn(fr, before, st1, st3.(w := ops.finish(st3.w, f)));
    }
  }

  /** A file read for the first time comes to its end; those begun before are read on. */
  lemma FinishTogether<W, V>(ops: Ops<W>, ideal: Ops<V>, fr: Frame<W, V>, f: File, st1: State<W>, st2: State<W>,
                             st3: State<W>, sv3: State<V>)
    requires FinishesAgree(ops, ideal, fr) && f !in st1.searched && (forall x: File :: x !in st1.searched ==> fr.unread(st1.w, x))
    requires st2 == st1.(searched := st1.searched + {f}, scanned := st1.scanned + [f])
    requires Near(fr, st3, sv3) && (st3 == st2 || Forward(fr, st2, st3))
    ensures Together(fr, st1, st3.(w := ops.finish(st3.w, f)), sv3.(w := ideal.finish(sv3.w, f)))
  {
    var p := (st3.w, sv3.w);
    assert p in fr.pairs && p.0 == st3.w && p.1 == sv3.w;
    assert (ops.finish(p.0, f), ideal.finish(p.1, f)) in fr.pairs;
  }

  /**
   When the operations of a program agree with those of an ideal one, although conditions cannot tell what looking at
   them changes, the scanners on flat lines give every conditional the meaning of the standard in the ideal, in all
   files reached, and read to the end.
   */
  lemma FindIncludesMeansSelection<W, V>(ops: Ops<W>, ideal: Ops<V>, fr: Frame<W, V>, trees: Trees, file: File, st: State<W>, sv: State<V>)
    requires Agree(ops, ideal, fr) && AllWellNested(trees) && file in trees && Near(fr, st, sv) && Good(fr, st, file)
    requires Tame(ideal, fr.rules, trees, file, trees[file], sv)
    ensures var r := FindIncludes(ops, ContentsOf(trees), file, 0, ContentsOf(trees)[file], st);
            var end := Meaning(ideal, trees, file, trees[file], sv);
            && r.stop == AtEnd && r.rest == [] && Near(fr, r.st, end.(w := ideal.finish(end.w, file)))
            && forall x: File :: x !in r.st.searched && x != file ==> fr.unread(r.st.w, x)
  {
    FindFile(ops, trees, file, st);
    BlockTogether(ops, ideal, fr, trees, file, trees[file], st, sv);
    var w, v := ExecBlock(ops, trees, file, trees[file], st).w, Meaning(ideal, trees, file, trees[file], sv).w;
    var p := (w, v);
    assert p in fr.pairs && (ops.finish(p.0, file), ideal.finish(p.1, file)) in fr.pairs;
  }

  ghost predicate Any<W>(w: W) { true }

  ghost function SameFrame<W(!new)>(root: File): Frame<W, W> {
    Frame(iset w: W | Any(w) :: (w, w), (w: W, f: File) => true, (w: W, f: File) => true,
          Rules((w: W, f: File, d: string) => true, (w: W, f: File, n: string, q: bool) => true), root)
  }

  /** When looking at a condition changes nothing at all, a block is executed as it means. */
  lemma QuietBlock<W(!new)>(ops: Ops<W>, trees: Trees, file: File, b: Block, st: State<W>)
    requires forall w: W, e: string :: ops.truth(w, e).1 == w && ops.isDefined(w, e).1 == w
    ensures ExecBlock(ops, trees, file, b, st) == Meaning(ops, trees, file, b, st)
  {
    var fr := SameFrame<W>(file);
    forall w: W ensures (w, w) in fr.pairs { assert Any(w); }
    AllTame(ops, fr.rules, trees, file, b, st);
    BlockTogether(ops, ops, fr, trees, file, b, st, st);
  }

  /** So a run is the standard's meaning itself. */
  lemma QuietMeansSelection<W(!new)>(ops: Ops<W>, trees: Trees, file: File, st: State<W>)
    requires AllWellNested(trees) && file in trees
    requires forall w: W, e: string :: ops.truth(w, e).1 == w && ops.isDefined(w, e).1 == w
    ensures var end := Meaning(ops, trees, file, trees[file], st);
            FindIncludes(ops, ContentsOf(trees), file, 0, ContentsOf(trees)[file], st)
            == Found(AtEnd, [], end.(w := ops.finish(end.w, file)))
  {
    FindFile(ops, trees, file, st);
    QuietBlock(ops, trees, file, trees[file], st);
  }

  lemma {:induction false} AllTame<V>(ideal: Ops<V>, rules: Rules<V>, trees: Trees, file: File, b: Block, st: State<V>)
    requires forall v, f: File, d: string :: rules.fits(v, f, d)
    requires forall v, f: File, n: string, q: bool :: rules.joins(v, f, n, q)
    ensures Tame(ideal, rules, trees, file, b, st)
    decreases Unread(trees, st), Size(b), 1
  {
    match b
    case Empty =>
    case Plain(line, rest) =>
      AllTameLine(ideal, rules, trees, file, line.kind, st);
      AllTame(ideal, rules, trees, file, rest, LineMeaning(ideal, trees, file, line.kind, st));
    case Cond(open, body, tail, rest) =>
      var chosen := Chosen(ideal, st.w, open, body, tail);
      AllTame(ideal, rules, trees, file, chosen, st);
      AllTame(ideal, rules, trees, file, rest, Meaning(ideal, trees, file, chosen, st));
  }

  lemma {:induction false} AllTameLine<V>(ideal: Ops<V>, rules: Rules<V>, trees: Trees, file: File, kind: Kind, st: State<V>)
    requires forall v, f: File, d: string :: rules.fits(v, f, d)
    requires forall v, f: File, n: string, q: bool :: rules.joins(v, f, n, q)
    ensures TameLine(ideal, rules, trees, file, kind, st)
    decreases Unread(trees, st), 0, 1
  {
    if kind.Include? {
      var (name, v1) := ideal.includeName(st.w, file, kind.text);
      var quoted := name.Quoted?;
      if name != NoName {
        var (found, v2) := Resolve(ideal, v1, file, name.name, quoted);
        if found.Some? && found.value !in st.searched && found.value in trees {
          var f := found.value;
          AllTame(ideal, rules, trees, f, trees[f], State(v2, st.searched + {f}, st.scanned + [f]));
        }
      }
    }
  }

  // ---------- every included file is read once ----------

  /** The files read so far are marked SEARCHED, and none was read twice. */
  ghost predicate ReadOnce<W>(st: State<W>) {
    && Distinct(st.scanned)
    && (forall i :: 0 <= i < |st.scanned| ==> st.scanned[i] in st.searched)
  }

  /** Reading on never reads a file again, on any input. */
  ghost predicate ReadsOn<W>(st: State<W>, st': State<W>) {
    ReadOnce(st) ==> ReadOnce(st') && st.scanned <= st'.scanned
  }

  lemma Onward<W>(a: State<W>, b: State<W>, c: State<W>)
    requires ReadsOn(a, b) && ReadsOn(b, c)
    ensures ReadsOn(a, c)
  {
  }

  lemma {:induction false} FindReadsOnce<W>(ops: Ops<W>, contents: Contents, file: File, depth: nat, lines: seq<Directive>, st: State<W>)
    ensures ReadsOn(st, FindIncludes(ops, contents, file, depth, lines, st).st)
    decreases Unsearched(contents, st), |lines|, 2
  {
    if lines != [] {
      var kind := lines[0].kind;
      if Opens(kind) {
        var (b, w1) := Test(ops, kind, st.w);
        var r := Conditional(ops, contents, file, depth, b, lines[1..], st.(w := w1));
        ConditionalReadsOnce(ops, contents, file, depth, b, lines[1..], st.(w := w1));
        FindReadsOnce(ops, contents, file, depth, r.rest, r.st);
        Onward(st.(w := w1), r.st, FindIncludes(ops, contents, file, depth, r.rest, r.st).st);
      } else if kind.Else? || kind.Elif? {
        StrayReadsOnce(ops, contents, file, depth, if kind.Else? then AtElse else AtElif, lines, st);
      } else if kind.EndIf? {
        if depth == 0 { FindReadsOnce(ops, contents, file, depth, lines[1..], st.(w := ops.define(st.w, file, lines[0].text))); }
      } else {
        var st1 := Execute(ops, contents, file, kind, st);
        ExecuteReadsOnce(ops, contents, file, kind, st);
        FindReadsOnce(ops, contents, file, depth, lines[1..], st1);
        Onward(st, st1, FindIncludes(ops, contents, file, depth, lines[1..], st1).st);
      }
    }
  }

  lemma {:induction false} StrayReadsOnce<W>(ops: Ops<W>, contents: Contents, file: File, depth: nat, stop: Stop,
                                             lines: seq<Directive>, st: State<W>)
    requires lines != []
    ensures ReadsOn(st, Stray(ops, contents, file, depth, stop, lines, st).st)
    decreases Unsearched(contents, st), |lines|, 0
  {
    if depth == 0 {
      var g := Gobble(ops, lines[1..], st.w);
      FindReadsOnce(ops, contents, file, depth, g.rest, st.(w := ops.define(g.w, file, lines[0].text)));
    }
  }

  lemma {:induction false} ConditionalReadsOnce<W>(ops: Ops<W>, contents: Contents, file: File, depth: nat, taken: bool,
                                                   lines: seq<Directive>, st: State<W>)
    ensures ReadsOn(st, Conditional(ops, contents, file, depth, taken, lines, st).st)
    decreases Unsearched(contents, st), |lines|, 3
  {
    if taken {
      FindReadsOnce(ops, contents, file, depth + 1, lines, st);
    } else {
      var g := Gobble(ops, lines, st.w);
      var st1 := st.(w := g.w);
      match g.stop
      case AtElse => FindReadsOnce(ops, contents, file, depth + 1, g.rest, st1);
      case AtElif => ConditionalReadsOnce(ops, contents, file, depth, true, g.rest, st1);
      case AtElifFalse => ConditionalReadsOnce(ops, contents, file, depth, false, g.rest, st1);
      case _ =>
    }
  }

  lemma {:induction false} ExecuteReadsOnce<W>(ops: Ops<W>, contents: Contents, file: File, kind: Kind, st: State<W>)
    ensures ReadsOn(st, Execute(ops, contents, file, kind, st))
    decreases Unsearched(contents, st), 0, 1
  {
    if kind.Include? {
      var (name, w1) := ops.includeName(st.w, file, kind.text);
      match name
      case NoName =>
      case Quoted(name) => AddIncludeReadsOnce(ops, contents, file, ops.find(w1, file, name, true), st);
      case Bracketed(name) => AddIncludeReadsOnce(ops, contents, file, ops.find(w1, file, name, false), st);
    }
  }

  lemma {:induction false} AddIncludeReadsOnce<W>(ops: Ops<W>, contents: Contents, file: File, found: (Option<File>, W), st: State<W>)
    ensures ReadsOn(st, AddInclude(ops, contents, file, found, st))
    decreases Unsearched(contents, st), 0, 0
  {
    if found.0.Some? && found.0.value !in st.searched && found.0.value in contents {
      var f := found.0.value;
      var st1 := st.(w := ops.includedBy(found.1, file, f));
      FindReadsOnce(ops, contents, f, 0, contents[f], st1.(searched := st1.searched + {f}, scanned := st1.scanned + [f]));
    }
  }

  /** The state after the first of the command-line files. */
  function RunOne<W>(opsFor: File -> Ops<W>, contents: Contents, root: File, st: State<W>): State<W> {
    FindIncludes(opsFor(root), contents, root, 0, if root in contents then contents[root] else [], st).st
  }

  /** The command-line files one after the other; the operations know which of them is being processed. */
  function Run<W>(opsFor: File -> Ops<W>, contents: Contents, roots: seq<File>, st: State<W>): State<W>
    decreases |roots|
  {
    if roots == [] then st else Run(opsFor, contents, roots[1..], RunOne(opsFor, contents, roots[0], st))
  }

  /** What is read in the same run, in order: each command-line file by main, and behind it what add_include reads for it. */
  function Reads<W>(opsFor: File -> Ops<W>, contents: Contents, roots: seq<File>, st: State<W>): seq<File>
    decreases |roots|
  {
    if roots == [] then []
    else
      var next := RunOne(opsFor, contents, roots[0], st);
      ([roots[0]] + NewIn(st.scanned, next.scanned)) + Reads(opsFor, contents, roots[1..], next)
  }

  function NewIn(before: seq<File>, after: seq<File>): seq<File> {
    if |before| <= |after| then after[|before|..] else []
  }

  lemma RunOneReadsOnce<W>(opsFor: File -> Ops<W>, contents: Contents, root: File, st: State<W>)
    ensures ReadsOn(st, RunOne(opsFor, contents, root, st))
  {
    FindReadsOnce(opsFor(root), contents, root, 0, if root in contents then contents[root] else [], st);
  }

  /** Over a whole run add_include reads every file at most once. */
  lemma {:induction false} RunReadsOnce<W>(opsFor: File -> Ops<W>, contents: Contents, roots: seq<File>, st: State<W>)
    ensures ReadsOn(st, Run(opsFor, contents, roots, st))
    decreases |roots|
  {
    if roots != [] {
      var next := RunOne(opsFor, contents, roots[0], st);
      RunOneReadsOnce(opsFor, contents, roots[0], st);
      RunReadsOnce(opsFor, contents, roots[1..], next);
    }
  }

  lemma CountOne(before: seq<File>, after: seq<File>, roots: seq<File>, more: seq<File>, all: seq<File>)
    requires before <= after && roots != []
    requires multiset(after) + multiset(more) == multiset(roots[1..]) + multiset(all)
    ensures multiset(before) + multiset(([roots[0]] + NewIn(before, after)) + more) == multiset(roots) + multiset(all)
  {
    var new' := NewIn(before, after);
    assert after == before + new' && roots == [roots[0]] + roots[1..];
    var b, n, m, f, t, a := multiset(before), multiset(new'), multiset(more), multiset([roots[0]]), multiset(roots[1..]), multiset(all);
    assert b + n + m == t + a;
    assert b + (f + n + m) == f + (b + n + m);
  }

  /** The reads are the command-line files and what is new among the files scanned. */
  lemma {:induction false} ReadsCounted<W>(opsFor: File -> Ops<W>, contents: Contents, roots: seq<File>, st: State<W>)
    requires ReadOnce(st)
    ensures multiset(st.scanned) + multiset(Reads(opsFor, contents, roots, st))
            == multiset(roots) + multiset(Run(opsFor, contents, roots, st).scanned)
    decreases |roots|
  {
    if roots != [] {
      var next := RunOne(opsFor, contents, roots[0], st);
      RunOneReadsOnce(opsFor, contents, roots[0], st);
      ReadsCounted(opsFor, contents, roots[1..], next);
      CountOne(st.scanned, next.scanned, roots, Reads(opsFor, contents, roots[1..], next), Run(opsFor, contents, roots[1..], next).scanned);
    }
  }

  lemma CountTwice(log: seq<File>, roots: seq<File>, scanned: seq<File>, file: File)
    requires Distinct(scanned) && Distinct(roots) && multiset(log) == multiset(roots) + multiset(scanned)
    ensures multiset(log)[file] <= if file in roots then 2 else 1
  {
    DistinctOnce(scanned, file);
    DistinctOnce(roots, file);
  }

  /**
   So a run that begins with nothing read reads a command-line file at most twice, if each is named once, and
   every other file at most once.
   */
  lemma ReadsAtMostTwice<W>(opsFor: File -> Ops<W>, contents: Contents, roots: seq<File>, st: State<W>, file: File)
    requires st.scanned == [] && Distinct(roots)
    ensures multiset(Reads(opsFor, contents, roots, st))[file] <= if file in roots then 2 else 1
  {
    ReadsCounted(opsFor, contents, roots, st);
    RunReadsOnce(opsFor, contents, roots, st);
    var log, scanned := Reads(opsFor, contents, roots, st), Run(opsFor, contents, roots, st).scanned;
    assert multiset(st.scanned) + multiset(log) == multiset(log);
    CountTwice(log, roots, scanned, file);
  }
}
