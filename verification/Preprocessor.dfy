/**
 The pieces put together: from the raw texts of files, through getline and a check of their nesting, to what the
 scanners do with them over the real symbol tables with the real conditions, against one table of definitions.
 */
module Preprocessor {
  import D = Directives
  import N = Nesting
  import C = NestingCheck
  import L = LineResults
  import G = GraphOps
  import P = FlatOps
  import R = Runs
  import F = FlatRuns
  import O = OneTable
  import T = TablesAsOne
  import Q = NestedRuns
  import opened Cppsetup

  type Texts = map<D.File, string>

  /** The lines that getline returns, with what they say. */
  function Parsed(lines: L.Lines): seq<D.Directive> {
    match lines
    case None => []
    case Line(_, text, more) => [D.Parse(text)] + Parsed(more)
  }

  function Contents(texts: Texts): D.Contents {
    map f | f in texts :: Parsed(L.Results(texts[f], 0))
  }

  /** For texts without bare lines these are the lines of the blanked text that begin with '#'. */
  lemma ReadsBlankedText(texts: Texts, file: D.File)
    requires file in texts && L.Tidy(texts[file], 0)
    ensures Contents(texts)[file] == Parsed(L.Wanted(texts[file], 0))
  {
    L.ReturnsAllHashLines(texts[file], 0);
  }

  // ---------- nesting ----------

  predicate AllNest(texts: Texts) { forall f :: f in texts ==> C.Nest(Contents(texts)[f]).Some? }

  function Trees(texts: Texts): N.Trees
    requires AllNest(texts)
  {
    map f | f in texts :: C.Nest(Contents(texts)[f]).value
  }

  /** The texts are the lines of well-nested trees, and of no others. */
  lemma TextsAreTrees(texts: Texts)
    requires AllNest(texts)
    ensures N.AllWellNested(Trees(texts)) && N.ContentsOf(Trees(texts)) == Contents(texts)
    ensures forall trees: N.Trees :: N.AllWellNested(trees) && N.ContentsOf(trees) == Contents(texts) ==> trees == Trees(texts)
  {
    forall f | f in texts ensures N.WellNested(Trees(texts)[f]) && N.Lines(Trees(texts)[f], []) == Contents(texts)[f] {
      C.NestsExactly(Contents(texts)[f], Trees(texts)[f]);
    }
    assert N.ContentsOf(Trees(texts)) == Contents(texts);
    forall trees: N.Trees | N.AllWellNested(trees) && N.ContentsOf(trees) == Contents(texts) ensures trees == Trees(texts) {
      OnlyTrees(texts, trees);
    }
  }

  lemma OnlyTrees(texts: Texts, trees: N.Trees)
    requires AllNest(texts) && N.AllWellNested(trees) && N.ContentsOf(trees) == Contents(texts)
    ensures trees == Trees(texts)
  {
    SameFiles(texts, trees);
    forall f | f in texts ensures trees[f] == Trees(texts)[f] { OnlyTree(texts, trees, f); }
    SameMaps(trees, Trees(texts));
  }

  lemma SameFiles(texts: Texts, trees: N.Trees)
    requires N.ContentsOf(trees) == Contents(texts)
    ensures trees.Keys == texts.Keys
  {
    assert N.ContentsOf(trees).Keys == trees.Keys && Contents(texts).Keys == texts.Keys;
  }

  lemma SameMaps(a: N.Trees, b: N.Trees)
    requires a.Keys == b.Keys && forall f :: f in a ==> a[f] == b[f]
    ensures a == b
  {
  }

  lemma OnlyTree(texts: Texts, trees: N.Trees, f: D.File)
    requires AllNest(texts) && N.AllWellNested(trees) && N.ContentsOf(trees) == Contents(texts) && f in texts && f in trees
    ensures trees[f] == Trees(texts)[f]
  {
    assert N.ContentsOf(trees)[f] == Contents(texts)[f];
    C.NestsExactly(Contents(texts)[f], trees[f]);
  }

  // ---------- what a run does ----------

  /**
   Whatever the operations are, also those that look things up and thereby change the tables: every file is executed
   as its tree and read to the end.
   */
  lemma ExecutesTrees<W>(ops: D.Ops<W>, texts: Texts, file: D.File, st: D.State<W>)
    requires AllNest(texts) && file in texts
    ensures D.FindIncludes(ops, Contents(texts), file, 0, Contents(texts)[file], st)
            == D.Found(D.AtEnd, [], N.ExecFile(ops, Trees(texts), file, st))
  {
    TextsAreTrees(texts);
    N.FindFile(ops, Trees(texts), file, st);
  }

  // ---------- the real tables ----------

  /**
   Over the real tables, for headers that include nothing: although lookups merge tables, the lines executed are those
   that one table of definitions gives, with the real conditions and macro values; the same files are read in the
   same order, and the same names are visible at the end with the same values.
   */
  lemma FlatProgram(h: G.Host, texts: Texts, st: D.State<R.State>)
    requires P.FlatHost(h) && AllNest(texts) && h.root in texts && F.Begins(h, st)
    requires F.Conforms(h, Trees(texts), st) && F.HasRoom(h, Trees(texts), st)
    ensures Contents(texts) == N.ContentsOf(Trees(texts)) && F.RunsAsOneTable(h, Trees(texts), st)
  {
    TextsAreTrees(texts);
    F.RootRuns(h, Trees(texts), st);
  }

  /**
   The whole run of main: each command-line file in turn, with the tables, marks and headers that those before it have
   left, runs as over one table of definitions of its own.
   */
  lemma AllRootsRun(h: G.Host, texts: Texts, roots: seq<D.File>, st: D.State<R.State>)
    requires P.FlatHost(h) && AllNest(texts) && (forall k :: 0 <= k < |roots| ==> roots[k] in texts)
    requires F.AllBegin(h, roots, st) && F.AllConform(h, Trees(texts), roots, st) && F.AllHaveRoom(h, Trees(texts), roots, st)
    ensures Contents(texts) == N.ContentsOf(Trees(texts)) && F.AllRun(h, Trees(texts), roots, st)
  {
    TextsAreTrees(texts);
    F.RootsRun(h, Trees(texts), roots, st);
  }

  // ---------- headers nested in any way ----------

  /** From the raw texts, however deep headers include headers: a run that stays calm is one over one table of definitions. */
  lemma NestedProgram(h: G.Host, left: map<D.File, Defs>, texts: Texts, st: D.State<R.State>, v: O.View)
    requires AllNest(texts) && h.root in texts && st.w.Ok() && T.Stands(st.w, h.root, v.defs)
    requires Q.StaysCalm(h, left, Trees(texts), st, v)
    ensures Contents(texts) == N.ContentsOf(Trees(texts)) && Q.RunsAsOne(h, left, Trees(texts), st, v)
  {
    TextsAreTrees(texts);
    Q.NestedRun(h, left, Trees(texts), st, v);
  }
}
