/**
 A program to which the results about runs over the tables apply: a file that includes a header, and then defines a macro
 as the header has defined it.
 */
module SmallProgram {
  import opened SymbolTable
  import opened LookupSpec
  import opened Wrappers
  import opened Cppsetup
  import opened DirectiveText
  import opened OneTable
  import opened GraphOps
  import opened FlatOps
  import opened Directives
  import opened Nesting
  import opened FlatRuns
  import R = Runs
  import S = Selection
  import U = Supply

  /** File 1 is the command-line file, file 2 its header. */
  function Files(text: string, def: string): Trees { map[1 := Plain(Directive("", Include(text)), Macro(def)), 2 := Macro(def)] }

  function Macro(def: string): Block { Plain(Directive("", Define(def)), Empty) }

  function Find(f: File, n: string, quoted: bool): Option<File> { if f == 1 then Some(2) else None }

  /** File 0 carries the command line; nothing has been read. */
  ghost function AtFirst(): State<R.State> {
    State(R.State(Graph([[], [], []], {}, 0), World([[], [], []], [[], [], []], {}), map[]), {}, [])
  }

  ghost predicate IsSmall(h: Host) { h.root == 1 && h.leaves == {2} && h.locate == Find }

  lemma SmallBegins(h: Host)
    requires IsSmall(h)
    ensures Begins(h, AtFirst()) && Start(h, AtFirst()).w.defs == map[] && Left(LeftIn(h, AtFirst().w), 2) == map[]
  {
  }

  /** What is defined is at most this. */
  predicate AtMost(defs: Defs, def: string) {
    forall x :: x in defs ==> x == AsName(ParseDefine(def).0) && defs[x] == ParseDefine(def).1
  }

  lemma MacroConforms(h: Host, f: File, text: string, def: string, st: State<View>)
    requires IsSmall(h) && AtMost(st.w.defs, def)
    ensures S.Tame(Ideal(h, AtFirst().w), Constraints(h, AtFirst().w), Files(text, def), f, Macro(def), st)
    ensures AtMost(S.Meaning(Ideal(h, AtFirst().w), Files(text, def), f, Macro(def), st).w.defs, def)
  {
    var ideal, trees := Ideal(h, AtFirst().w), Files(text, def);
    assert S.LineMeaning(ideal, trees, f, Define(def), st) == st.(w := Defined(st.w, def));
  }

  lemma IncludeConforms(h: Host, text: string, def: string, name: string, quoted: bool, st: State<View>)
    requires IsSmall(h) && AtMost(st.w.defs, def)
    ensures var ideal, trees := Ideal(h, AtFirst().w), Files(text, def);
            && S.TameInclude(ideal, Constraints(h, AtFirst().w), trees, 1, name, quoted, st)
            && AtMost(S.IncludeMeaning(ideal, trees, 1, ideal.find(st.w, 1, name, quoted), st).w.defs, def)
  {
    SmallBegins(h);
    var left := LeftIn(h, AtFirst().w);
    var v := WithHeader(st.w, left, 2);
    assert AtMost(v.defs, def);
    MacroConforms(h, 2, text, def, State(v, st.searched + {2}, st.scanned + [2]));
  }

  lemma LineConforms(h: Host, text: string, def: string, st: State<View>)
    requires IsSmall(h) && AtMost(st.w.defs, def)
    ensures var ideal, trees := Ideal(h, AtFirst().w), Files(text, def);
            && S.TameLine(ideal, Constraints(h, AtFirst().w), trees, 1, Include(text), st)
            && AtMost(S.LineMeaning(ideal, trees, 1, Include(text), st).w.defs, def)
  {
    var name := Ideal(h, AtFirst().w).includeName(st.w, 1, text).0;
    if name != NoName { IncludeConforms(h, text, def, name.name, name.Quoted?, st); }
  }

  lemma SmallConforms(h: Host, text: string, def: string)
    requires IsSmall(h) && Begins(h, AtFirst())
    ensures Conforms(h, Files(text, def), AtFirst())
  {
    var st := Start(h, AtFirst());
    SmallBegins(h);
    LineConforms(h, text, def, st);
    MacroConforms(h, 1, text, def, S.LineMeaning(Ideal(h, AtFirst().w), Files(text, def), 1, Include(text), st));
  }

  /** Three cells are enough for it, and it runs as over one table. */
  method RunSmall(text: string, def: string) returns (h: Host)
    ensures IsSmall(h) && FlatHost(h) && h.limit == 3 && Small(h, text, def)
    ensures AllRun(h, Files(text, def), [1], AtFirst())
  {
    var c := new Symtab("", "");
    var none := Host(1, {2}, Find, (e, d) => [], (t, d) => [], (n, k) => c, {}, 0);
    OneBegins(none);
    FilesHaveRoom(text, def);
    h := WithSupply(none, Files(text, def), [1], {AsName(ParseDefine(def).0)}, 3, AtFirst());
    OneConforms(h, text, def);
  }

  /** All that is asked of a program. */
  ghost predicate Small(h: Host, text: string, def: string) {
    && AllWellNested(Files(text, def)) && AllBegin(h, [1], AtFirst()) && AllConform(h, Files(text, def), [1], AtFirst())
    && AllHaveRoom(h, Files(text, def), [1], AtFirst())
  }

  lemma OneBegins(h: Host)
    requires IsSmall(h)
    ensures AllBegin(h, [1], AtFirst())
  {
    SmallBegins(h);
    forall k | 0 <= k < |[1]| ensures BeginsAt(h, [1][k], AtFirst()) { assert h.(root := 1) == h; }
  }

  lemma OneConforms(h: Host, text: string, def: string)
    requires IsSmall(h) && AllBegin(h, [1], AtFirst())
    ensures AllConform(h, Files(text, def), [1], AtFirst())
  {
    assert BeginsAt(h, [1][0], AtFirst()) && h.(root := 1) == h;
    SmallConforms(h, text, def);
  }

  lemma FilesHaveRoom(text: string, def: string)
    ensures AllWellNested(Files(text, def))
    ensures forall f, n :: f in Files(text, def) && n in U.DefinesIn(Files(text, def)[f]) ==> n == AsName(ParseDefine(def).0)
    ensures DefinesInAll(Files(text, def), [1]) + DefinesLeft(Files(text, def), {}) == 3
  {
    var trees := Files(text, def);
    MacroDefines(def);
    assert U.DefinesIn(trees[1]) == U.DefinesIn(Macro(def));
    U.WithoutFile(trees, {1, 2}, 1);
    U.WithoutFile(trees, {2}, 2);
    assert trees.Keys - {} == {1, 2} && {1, 2} - {1} == {2} && {2} - {2} == {};
    assert [1][1..] == [];
  }

  lemma MacroDefines(def: string)
    ensures U.DefinesIn(Macro(def)) == [AsName(ParseDefine(def).0)] && WellNested(Macro(def))
  {
    assert U.DefinesIn(Empty) == [];
  }
}
