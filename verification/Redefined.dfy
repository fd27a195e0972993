/**
 A header that defines a macro again, otherwise than it is: merging the header while some other name is looked up gives the
 includer the header's value, and turns a condition over.
 */
module Redefined {
  import opened CStrings
  import CText
  import opened CNumbers
  import opened SymbolTable
  import opened LookupSpec
  import opened Visibility
  import opened Including
  import opened Defining
  import opened Answers
  import opened Runs
  import opened FlatGraph
  import opened Flips
  import opened AliasChain
  import opened Cppsetup
  import opened IfParser
  import opened IfGrammar
  import opened IfTheorems
  import opened GraphOps
  import opened Wrappers

  // ---------- the condition "X" ----------

  lemma EndOfNumber(links: Links, name: string, text: string)
    requires name in links && links[name] == text && text !in links
    ensures End(links, name) == text
  {
    assert |links| > 0;
    assert After(links, text, |links| - 1) == text;
  }

  /** The condition that is just a name holds when the number it stands for is not 0. */
  lemma NameIsTrue(defs: Defs, name: string, text: string)
    requires IsName(name) && !IsKeyword(name) && |name| <= MAXNAMELEN
    requires name in defs && defs[name] == text && !CText.IsVarFirst(CText.First(text))
    ensures IsTrue(defs, name) <==> Strtol(text, 0).val != 0
  {
    var e := Leaf(Variable("", name));
    NameText(name, "");
    assert ValueTokens(e.v) && Tokens(e) && Derives(e);
    SpellsIsRead(EnvOf(defs), e, "", name);
    EndOfNumber(Aliases(defs), name, text);
    assert Eval(EnvOf(defs), e) == Num(Cppsetup.Value(defs, name));
  }

  lemma OneAndZero()
    ensures Strtol("1", 0).val == 1 && Strtol("0", 0).val == 0
  {
    DecimalRoundTrip(1);
    DecimalRoundTrip(0);
  }

  lemma XIsTrue(defs: Defs)
    requires "X" in defs && (defs["X"] == "1" || defs["X"] == "0")
    ensures IsTrue(defs, "X") <==> defs["X"] == "1"
  {
    OneAndZero();
    NameIsTrue(defs, "X", defs["X"]);
  }

  // ---------- the run ----------

  /** The command line is file 0, the file being read is 1, its header is 2; nothing is defined yet. */
  ghost function Empty(): State { State(Graph([[], [], []], {}, 0), World([[], [], []], [[], [], []], {}), map[]) }

  /** #define X 1 in the file, then #include of the header, which has #define X 0 and ends. */
  ghost function Lines(a: Symtab, b: Symtab): seq<Op> { [Def(a, "1", 1), Include(1, 2), Def(b, "0", 2), Finish(2)] }

  ghost function Twice(a: Symtab, b: Symtab): State {
    State(Graph([[], [2], []], {2}, 0), World([[], [a], [b]], [[], [false], []], {}), map[a := "1", b := "0"])
  }

  lemma InsertFirst(c: Symtab)
    ensures !Holds([], c.name) && Insert([], c) == [c]
  {
    assert [] + [c] + [] == [c];
  }

  ghost function Defined(a: Symtab): State { State(Empty().g, World([[], [a], []], [[], [], []], {}), map[a := "1"]) }

  ghost function Included(a: Symtab): State {
    State(Graph([[], [2], []], {}, 0), World([[], [a], []], [[], [false], []], {}), map[a := "1"])
  }

  lemma FirstLine(a: Symtab)
    requires a.name == "X"
    ensures Empty().Ok() && Fits(Empty(), Def(a, "1", 1)) && Perform(Empty(), Def(a, "1", 1)) == Defined(a)
  {
    InsertFirst(a);
    assert [[], [], []][1 := [a]] == [[], [a], []];
  }

  lemma SecondLine(a: Symtab)
    requires a.name == "X"
    ensures Defined(a).Ok() && Fits(Defined(a), Include(1, 2)) && Perform(Defined(a), Include(1, 2)) == Included(a)
  {
    FirstLine(a);
    var s := Defined(a);
    assert [] + [2] == [2] && [] + [false] == [false];
    assert IncludeIn(s.g, 1, 2).lists == [[], [2], []];
    assert Unmerged(s.g, s.w, 1, 2).merged == [[], [false], []];
  }

  lemma ThirdLine(a: Symtab, b: Symtab)
    requires a.name == b.name == "X" && a != b
    ensures var s := Included(a);
            && s.Ok() && Fits(s, Def(b, "0", 2))
            && Perform(s, Def(b, "0", 2)) == Twice(a, b).(g := s.g)
  {
    SecondLine(a);
    InsertFirst(b);
    assert [[], [a], []][2 := [b]] == [[], [a], [b]];
  }

  lemma LinesLeadThere(a: Symtab, b: Symtab)
    requires a.name == b.name == "X" && a != b
    ensures Empty().Ok() && AllFit(Empty(), Lines(a, b)) && Run(Empty(), Lines(a, b)) == Twice(a, b)
  {
    FirstLine(a);
    SecondLine(a);
    ThirdLine(a, b);
    var s3 := Twice(a, b).(g := Included(a).g);
    assert Fits(s3, Finish(2)) && Perform(s3, Finish(2)) == Twice(a, b);
    var ops := Lines(a, b);
    Tail(s3, ops, 3);
    Tail(Included(a), ops, 2);
    Tail(Defined(a), ops, 1);
    Tail(Empty(), ops, 0);
    assert ops[0..] == ops && ops[4..] == [];
  }

  lemma Tail(s: State, ops: seq<Op>, i: nat)
    requires i < |ops| && s.Ok() && Fits(s, ops[i])
    ensures AllFit(s, ops[i..]) <==> AllFit(Perform(s, ops[i]), ops[i + 1..])
    ensures AllFit(s, ops[i..]) ==> Run(s, ops[i..]) == Run(Perform(s, ops[i]), ops[i + 1..])
  {
    assert ops[i..][0] == ops[i] && ops[i..][1..] == ops[i + 1..];
  }

  lemma TwiceIsFlat(a: Symtab, b: Symtab)
    requires a.name == b.name == "X" && a != b
    ensures Flat(Twice(a, b), 1, {2}) && !Sees(Twice(a, b), 1, "Y") && Holds(Twice(a, b).w.tables[1], "X")
            && Holds(Twice(a, b).w.tables[2], "X")
    ensures !Holds(Twice(a, b).w.tables[0], "X") && Cell(Twice(a, b), 1, "X") == a && Winner(Twice(a, b), 1, "Y", "X") == Some(0)
  {
    var s := Twice(a, b);
    assert s.w.tables[1][0].name == "X" && s.w.tables[2][0].name == "X";
    FlatSees(s, 1, {2}, "Y");
    MissPassesAll(s, 1, {2}, "Y");
    assert Brought(s.g, s.w, 1, 0, "X");
  }

  lemma HoldsBefore(a: Symtab, b: Symtab)
    requires a.name == b.name == "X" && a != b
    ensures Twice(a, b).Ok() && IsTrue(Visibles(Twice(a, b), 1), "X")
  {
    TwiceIsFlat(a, b);
    ValueSeen(Twice(a, b), 1, "X", a, "1");
    XIsTrue(Visibles(Twice(a, b), 1));
  }

  lemma FailsAfter(a: Symtab, b: Symtab)
    requires a.name == b.name == "X" && a != b
    ensures Twice(a, b).Ok() && !IsTrue(Visibles(Perform(Twice(a, b), Look("Y", 1)), 1), "X")
  {
    var s := Twice(a, b);
    TwiceIsFlat(a, b);
    CellAfter(s, 1, {2}, "Y", "X");
    LookFlat(s, 1, {2}, "Y");
    assert Lookup(s.w.tables[2], "X") == b;
    ValueSeen(Perform(s, Look("Y", 1)), 1, "X", b, "0");
    XIsTrue(Visibles(Perform(s, Look("Y", 1)), 1));
  }

  /**
   Those lines lead to a state in which "#if X" holds, and no longer holds once another name, defined nowhere, has been looked
   up.
   */
  lemma LookupFlips(a: Symtab, b: Symtab)
    requires a.name == b.name == "X" && a != b
    ensures Empty().Ok() && AllFit(Empty(), Lines(a, b))
    ensures var s := Run(Empty(), Lines(a, b));
            && !Sees(s, 1, "Y") && IsTrue(Visibles(s, 1), "X")
            && !IsTrue(Visibles(Perform(s, Look("Y", 1)), 1), "X")
  {
    LinesLeadThere(a, b);
    TwiceIsFlat(a, b);
    HoldsBefore(a, b);
    FailsAfter(a, b);
  }

  lemma ValueSeen(s: State, root: File, name: CString, c: Symtab, text: string)
    requires s.Ok() && root < |s.g.lists| && Cell(s, root, name) == c && c in s.vals && s.vals[c] == text && c.name == name
    ensures name in Visibles(s, root) && Visibles(s, root)[name] == text
  {
    assert name in Names(s);
  }
}
