/**
 The same sequences on the objects: after each operation they hold the tables that the run on values says.
 */
module HeapRuns {
  import opened CStrings
  import opened SymbolTable
  import opened LookupSpec
  import opened Visibility
  import opened Including
  import opened Defining
  import opened Runs
  import opened Wrappers
  import I = IncludeGraph

  /** An operation as the program calls it. */
  datatype Call =
    | CallIsdefined(symbol: CString, file: Inclist)
    | CallUndefine(symbol: CString, file: Inclist)
    | CallDefine(name: CString, val: string, file: Inclist)
    | CallIncludedBy(file: Inclist, newfile: Inclist)
    | CallFinish(file: Inclist)

  ghost predicate IsCall(c: Call, files: seq<Inclist>, main: Inclist) {
    && IsFile(files, c.file)
    && (c.CallIncludedBy? ==> IsFile(files, c.newfile) && c.file.id != main.id)
  }

  /** The call is the operation on values; a definition is carried by a cell of that name. */
  ghost predicate Says(c: Call, op: Op) {
    match c
    case CallIsdefined(symbol, file) => op == Look(symbol, file.id)
    case CallUndefine(symbol, file) => op == Undef(symbol, file.id)
    case CallDefine(name, val, file) => op.Def? && op.file == file.id && op.cell.name == name && op.value == val
    case CallIncludedBy(file, newfile) => op == Include(file.id, newfile.id)
    case CallFinish(file) => op == Finish(file.id)
  }

  /** The objects hold the state, cells with their values among them; `arrays` are all that are in use. */
  ghost predicate Holding(files: seq<Inclist>, s: State, arrays: set<array?<Symtab?>>)
    reads files, (set i | 0 <= i < |files| :: files[i].defs), s.vals.Keys
  {
    && s.Ok() && I.Represents(files, s.g, s.w) && I.OwnArrays(files) && I.Within(files, arrays) && ValuesHold(s.vals)
  }

  ghost predicate ValuesHold(vals: map<Symtab, string>)
    reads vals.Keys
  {
    forall c :: c in vals ==> c.value == vals[c]
  }

  method DoDefine(name: CString, val: string, file: Inclist, ghost files: seq<Inclist>, ghost s: State, ghost arrays: set<array?<Symtab?>>)
      returns (ghost op: Op, ghost all: set<array?<Symtab?>>)
    requires Holding(files, s, arrays) && IsFile(files, file)
    modifies files`defs, files`ndefs, arrays, s.vals.Keys
    ensures op.Def? && op.file == file.id && op.cell.name == name && op.value == val && Fits(s, op)
    ensures Holding(files, Perform(s, op), all)
    ensures op.cell in s.vals || fresh(op.cell)
    ensures forall a :: a in all ==> a in arrays || a == null || fresh(a)
  {
    ghost var c := DefineCell(name, val, file, files, s, arrays);
    op := Def(c, val, file.id);
    all := arrays + {file.defs};
  }

  method DefineCell(name: CString, val: string, file: Inclist, ghost files: seq<Inclist>, ghost s: State,
                    ghost arrays: set<array?<Symtab?>>)
      returns (ghost c: Symtab)
    requires Holding(files, s, arrays) && IsFile(files, file)
    modifies files`defs, files`ndefs, arrays, s.vals.Keys
    ensures c.name == name && IsCellFor(s, c, file.id) && (c in s.vals || fresh(c))
    ensures I.Represents(files, s.g, DefineIn(s.g, s.w, file.id, c)) && I.OwnArrays(files) && ValuesHold(s.vals[c := val])
    ensures I.Within(files, arrays + {file.defs}) && (file.defs in arrays || fresh(file.defs))
  {
    I.IsThisFile(files, s.g, s.w, file);
    assert file in files && file.defs in arrays && forall k :: 0 <= k < |file.Cells()| ==> file.Cells()[k] in s.vals;
    c := Define(name, val, file, files, s.g, s.w, s.vals.Keys);
    LookupHolds(s.w.tables[file.id], name);
  }

  method DoIsdefined(symbol: CString, file: Inclist, main: Inclist, ghost files: seq<Inclist>, ghost s: State,
                     ghost arrays: set<array?<Symtab?>>)
      returns (found: bool, ghost all: set<array?<Symtab?>>)
    requires Holding(files, s, arrays) && IsFile(files, file) && IsFile(files, main) && main.id == s.g.main
    modifies files`defChecked, files`defs, files`ndefs, files`merged
    ensures Holding(files, Perform(s, Look(symbol, file.id)), all)
    ensures found <==> Sees(s, file.id, symbol)
    ensures forall a :: a in all ==> a in arrays || a == null || fresh(a)
  {
    var val, srcfile := I.IsDefined(symbol, file, main, files, s.g, s.w, arrays);
    found := srcfile != null;
    all := arrays + set f | f in files :: f.defs;
  }

  method DoUndefine(symbol: CString, file: Inclist, main: Inclist, ghost files: seq<Inclist>, ghost s: State,
                    ghost arrays: set<array?<Symtab?>>)
      returns (ghost all: set<array?<Symtab?>>)
    requires Holding(files, s, arrays) && IsFile(files, file) && IsFile(files, main) && main.id == s.g.main
    modifies files`defChecked, files`defs, files`ndefs, files`merged, arrays
    ensures Holding(files, Perform(s, Undef(symbol, file.id)), all)
    ensures forall a :: a in all ==> a in arrays || a == null || fresh(a)
  {
    all := I.Undefine(symbol, file, main, files, s.g, s.w, arrays);
  }

  method DoIncludedBy(file: Inclist, newfile: Inclist, ghost files: seq<Inclist>, ghost s: State, ghost arrays: set<array?<Symtab?>>)
    requires Holding(files, s, arrays) && IsFile(files, file) && IsFile(files, newfile) && file.id != s.g.main
    modifies file`list, file`merged
    ensures Holding(files, Perform(s, Include(file.id, newfile.id)), arrays)
  {
    IncludedBy(file, newfile, files, s.g, s.w);
  }

  method SetFinished(f: Inclist, ghost files: seq<Inclist>, ghost g: Graph, ghost w: World)
    requires I.Represents(files, g, w) && IsFile(files, f)
    modifies f`finished
    ensures I.Represents(files, g.(finished := g.finished + {f.id}), w)
  {
    f.finished := true;
  }

  method DoFinish(file: Inclist, ghost files: seq<Inclist>, ghost s: State, ghost arrays: set<array?<Symtab?>>)
    requires Holding(files, s, arrays) && IsFile(files, file)
    modifies file`finished
    ensures Holding(files, Perform(s, Finish(file.id)), arrays)
  {
    SetFinished(file, files, s.g, s.w);
  }

  /** One call: the objects hold what the operation gives, sorted, with room, and without shared arrays. */
  method DoCall(call: Call, main: Inclist, ghost files: seq<Inclist>, ghost s: State, ghost arrays: set<array?<Symtab?>>)
      returns (ghost op: Op, ghost all: set<array?<Symtab?>>)
    requires Holding(files, s, arrays) && IsCall(call, files, main) && IsFile(files, main) && main.id == s.g.main
    modifies files`defChecked, files`defs, files`ndefs, files`merged, files`list, files`finished, arrays, s.vals.Keys
    ensures Says(call, op) && Fits(s, op) && Holding(files, Perform(s, op), all)
    ensures forall a :: a in all ==> a in arrays || a == null || fresh(a)
    ensures forall c :: c in Perform(s, op).vals ==> c in s.vals || fresh(c)
  {
    all := arrays;
    match call {
      case CallIsdefined(symbol, file) =>
        op := Look(symbol, file.id);
        var found;
        found, all := DoIsdefined(symbol, file, main, files, s, arrays);
      case CallUndefine(symbol, file) =>
        op := Undef(symbol, file.id);
        all := DoUndefine(symbol, file, main, files, s, arrays);
      case CallDefine(name, val, file) =>
        op, all := DoDefine(name, val, file, files, s, arrays);
      case CallIncludedBy(file, newfile) =>
        op := Include(file.id, newfile.id);
        DoIncludedBy(file, newfile, files, s, arrays);
      case CallFinish(file) =>
        op := Finish(file.id);
        DoFinish(file, files, s, arrays);
    }
  }

  /** Any sequence of calls ends with the objects holding what the run on values gives. */
  method DoCalls(calls: seq<Call>, main: Inclist, ghost files: seq<Inclist>, ghost s: State, ghost arrays: set<array?<Symtab?>>)
      returns (ghost ops: seq<Op>, ghost t: State)
    requires Holding(files, s, arrays) && IsFile(files, main) && main.id == s.g.main
    requires forall k :: 0 <= k < |calls| ==> IsCall(calls[k], files, main)
    modifies files`defChecked, files`defs, files`ndefs, files`merged, files`list, files`finished, arrays, s.vals.Keys
    ensures Ran(s, calls, ops, t) && I.Represents(files, t.g, t.w) && I.OwnArrays(files) && ValuesHold(t.vals)
  {
    ops, t := [], s;
    ghost var all := arrays;
    var i := 0;
    while i < |calls|
      invariant i <= |calls| && Ran(s, calls[..i], ops, t)
      invariant Holding(files, t, all) && |t.g.lists| == |s.g.lists| && t.g.main == s.g.main
      invariant forall a :: a in all ==> a in arrays || a == null || fresh(a)
      invariant forall c :: c in t.vals ==> c in s.vals || fresh(c)
    {
      ghost var op;
      op, all := DoCall(calls[i], main, files, t, all);
      RanOneMore(s, calls, i, ops, t, op);
      ops, t := ops + [op], Perform(t, op);
      i := i + 1;
    }
    assert calls[..i] == calls;
  }

  /** The calls were the operations, which lead to `t`. */
  ghost predicate Ran(s: State, calls: seq<Call>, ops: seq<Op>, t: State) {
    && s.Ok() && AllFit(s, ops) && |ops| == |calls| && (forall k :: 0 <= k < |calls| ==> Says(calls[k], ops[k]))
    && t == Run(s, ops)
  }

  lemma RanOneMore(s: State, calls: seq<Call>, i: nat, ops: seq<Op>, t: State, op: Op)
    requires i < |calls| && Ran(s, calls[..i], ops, t) && t.Ok() && Fits(t, op) && Says(calls[i], op)
    ensures Ran(s, calls[..i + 1], ops + [op], Perform(t, op))
  {
    RunConcat(s, ops, op);
    assert calls[..i + 1] == calls[..i] + [calls[i]];
  }
}
