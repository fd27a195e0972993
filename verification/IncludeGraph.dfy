/**
 fdefined, isdefined and undefine on the heap of inclist objects.
 */
module IncludeGraph {
  import opened CStrings
  import opened SymbolTable
  import opened Wrappers
  import Spec = LookupSpec
  import Visibility

  // ---------- the heap as a graph and a world ----------

  /** One file object, with everything a lookup sees of it. */
  ghost predicate FileIs(f: Inclist, id: nat, list: seq<nat>, table: Table, merged: seq<bool>, checked: bool, finished: bool)
    reads f, f.defs
  {
    && f.id == id && f.Valid() && f.Cells() == table
    && f.merged == merged && f.defChecked == checked && f.finished == finished
    && |f.list| == |list| && forall k :: 0 <= k < |list| ==> f.list[k].id == list[k]
  }

  /** The objects hold exactly the graph and the world. */
  ghost predicate Represents(files: seq<Inclist>, g: Spec.Graph, w: Spec.World)
    reads files, set i | 0 <= i < |files| :: files[i].defs
  {
    && |files| == |g.lists| && g.Valid() && w.Valid(g)
    && (forall i :: 0 <= i < |files| ==>
          FileIs(files[i], i, g.lists[i], w.tables[i], w.merged[i], i in w.checked, i in g.finished))
    && (forall i, k :: 0 <= i < |files| && 0 <= k < |files[i].list| ==> IsFile(files, files[i].list[k]))
  }

  /** No two files share an i_defs array, though their tables may share cells. */
  ghost predicate OwnArrays(files: seq<Inclist>)
    reads files`defs
  {
    forall i, j :: 0 <= i < j < |files| && files[i].defs != null ==> files[i].defs != files[j].defs
  }

  /** No file has one of these arrays; a lookup gives files new ones at most. */
  ghost predicate Avoids(files: seq<Inclist>, gone: set<array<Symtab?>>)
    reads files`defs
  {
    forall f {:trigger f in files} :: f in files ==> f.defs == null || f.defs !in gone
  }

  // ---------- one step of the search on the heap ----------

  method SetChecked(f: Inclist, value: bool, ghost files: seq<Inclist>, ghost g: Spec.Graph, ghost w: Spec.World, ghost checked: set<nat>)
    requires Represents(files, g, w) && IsFile(files, f)
    requires checked == if value then w.checked + {f.id} else w.checked - {f.id}
    modifies f`defChecked
    ensures Represents(files, g, w.(checked := checked))
  {
    f.defChecked := value;
  }

  /** The merge of a child that has been searched. */
  method MergeChild(f: Inclist, i: nat, ghost files: seq<Inclist>, ghost g: Spec.Graph, ghost w: Spec.World,
                    ghost gone: set<array<Symtab?>>)
    requires Represents(files, g, w) && OwnArrays(files) && Avoids(files, gone) && IsFile(files, f) && i < |f.list|
    modifies f`defs, f`ndefs, f`merged
    ensures Represents(files, g, Spec.AfterChild(g, w, f.id, i)) && OwnArrays(files)
    ensures Avoids(files, gone)
  {
    var child := f.list[i];
    assert IsFile(files, child) && child.id == g.lists[f.id][i];
    assert FileIs(files[child.id], child.id, g.lists[child.id], w.tables[child.id], w.merged[child.id],
        child.id in w.checked, child.id in g.finished);
    if child.finished {
      MergeInto(f, i);
      AbsorbIs(files, g, w, f, i);
    }
  }

  method MergeInto(f: Inclist, i: nat)
    requires f.Valid() && i < |f.list| && f.list[i].Valid()
    modifies f`defs, f`ndefs, f`merged
    ensures f.Valid() && f.Cells() == Merge(old(f.Cells()), old(f.list[i].Cells()))
    ensures f.merged == old(f.merged)[i := true]
    ensures f.defs == null || fresh(f.defs)
  {
    f.Merge2Defines(f.list[i]);
    f.merged := f.merged[i := true];
  }

  lemma AbsorbIs(files: seq<Inclist>, g: Spec.Graph, w: Spec.World, f: Inclist, i: nat)
    requires |files| == |g.lists| && g.Valid() && w.Valid(g) && IsFile(files, f) && i < |g.lists[f.id]|
    requires forall j :: 0 <= j < |files| && j != f.id ==>
               FileIs(files[j], j, g.lists[j], w.tables[j], w.merged[j], j in w.checked, j in g.finished)
    requires FileIs(f, f.id, g.lists[f.id], Merge(w.tables[f.id], w.tables[g.lists[f.id][i]]), w.merged[f.id][i := true],
               f.id in w.checked, f.id in g.finished)
    requires forall j, k :: 0 <= j < |files| && 0 <= k < |files[j].list| ==> IsFile(files, files[j].list[k])
    ensures Represents(files, g, Spec.Absorb(g, w, f.id, i))
  {
  }

  // ---------- fdefined ----------

  /** A pointer to a slot: the array it points into and the offset there. */
  datatype SlotPtr = Null | At(a: array<Symtab?>, slot: nat)

  /** The pointer leads into the array that `owner` has now, to an entry with the name. */
  ghost predicate LiveSlot(owner: Inclist, p: SlotPtr, symbol: CString)
    reads owner`defs, owner`ndefs, owner.defs
  {
    p.At? && p.a == owner.defs && p.slot < owner.ndefs <= p.a.Length && p.a[p.slot] != null && p.a[p.slot].name == symbol
  }

  /** What fdefined hands back: a pointer and *srcfile for a hit, neither for a miss. */
  ghost predicate Returns(files: seq<Inclist>, r: Option<nat>, val: SlotPtr, srcfile: Inclist?) {
    match r
    case None => val == Null && srcfile == null
    case Some(owner) => val != Null && srcfile != null && srcfile.id == owner && IsFile(files, srcfile)
  }

  /** A child that missed leaves the search path without the symbol. */
  lemma ChildMissKeepsClean(g: Spec.Graph, w: Spec.World, symbol: CString, file: nat, i: nat)
    requires g.Valid() && w.Valid(g) && file < |g.lists| && file in w.checked && i < |g.lists[file]|
    requires Spec.Clean(w, w.checked, symbol)
    requires Spec.FDefined(g, w, symbol, g.lists[file][i]).0 == None
    ensures var w2 := Spec.AfterChild(g, Spec.FDefined(g, w, symbol, g.lists[file][i]).1, file, i);
            Spec.Clean(w2, w2.checked, symbol)
  {
    Spec.MissExplores(g, w, symbol, g.lists[file][i]);
    Spec.AfterChildStep(g, Spec.FDefined(g, w, symbol, g.lists[file][i]).1, symbol, file, i);
  }

  /** A hit in a child is in a file that is not on the search path. */
  lemma ChildLookup(g: Spec.Graph, w: Spec.World, symbol: CString, file: nat, i: nat)
    requires g.Valid() && w.Valid(g) && file < |g.lists| && file in w.checked && i < |g.lists[file]|
    requires Spec.Clean(w, w.checked, symbol)
    ensures var r := Spec.FDefined(g, w, symbol, g.lists[file][i]);
            && (r.0.Some? ==> r.0.value !in w.checked)
            && (r.0 == None ==> var w2 := Spec.AfterChild(g, r.1, file, i); Spec.Clean(w2, w2.checked, symbol))
  {
    if Spec.FDefined(g, w, symbol, g.lists[file][i]).0 == None {
      ChildMissKeepsClean(g, w, symbol, file, i);
    } else {
      var _ := Spec.HitReaches(g, w, symbol, g.lists[file][i]);
    }
  }

  method FDefined(symbol: CString, file: Inclist, ghost files: seq<Inclist>, ghost g: Spec.Graph,
                  ghost w: Spec.World, ghost gone: set<array<Symtab?>>)
      returns (val: SlotPtr, srcfile: Inclist?)
    requires Represents(files, g, w) && OwnArrays(files) && Avoids(files, gone) && IsFile(files, file)
    requires Spec.Clean(w, w.checked, symbol)
    modifies files`defChecked, files`defs, files`ndefs, files`merged
    ensures Returns(files, Spec.FDefined(g, w, symbol, file.id).0, val, srcfile)
    ensures srcfile != null ==> LiveSlot(srcfile, val, symbol)
    ensures Represents(files, g, Spec.FDefined(g, w, symbol, file.id).1) && OwnArrays(files) && Avoids(files, gone)
    decreases g.Files() - w.checked, 1
  {
    IsThisFile(files, g, w, file);
    if file.defChecked {
      return Null, null;
    }
    ghost var r := Unfold(g, w, symbol, file.id);
    val, srcfile := SearchMarked(symbol, file, files, g, w, gone);
  }

  /** What FDefined does with a file that is not on the search path: it is, while it is searched. */
  ghost function Below(g: Spec.Graph, w: Spec.World, symbol: CString, file: nat): (r: (Option<nat>, Spec.World))
    requires g.Valid() && w.Valid(g) && file < |g.lists| && file in w.checked
    ensures r.1.Valid(g) && r.1.checked == w.checked
  {
    if Holds(w.tables[file], symbol) then (Some(file), w) else Spec.Children(g, w, symbol, file, 0)
  }

  method SearchMarked(symbol: CString, file: Inclist, ghost files: seq<Inclist>, ghost g: Spec.Graph,
                      ghost w: Spec.World, ghost gone: set<array<Symtab?>>)
      returns (val: SlotPtr, srcfile: Inclist?)
    requires Represents(files, g, w) && OwnArrays(files) && Avoids(files, gone) && IsFile(files, file) && file.id !in w.checked
    requires Spec.Clean(w, w.checked, symbol)
    modifies files`defChecked, files`defs, files`ndefs, files`merged
    ensures var r := Below(g, w.(checked := w.checked + {file.id}), symbol, file.id);
            Returns(files, r.0, val, srcfile) && Represents(files, g, r.1.(checked := w.checked))
    ensures srcfile != null ==> LiveSlot(srcfile, val, symbol)
    ensures OwnArrays(files) && Avoids(files, gone)
    decreases g.Files() - w.checked, 0
  {
    ghost var w1 := w.(checked := w.checked + {file.id});
    IsThisFile(files, g, w, file);
    SetChecked(file, true, files, g, w, w1.checked);
    ghost var cur;
    val, srcfile, cur := SearchFile(symbol, file, files, g, w1, gone);
    SetChecked(file, false, files, g, cur, w.checked);
  }

  /** The file's own table, then its children. */
  method SearchFile(symbol: CString, file: Inclist, ghost files: seq<Inclist>, ghost g: Spec.Graph,
                    ghost w: Spec.World, ghost gone: set<array<Symtab?>>)
      returns (val: SlotPtr, srcfile: Inclist?, ghost cur: Spec.World)
    requires Represents(files, g, w) && OwnArrays(files) && Avoids(files, gone) && IsFile(files, file) && file.id in w.checked
    requires Spec.Clean(w, w.checked - {file.id}, symbol)
    modifies files`defChecked, files`defs, files`ndefs, files`merged
    ensures var r := Below(g, w, symbol, file.id); Returns(files, r.0, val, srcfile) && cur == r.1
    ensures srcfile != null ==> LiveSlot(srcfile, val, symbol)
    ensures Represents(files, g, cur) && OwnArrays(files) && Avoids(files, gone) && cur.checked == w.checked
    decreases g.Files() - w.checked, 5
  {
    IsThisFile(files, g, w, file);
    var found, slot := file.Slookup(symbol);
    if found {
      val, srcfile, cur := At(file.defs, slot), file, w;
    } else {
      val, srcfile, cur := SearchChildren(symbol, file, files, g, w, gone);
    }
  }

  lemma Unfold(g: Spec.Graph, w: Spec.World, symbol: CString, file: nat) returns (r: (Option<nat>, Spec.World))
    requires g.Valid() && w.Valid(g) && file < |g.lists| && file !in w.checked
    ensures r == Spec.FDefined(g, w, symbol, file)
    ensures var w1 := w.(checked := w.checked + {file});
            r == (Below(g, w1, symbol, file).0, Below(g, w1, symbol, file).1.(checked := w.checked))
  {
    r := Spec.FDefined(g, w, symbol, file);
    assert w.(checked := w.checked + {file}).(checked := w.checked) == w;
  }

  lemma IsThisFile(files: seq<Inclist>, g: Spec.Graph, w: Spec.World, f: Inclist)
    requires Represents(files, g, w) && IsFile(files, f)
    ensures FileIs(f, f.id, g.lists[f.id], w.tables[f.id], w.merged[f.id], f.id in w.checked, f.id in g.finished)
    ensures forall k :: 0 <= k < |f.list| ==> IsFile(files, f.list[k])
  {
    assert files[f.id] == f;
  }

  lemma ThisList(files: seq<Inclist>, g: Spec.Graph, w: Spec.World, f: Inclist)
    requires Represents(files, g, w) && IsFile(files, f)
    ensures f.id < |g.lists| && |f.list| == |g.lists[f.id]|
    ensures forall k :: 0 <= k < |f.list| ==> IsFile(files, f.list[k]) && f.list[k].id == g.lists[f.id][k]
  {
    IsThisFile(files, g, w, f);
  }

  method SearchChildren(symbol: CString, file: Inclist, ghost files: seq<Inclist>, ghost g: Spec.Graph,
                        ghost w: Spec.World, ghost gone: set<array<Symtab?>>)
      returns (val: SlotPtr, srcfile: Inclist?, ghost cur: Spec.World)
    requires Represents(files, g, w) && OwnArrays(files) && Avoids(files, gone) && IsFile(files, file)
    requires Spec.Clean(w, w.checked, symbol) && file.id in w.checked
    modifies files`defChecked, files`defs, files`ndefs, files`merged
    ensures var r := Spec.Children(g, w, symbol, file.id, 0); Returns(files, r.0, val, srcfile) && cur == r.1
    ensures srcfile != null ==> LiveSlot(srcfile, val, symbol)
    ensures Represents(files, g, cur) && OwnArrays(files) && Avoids(files, gone)
    decreases g.Files() - w.checked, 4
  {
    ThisList(files, g, w, file);
    val, srcfile, cur := SearchList(symbol, file, files, g, w, Spec.Children(g, w, symbol, file.id, 0), gone);
  }

  /** The loop over i_list. */
  method SearchList(symbol: CString, file: Inclist, ghost files: seq<Inclist>, ghost g: Spec.Graph, ghost w: Spec.World,
                    ghost result: (Option<nat>, Spec.World), ghost gone: set<array<Symtab?>>)
      returns (val: SlotPtr, srcfile: Inclist?, ghost cur: Spec.World)
    requires Represents(files, g, w) && OwnArrays(files) && Avoids(files, gone) && IsFile(files, file) && |file.list| == |g.lists[file.id]|
    requires Spec.Clean(w, w.checked, symbol) && file.id in w.checked && Spec.Children(g, w, symbol, file.id, 0) == result
    modifies files`defChecked, files`defs, files`ndefs, files`merged
    ensures Returns(files, result.0, val, srcfile) && cur == result.1
    ensures srcfile != null ==> LiveSlot(srcfile, val, symbol)
    ensures Represents(files, g, cur) && OwnArrays(files) && Avoids(files, gone)
    decreases g.Files() - w.checked, 3, 1
  {
    val, srcfile, cur := Null, null, w;
    var i := 0;
    while i < |file.list|
      invariant i <= |file.list| == |g.lists[file.id]| && val == Null && srcfile == null
      invariant Avoids(files, gone)
      invariant Represents(files, g, cur) && OwnArrays(files)
      invariant cur.checked == w.checked && Spec.Clean(cur, w.checked, symbol)
      invariant Spec.Children(g, cur, symbol, file.id, i) == result
    {
      val, srcfile, cur := SearchChild(symbol, file, i, files, g, cur, result, gone);
      if val != Null {
        break;
      }
      i := i + 1;
    }
  }

  method SearchChild(symbol: CString, file: Inclist, i: nat, ghost files: seq<Inclist>, ghost g: Spec.Graph, ghost w: Spec.World,
                     ghost result: (Option<nat>, Spec.World), ghost gone: set<array<Symtab?>>)
      returns (val: SlotPtr, srcfile: Inclist?, ghost cur: Spec.World)
    requires Represents(files, g, w) && OwnArrays(files) && Avoids(files, gone) && IsFile(files, file)
    requires Spec.Clean(w, w.checked, symbol) && file.id in w.checked && i < |file.list| == |g.lists[file.id]|
    requires Spec.Children(g, w, symbol, file.id, i) == result
    modifies files`defChecked, files`defs, files`ndefs, files`merged
    ensures srcfile != null ==> LiveSlot(srcfile, val, symbol)
    ensures Represents(files, g, cur) && OwnArrays(files) && Avoids(files, gone) && cur.checked == w.checked
    ensures val == Null ==> srcfile == null && Spec.Clean(cur, cur.checked, symbol)
                            && Spec.Children(g, cur, symbol, file.id, i + 1) == result
    ensures val != Null ==> cur == result.1 && Returns(files, result.0, val, srcfile)
    decreases g.Files() - w.checked, 3, 0
  {
    IsThisFile(files, g, w, file);
    if file.merged[i] {
      return Null, null, w;
    }
    val, srcfile, cur := SearchOpen(symbol, file, i, files, g, w, gone);
  }

  /** A child whose edge is not merged yet: searched, and then merged if it is finished. */
  method SearchOpen(symbol: CString, file: Inclist, i: nat, ghost files: seq<Inclist>, ghost g: Spec.Graph,
                    ghost w: Spec.World, ghost gone: set<array<Symtab?>>)
      returns (val: SlotPtr, srcfile: Inclist?, ghost cur: Spec.World)
    requires Represents(files, g, w) && OwnArrays(files) && Avoids(files, gone) && IsFile(files, file)
    requires Spec.Clean(w, w.checked, symbol) && file.id in w.checked && i < |file.list| == |g.lists[file.id]|
    modifies files`defChecked, files`defs, files`ndefs, files`merged
    ensures srcfile != null ==> LiveSlot(srcfile, val, symbol)
    ensures Represents(files, g, cur) && OwnArrays(files) && Avoids(files, gone)
    ensures var r := Spec.FDefined(g, w, symbol, g.lists[file.id][i]);
            Returns(files, r.0, val, srcfile) && cur == Spec.AfterChild(g, r.1, file.id, i)
    ensures val == Null ==> Spec.Clean(cur, cur.checked, symbol)
    decreases g.Files() - w.checked, 2
  {
    ThisList(files, g, w, file);
    ghost var r := Spec.FDefined(g, w, symbol, g.lists[file.id][i]);
    ChildLookup(g, w, symbol, file.id, i);
    val, srcfile := FDefined(symbol, file.list[i], files, g, w, gone);
    MergeBehind(symbol, file, i, val, srcfile, files, g, r.1, gone);
    cur := Spec.AfterChild(g, r.1, file.id, i);
  }

  /** The merge frees the array of a file on the search path, which is never the one the slot lies in. */
  method MergeBehind(symbol: CString, file: Inclist, i: nat, val: SlotPtr, srcfile: Inclist?,
                     ghost files: seq<Inclist>, ghost g: Spec.Graph, ghost w: Spec.World, ghost gone: set<array<Symtab?>>)
    requires Represents(files, g, w) && OwnArrays(files) && Avoids(files, gone) && IsFile(files, file) && i < |file.list|
    requires srcfile != null ==> LiveSlot(srcfile, val, symbol) && srcfile != file && IsFile(files, srcfile)
    modifies file`defs, file`ndefs, file`merged
    ensures srcfile != null ==> LiveSlot(srcfile, val, symbol)
    ensures Represents(files, g, Spec.AfterChild(g, w, file.id, i)) && OwnArrays(files) && Avoids(files, gone)
  {
    MergeChild(file, i, files, g, w, gone);
  }

  // ---------- isdefined and undefine ----------

  method IsDefined(symbol: CString, file: Inclist, main: Inclist,
                   ghost files: seq<Inclist>, ghost g: Spec.Graph, ghost w: Spec.World, ghost arrays: set<array?<Symtab?>>)
      returns (val: SlotPtr, srcfile: Inclist?)
    requires Represents(files, g, w) && OwnArrays(files) && IsFile(files, file) && Within(files, arrays)
    requires IsFile(files, main) && main.id == g.main && w.checked == {}
    modifies files`defChecked, files`defs, files`ndefs, files`merged
    ensures Returns(files, Spec.IsDefined(g, w, symbol, file.id).0, val, srcfile)
    ensures srcfile != null ==> LiveSlot(srcfile, val, symbol)
    ensures Represents(files, g, Spec.IsDefined(g, w, symbol, file.id).1) && OwnArrays(files)
    ensures forall f {:trigger f in files} :: f in files ==> f.defs in arrays || f.defs == null || fresh(f.defs)
    ensures srcfile != null <==> Visibility.Visible(g, w, file.id, symbol)
  {
    Visibility.IsDefinedIffVisible(g, w, symbol, file.id);
    IsThisFile(files, g, w, main);
    var found, slot := main.Slookup(symbol);
    if found {
      return At(main.defs, slot), main;
    }
    ghost var gone := set a: array<Symtab?> {:trigger a in arrays} | allocated(a) && a !in arrays;
    val, srcfile := FDefined(symbol, file, files, g, w, gone);
  }

  /** The name occurs once in a sorted table, so any slot with the name is the slot. */
  lemma TheSlot(t: Table, slot: nat, symbol: CString)
    requires Sorted(t) && slot < |t| && t[slot].name == symbol
    ensures Holds(t, symbol) && Visibility.SlotOf(t, symbol) == slot
  {
    LessTotal(symbol, symbol);
  }

  method RemoveFrom(srcfile: Inclist, slot: nat, symbol: CString, ghost files: seq<Inclist>, ghost g: Spec.Graph, ghost w: Spec.World)
    requires Represents(files, g, w) && OwnArrays(files) && IsFile(files, srcfile)
    requires slot < srcfile.ndefs && srcfile.Cells()[slot].name == symbol
    modifies srcfile`ndefs, srcfile.defs
    ensures Holds(w.tables[srcfile.id], symbol)
    ensures Represents(files, g, Visibility.RemoveStep(g, w, srcfile.id, symbol)) && OwnArrays(files)
  {
    IsThisFile(files, g, w, srcfile);
    TheSlot(w.tables[srcfile.id], slot, symbol);
    srcfile.RemoveAt(slot);
    RemoveIs(files, g, w, srcfile, symbol);
  }

  lemma RemoveIs(files: seq<Inclist>, g: Spec.Graph, w: Spec.World, f: Inclist, symbol: CString)
    requires |files| == |g.lists| && g.Valid() && w.Valid(g) && IsFile(files, f) && Holds(w.tables[f.id], symbol)
    requires forall j :: 0 <= j < |files| && j != f.id ==>
               FileIs(files[j], j, g.lists[j], w.tables[j], w.merged[j], j in w.checked, j in g.finished)
    requires var t, slot := w.tables[f.id], Visibility.SlotOf(w.tables[f.id], symbol);
             FileIs(f, f.id, g.lists[f.id], t[..slot] + t[slot + 1..], w.merged[f.id], f.id in w.checked, f.id in g.finished)
    requires forall j, k :: 0 <= j < |files| && 0 <= k < |files[j].list| ==> IsFile(files, files[j].list[k])
    ensures Represents(files, g, Visibility.RemoveStep(g, w, f.id, symbol))
  {
  }

  lemma RoundProgress(g: Spec.Graph, w: Spec.World, symbol: CString, file: nat)
    requires g.Valid() && w.Valid(g) && file < |g.lists| && w.checked == {}
    requires Spec.IsDefined(g, w, symbol, file).0.Some?
    ensures var r := Spec.IsDefined(g, w, symbol, file);
            && Holds(r.1.tables[r.0.value], symbol)
            && var next := Visibility.RemoveStep(g, r.1, r.0.value, symbol);
               && Visibility.Undefine(g, next, symbol, file) == Visibility.Undefine(g, w, symbol, file)
               && (Visibility.OpenEdges(g, next) < Visibility.OpenEdges(g, w)
                   || (Visibility.OpenEdges(g, next) == Visibility.OpenEdges(g, w)
                       && Visibility.Holders(next, symbol) < Visibility.Holders(w, symbol)))
  {
    Visibility.UndefineProgress(g, w, symbol, file);
  }

  /** The loop state of undefine: `cur` is the world before the pending lookup, whose result is at hand. */
  ghost predicate Pending(files: seq<Inclist>, g: Spec.Graph, cur: Spec.World, symbol: CString, file: nat,
                          ptr: SlotPtr, srcfile: Inclist?)
    reads files, set i | 0 <= i < |files| :: files[i].defs
    requires g.Valid() && cur.Valid(g) && file < |g.lists|
  {
    && Returns(files, Spec.IsDefined(g, cur, symbol, file).0, ptr, srcfile)
    && Represents(files, g, Spec.IsDefined(g, cur, symbol, file).1) && OwnArrays(files)
    && (srcfile != null ==> srcfile in files && LiveSlot(srcfile, ptr, symbol))
  }

  ghost predicate Within(files: seq<Inclist>, arrays: set<array?<Symtab?>>)
    reads files`defs
  {
    forall f {:trigger f in files} :: f in files ==> f.defs in arrays
  }

  /** One round of undefine: take the entry out where the lookup found it, and look again. */
  method UndefineRound(symbol: CString, file: Inclist, main: Inclist, ptr: SlotPtr, srcfile: Inclist,
                       ghost files: seq<Inclist>, ghost g: Spec.Graph, ghost w: Spec.World, ghost arrays: set<array?<Symtab?>>)
      returns (next: SlotPtr, nextfile: Inclist?, ghost cur: Spec.World, ghost newArrays: set<array?<Symtab?>>)
    requires g.Valid() && w.Valid(g) && w.checked == {}
    requires IsFile(files, file) && file.id < |g.lists| && IsFile(files, main) && main.id == g.main
    requires Pending(files, g, w, symbol, file.id, ptr, srcfile) && Within(files, arrays)
    modifies files`defChecked, files`defs, files`ndefs, files`merged, arrays
    ensures cur.Valid(g) && cur.checked == {}
    ensures Visibility.Undefine(g, cur, symbol, file.id) == Visibility.Undefine(g, w, symbol, file.id)
    ensures Visibility.OpenEdges(g, cur) < Visibility.OpenEdges(g, w)
            || (Visibility.OpenEdges(g, cur) == Visibility.OpenEdges(g, w)
                && Visibility.Holders(cur, symbol) < Visibility.Holders(w, symbol))
    ensures Pending(files, g, cur, symbol, file.id, next, nextfile)
    ensures Within(files, newArrays) && forall a :: a in newArrays ==> a in arrays || a == null || fresh(a)
  {
    RoundProgress(g, w, symbol, file.id);
    ghost var w1 := Spec.IsDefined(g, w, symbol, file.id).1;
    assert files[srcfile.id] == srcfile;
    RemoveFrom(srcfile, ptr.slot, symbol, files, g, w1);
    cur := Visibility.RemoveStep(g, w1, srcfile.id, symbol);
    next, nextfile, newArrays := LookAgain(symbol, file, main, files, g, cur, arrays);
  }

  method LookAgain(symbol: CString, file: Inclist, main: Inclist,
                   ghost files: seq<Inclist>, ghost g: Spec.Graph, ghost w: Spec.World, ghost arrays: set<array?<Symtab?>>)
      returns (val: SlotPtr, srcfile: Inclist?, ghost newArrays: set<array?<Symtab?>>)
    requires Represents(files, g, w) && OwnArrays(files) && IsFile(files, file) && Within(files, arrays)
    requires IsFile(files, main) && main.id == g.main && w.checked == {}
    modifies files`defChecked, files`defs, files`ndefs, files`merged
    ensures Pending(files, g, w, symbol, file.id, val, srcfile)
    ensures Within(files, newArrays) && forall a :: a in newArrays ==> a in arrays || a == null || fresh(a)
  {
    val, srcfile := IsDefined(symbol, file, main, files, g, w, arrays);
    newArrays := arrays + set f | f in files :: f.defs;
  }

  method Undefine(symbol: CString, file: Inclist, main: Inclist,
                  ghost files: seq<Inclist>, ghost g: Spec.Graph, ghost w: Spec.World, ghost arrays: set<array?<Symtab?>>)
      returns (ghost all: set<array?<Symtab?>>)
    requires Represents(files, g, w) && OwnArrays(files) && IsFile(files, file) && Within(files, arrays)
    requires IsFile(files, main) && main.id == g.main && w.checked == {}
    modifies files`defChecked, files`defs, files`ndefs, files`merged, arrays
    ensures Represents(files, g, Visibility.Undefine(g, w, symbol, file.id)) && OwnArrays(files)
    ensures Within(files, all) && forall a :: a in all ==> a in arrays || a == null || fresh(a)
  {
    ghost var cur := w;
    var ptr, srcfile;
    ptr, srcfile, all := LookAgain(symbol, file, main, files, g, cur, arrays);
    while ptr != Null
      invariant cur.Valid(g) && cur.checked == {}
      invariant Visibility.Undefine(g, cur, symbol, file.id) == Visibility.Undefine(g, w, symbol, file.id)
      invariant Pending(files, g, cur, symbol, file.id, ptr, srcfile)
      invariant Within(files, all) && forall a :: a in all ==> a in arrays || a == null || fresh(a)
      decreases Visibility.OpenEdges(g, cur), Visibility.Holders(cur, symbol)
    {
      ptr, srcfile, cur, all := UndefineRound(symbol, file, main, ptr, srcfile, files, g, cur, all);
    }
  }
}
