/**
 #define in one file of the include graph: what it does to all tables, and which files see it.
 */
module Defining {
  import opened CStrings
  import opened SymbolTable
  import opened LookupSpec
  import opened Visibility
  import I = IncludeGraph

  // ---------- on values ----------

  /** How many names of a table come before a name. */
  ghost function PlaceOf(t: Table, name: CString): (place: nat)
    ensures place <= |t|
  {
    if t != [] && Less(t[0].name, name) then 1 + PlaceOf(t[1..], name) else 0
  }

  lemma {:induction false} PlaceOfIsPlace(t: Table, name: CString)
    requires Sorted(t) && !Holds(t, name)
    ensures IsPlace(t, name, PlaceOf(t, name))
  {
    if t != [] {
      LessTotal(t[0].name, name);
      assert t[0].name != name;
      if Less(t[0].name, name) {
        forall i | 0 <= i < |t[1..]| ensures t[1..][i].name != name { assert t[i + 1].name != name; }
        PlaceOfIsPlace(t[1..], name);
      } else {
        forall i | 0 < i < |t| ensures Less(name, t[i].name) { LessTransitive(name, t[0].name, t[i].name); }
      }
    }
  }

  ghost function Insert(t: Table, c: Symtab): (u: Table)
    requires Sorted(t) && !Holds(t, c.name)
    ensures Sorted(u)
  {
    PlaceOfIsPlace(t, c.name);
    var place := PlaceOf(t, c.name);
    SortedInsert(t, place, c);
    t[..place] + [c] + t[place..]
  }

  lemma InsertMeaning(t: Table, c: Symtab, name: CString)
    requires Sorted(t) && !Holds(t, c.name)
    ensures Lookup(Insert(t, c), name) == if name == c.name then c else Lookup(t, name)
    ensures Holds(Insert(t, c), name) <==> Holds(t, name) || name == c.name
  {
    PlaceOfIsPlace(t, c.name);
    LookupInsert(t, PlaceOf(t, c.name), c, name);
    LookupHolds(t, name);
    LookupHolds(Insert(t, c), name);
  }

  /** The tables after a definition: `c` is the cell that has it, new if the file had no entry for the name. */
  ghost function DefineIn(g: Graph, w: World, file: File, c: Symtab): (w': World)
    requires g.Valid() && w.Valid(g) && file < |g.lists|
    ensures w'.Valid(g) && w'.checked == w.checked && w'.merged == w.merged
  {
    if Holds(w.tables[file], c.name) then w
    else w.(tables := w.tables[file := Insert(w.tables[file], c)])
  }

  lemma DefineHolds(g: Graph, w: World, file: File, c: Symtab, f: File, name: CString)
    requires g.Valid() && w.Valid(g) && file < |g.lists| && f < |g.lists|
    ensures Holds(DefineIn(g, w, file, c).tables[f], name) <==> Holds(w.tables[f], name) || (f == file && name == c.name)
  {
    if !Holds(w.tables[file], c.name) { InsertMeaning(w.tables[file], c, name); }
  }

  lemma SameReach(g: Graph, w: World, v: World, a: File, b: File)
    requires g.Valid() && w.Valid(g) && v.Valid(g) && w.merged == v.merged
    ensures Reaches(g, w, a, b) <==> Reaches(g, v, a, b)
  {
    if Reaches(g, w, a, b) {
      var p :| Path(g, w, p) && p[0] == a && p[|p| - 1] == b;
      SamePath(g, w, v, p);
    }
    if Reaches(g, v, a, b) {
      var p :| Path(g, v, p) && p[0] == a && p[|p| - 1] == b;
      SamePath(g, v, w, p);
    }
  }

  /**
   Exactly the defined name becomes visible, from exactly the files that reach the file over edges not yet
   merged; a definition on the command line is visible everywhere.
   */
  lemma DefineShows(g: Graph, w: World, file: File, c: Symtab, start: File, name: CString)
    requires g.Valid() && w.Valid(g) && file < |g.lists|
    ensures Visible(g, DefineIn(g, w, file, c), start, name)
            <==> Visible(g, w, start, name) || (name == c.name && (file == g.main || Reaches(g, w, start, file)))
  {
    var w' := DefineIn(g, w, file, c);
    DefineHolds(g, w, file, c, g.main, name);
    if Visible(g, w', start, name) && !Holds(w'.tables[g.main], name) {
      var h: File :| h < |g.lists| && Reaches(g, w', start, h) && Holds(w'.tables[h], name);
      SameReach(g, w, w', start, h);
      DefineHolds(g, w, file, c, h, name);
    }
    if Visible(g, w, start, name) && !Holds(w.tables[g.main], name) {
      var h: File :| h < |g.lists| && Reaches(g, w, start, h) && Holds(w.tables[h], name);
      SameReach(g, w, w', start, h);
      DefineHolds(g, w, file, c, h, name);
    }
    if name == c.name && Reaches(g, w, start, file) {
      SameReach(g, w, w', start, file);
      DefineHolds(g, w, file, c, file, name);
    }
  }

  // ---------- on the objects ----------

  /** A sorted table with the meaning of an insertion is that insertion. */
  lemma IsInsert(t: Table, u: Table, c: Symtab)
    requires Sorted(t) && Sorted(u) && !Holds(t, c.name)
    requires Lookup(u, c.name) == c && forall name: CString :: name != c.name ==> Lookup(u, name) == Lookup(t, name)
    ensures u == Insert(t, c)
  {
    forall name: CString ensures Lookup(u, name) == Lookup(Insert(t, c), name) { InsertMeaning(t, c, name); }
    SortedUnique(u, Insert(t, c));
  }

  lemma TableIs(files: seq<Inclist>, g: Graph, w: World, f: Inclist, c: Symtab)
    requires |files| == |g.lists| && g.Valid() && w.Valid(g) && IsFile(files, f)
    requires forall j :: 0 <= j < |files| && j != f.id ==>
               I.FileIs(files[j], j, g.lists[j], w.tables[j], w.merged[j], j in w.checked, j in g.finished)
    requires I.FileIs(f, f.id, g.lists[f.id], DefineIn(g, w, f.id, c).tables[f.id], w.merged[f.id], f.id in w.checked, f.id in g.finished)
    requires forall j, k :: 0 <= j < |files| && 0 <= k < |files[j].list| ==> IsFile(files, files[j].list[k])
    ensures I.Represents(files, g, DefineIn(g, w, f.id, c))
  {
  }

  /**
   define2 among all files: the other tables keep their cells, the tables stay sorted with room, no two files
   share an array, and only the value of cells with that name may change.
   */
  method Define(name: CString, val: string, f: Inclist, ghost files: seq<Inclist>, ghost g: Graph, ghost w: World, ghost cells: set<Symtab>)
      returns (ghost c: Symtab)
    requires I.Represents(files, g, w) && I.OwnArrays(files) && IsFile(files, f) && f.Valid()
    requires forall k :: 0 <= k < |f.Cells()| ==> f.Cells()[k] in cells
    modifies f`defs, f`ndefs, f.defs, cells
    ensures I.Represents(files, g, DefineIn(g, w, f.id, c)) && I.OwnArrays(files)
    ensures forall k {:trigger k in files} :: k in files ==> k.defs == old(k.defs) || fresh(k.defs)
    ensures c.name == name && c.value == val && c == Lookup(DefineIn(g, w, f.id, c).tables[f.id], name)
    ensures Holds(w.tables[f.id], name) || fresh(c)
    ensures forall d: Symtab :: old(allocated(d)) && d != c ==> d.value == old(d.value)
  {
    LookupHolds(w.tables[f.id], name);
    ghost var before := Arrays(files);
    c := DefineAmong(name, val, f, files, g, w, cells);
    assert DefineIn(g, w, f.id, c).tables[f.id] == if Holds(w.tables[f.id], name) then w.tables[f.id] else Insert(w.tables[f.id], c);
    OneArrayChanged(files, f, before);
    TableIs(files, g, w, f, c);
    if !Holds(w.tables[f.id], name) { InsertMeaning(w.tables[f.id], c, name); }
  }

  ghost function Arrays(files: seq<Inclist>): (arrays: seq<array?<Symtab?>>)
    reads files`defs
    ensures |arrays| == |files| && forall i :: 0 <= i < |files| ==> arrays[i] == files[i].defs
  {
    if files == [] then [] else Arrays(files[..|files| - 1]) + [files[|files| - 1].defs]
  }

  lemma OneArrayChanged(files: seq<Inclist>, f: Inclist, before: seq<array?<Symtab?>>)
    requires |before| == |files| && IsFile(files, f)
    requires forall i, j :: 0 <= i < j < |files| && before[i] != null ==> before[i] != before[j]
    requires forall j :: 0 <= j < |files| && j != f.id ==> files[j].defs == before[j]
    requires f.defs == before[f.id] || f.defs !in before
    ensures I.OwnArrays(files)
  {
  }

  method DefineAmong(name: CString, val: string, f: Inclist, ghost files: seq<Inclist>, ghost g: Graph, ghost w: World,
                     ghost cells: set<Symtab>)
      returns (ghost c: Symtab)
    requires I.Represents(files, g, w) && I.OwnArrays(files) && IsFile(files, f) && f.Valid()
    requires forall k :: 0 <= k < |f.Cells()| ==> f.Cells()[k] in cells
    modifies f`defs, f`ndefs, f.defs, cells
    ensures forall j :: 0 <= j < |files| && j != f.id ==>
              I.FileIs(files[j], j, g.lists[j], w.tables[j], w.merged[j], j in w.checked, j in g.finished)
    ensures forall j, k :: 0 <= j < |files| && 0 <= k < |files[j].list| ==> IsFile(files, files[j].list[k])
    ensures (f.defs == old(f.defs) || fresh(f.defs)) && forall j :: 0 <= j < |files| && j != f.id ==> files[j].defs == old(files[j].defs)
    ensures c.name == name && c.value == val && (if Holds(w.tables[f.id], name) then c == Lookup(w.tables[f.id], name) else fresh(c))
    ensures I.FileIs(f, f.id, g.lists[f.id], if Holds(w.tables[f.id], name) then w.tables[f.id] else Insert(w.tables[f.id], c),
                     w.merged[f.id], f.id in w.checked, f.id in g.finished)
    ensures forall d: Symtab :: old(allocated(d)) && d != c ==> d.value == old(d.value)
  {
    I.IsThisFile(files, g, w, f);
    OthersApart(files, g, w, f);
    c := DefineInFile(name, val, f, g.lists[f.id], w.tables[f.id], w.merged[f.id], f.id in w.checked, f.id in g.finished, cells);
  }

  lemma OthersApart(files: seq<Inclist>, g: Graph, w: World, f: Inclist)
    requires I.Represents(files, g, w) && I.OwnArrays(files) && IsFile(files, f)
    ensures forall j :: 0 <= j < |files| && j != f.id ==> files[j] != f && (files[j].defs == null || files[j].defs != f.defs)
  {
    assert files[f.id] == f;
    forall j | 0 <= j < |files| && j != f.id ensures files[j] != f && (files[j].defs == null || files[j].defs != f.defs) {
      assert I.FileIs(files[j], j, g.lists[j], w.tables[j], w.merged[j], j in w.checked, j in g.finished);
    }
  }

  /** define2 with all else about the file. */
  method DefineInFile(name: CString, val: string, f: Inclist, ghost list: seq<nat>, ghost table: Table, ghost merged: seq<bool>,
                      ghost checked: bool, ghost finished: bool, ghost cells: set<Symtab>)
      returns (ghost c: Symtab)
    requires I.FileIs(f, f.id, list, table, merged, checked, finished) && Sorted(table)
    requires forall k :: 0 <= k < |table| ==> table[k] in cells
    modifies f`defs, f`ndefs, f.defs, cells
    ensures f.defs == old(f.defs) || fresh(f.defs)
    ensures c.name == name && c.value == val && (if Holds(table, name) then c == Lookup(table, name) else fresh(c))
    ensures I.FileIs(f, f.id, list, if Holds(table, name) then table else Insert(table, c), merged, checked, finished)
    ensures forall d: Symtab :: old(allocated(d)) && d != c ==> d.value == old(d.value)
  {
    c := DefineOne(name, val, f);
  }

  /** define2 on one file, with its new table as a value. */
  method DefineOne(name: CString, val: string, f: Inclist) returns (ghost c: Symtab)
    requires f.Valid()
    modifies f`defs, f`ndefs, f.defs, f.Cells()
    ensures f.Valid() && (f.defs == old(f.defs) || fresh(f.defs))
    ensures c.name == name && c.value == val
    ensures if Holds(old(f.Cells()), name) then f.Cells() == old(f.Cells()) && c == Lookup(f.Cells(), name)
            else fresh(c) && f.Cells() == Insert(old(f.Cells()), c)
    ensures forall d: Symtab :: old(allocated(d)) && d != c ==> d.value == old(d.value)
  {
    ghost var t := f.Cells();
    LookupHolds(t, name);
    f.Define2(name, val);
    LookupHolds(f.Cells(), name);
    c := Lookup(f.Cells(), name);
    if !Holds(t, name) { IsInsert(t, f.Cells(), c); }
    OnlyCell(t, name);
  }

  lemma OnlyCell(t: Table, name: CString)
    requires Sorted(t)
    ensures forall d: Symtab :: d in t && d.name == name ==> d == Lookup(t, name)
  {
    forall k | 0 <= k < |t| && t[k].name == name ensures t[k] == Lookup(t, name) { LookupAt(t, k); }
  }
}
