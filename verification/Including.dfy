/**
 included_by: a new edge of the include graph, and which names it shows.
 */
module Including {
  import opened CStrings
  import opened SymbolTable
  import opened LookupSpec
  import opened Visibility
  import opened Wrappers
  import I = IncludeGraph

  /** An edge that is there already, merged or not, stays as it is. */
  ghost function IncludeIn(g: Graph, file: File, child: File): (g': Graph)
    requires g.Valid() && file < |g.lists| && child < |g.lists| && file != g.main
    ensures g'.Valid() && |g'.lists| == |g.lists|
  {
    if child in g.lists[file] then g else g.(lists := g.lists[file := g.lists[file] + [child]])
  }

  ghost function Unmerged(g: Graph, w: World, file: File, child: File): (w': World)
    requires g.Valid() && w.Valid(g) && file < |g.lists| && child < |g.lists| && file != g.main
    ensures w'.Valid(IncludeIn(g, file, child)) && w'.tables == w.tables && w'.checked == w.checked
  {
    if child in g.lists[file] then w else w.(merged := w.merged[file := w.merged[file] + [false]])
  }

  /** A new edge from `file` to `child`. */
  ghost predicate IsNew(g: Graph, w: World, file: File, child: File)
  {
    g.Valid() && w.Valid(g) && file < |g.lists| && child < |g.lists| && file != g.main && child !in g.lists[file]
  }

  lemma OpenEdge(g: Graph, w: World, file: File, child: File, a: File, b: File)
    requires IsNew(g, w, file, child)
    ensures Open(IncludeIn(g, file, child), Unmerged(g, w, file, child), a, b) <==> Open(g, w, a, b) || (a == file && b == child)
  {
    var g', w' := IncludeIn(g, file, child), Unmerged(g, w, file, child);
    if Open(g, w, a, b) {
      var i :| 0 <= i < |g.lists[a]| && !w.merged[a][i] && g.lists[a][i] == b;
      assert !w'.merged[a][i] && g'.lists[a][i] == b;
    }
    if a == file && b == child {
      var i := |g.lists[a]|;
      assert !w'.merged[a][i] && g'.lists[a][i] == b;
    }
    if Open(g', w', a, b) {
      var i :| 0 <= i < |g'.lists[a]| && !w'.merged[a][i] && g'.lists[a][i] == b;
      assert i < |g.lists[a]| ==> !w.merged[a][i] && g.lists[a][i] == b;
    }
  }

  /** A path with the new edge goes to the file first, and from the child last, without it. */
  lemma {:induction false} SplitPath(g: Graph, w: World, file: File, child: File, p: seq<File>)
    requires IsNew(g, w, file, child) && Path(IncludeIn(g, file, child), Unmerged(g, w, file, child), p)
    ensures var h := p[|p| - 1];
            Reaches(g, w, p[0], h) || (Reaches(g, w, p[0], file) && Reaches(g, w, child, h))
    decreases |p|
  {
    Here(g, w, p[0]);
    if |p| > 1 {
      PathTail(IncludeIn(g, file, child), Unmerged(g, w, file, child), p);
      SplitPath(g, w, file, child, p[1..]);
      OpenEdge(g, w, file, child, p[0], p[1]);
      var h := p[|p| - 1];
      if Open(g, w, p[0], p[1]) {
        if Reaches(g, w, p[1], h) { OneStep(g, w, p[0], p[1], h); } else { OneStep(g, w, p[0], p[1], file); }
      }
    }
  }

  lemma OldPaths(g: Graph, w: World, file: File, child: File, a: File, h: File)
    requires IsNew(g, w, file, child) && Reaches(g, w, a, h)
    ensures Reaches(IncludeIn(g, file, child), Unmerged(g, w, file, child), a, h)
  {
    var g', w' := IncludeIn(g, file, child), Unmerged(g, w, file, child);
    var p :| Path(g, w, p) && p[0] == a && p[|p| - 1] == h;
    forall k | 0 <= k < |p| - 1 ensures Open(g', w', p[k], p[k + 1]) {
      OpenEdge(g, w, file, child, p[k], p[k + 1]);
    }
    assert Path(g', w', p);
  }

  lemma {:induction false} Joined(g: Graph, w: World, p: seq<File>, b: File, h: File)
    requires g.Valid() && w.Valid(g) && Path(g, w, p) && Open(g, w, p[|p| - 1], b) && Reaches(g, w, b, h)
    ensures Reaches(g, w, p[0], h)
    decreases |p|
  {
    if |p| == 1 {
      OneStep(g, w, p[0], b, h);
    } else {
      PathTail(g, w, p);
      Joined(g, w, p[1..], b, h);
      OneStep(g, w, p[0], p[1], h);
    }
  }

  lemma ReachesWithEdge(g: Graph, w: World, file: File, child: File, a: File, h: File)
    requires IsNew(g, w, file, child)
    ensures Reaches(IncludeIn(g, file, child), Unmerged(g, w, file, child), a, h)
            <==> Reaches(g, w, a, h) || (Reaches(g, w, a, file) && Reaches(g, w, child, h))
  {
    var g', w' := IncludeIn(g, file, child), Unmerged(g, w, file, child);
    if Reaches(g', w', a, h) {
      var p :| Path(g', w', p) && p[0] == a && p[|p| - 1] == h;
      SplitPath(g, w, file, child, p);
    }
    if Reaches(g, w, a, h) { OldPaths(g, w, file, child, a, h); }
    if Reaches(g, w, a, file) && Reaches(g, w, child, h) {
      OldPaths(g, w, file, child, a, file);
      OldPaths(g, w, file, child, child, h);
      var p :| Path(g', w', p) && p[0] == a && p[|p| - 1] == file;
      OpenEdge(g, w, file, child, file, child);
      Joined(g', w', p, child, h);
    }
  }

  /** From every file one sees afterwards what one saw before and, if it reaches the including file, what the included one sees. */
  lemma IncludeShows(g: Graph, w: World, file: File, child: File, start: File, name: CString)
    requires IsNew(g, w, file, child)
    ensures Visible(IncludeIn(g, file, child), Unmerged(g, w, file, child), start, name)
            <==> Visible(g, w, start, name) || (Reaches(g, w, start, file) && Visible(g, w, child, name))
  {
    var g', w' := IncludeIn(g, file, child), Unmerged(g, w, file, child);
    if Visible(g', w', start, name) && !Holds(w.tables[g.main], name) {
      var h: File :| h < |g'.lists| && Reaches(g', w', start, h) && Holds(w'.tables[h], name);
      ReachesWithEdge(g, w, file, child, start, h);
    }
    if !Holds(w.tables[g.main], name) && (Visible(g, w, start, name) || (Reaches(g, w, start, file) && Visible(g, w, child, name))) {
      var from := if Visible(g, w, start, name) then start else child;
      var h: File :| h < |g.lists| && Reaches(g, w, from, h) && Holds(w.tables[h], name);
      ReachesWithEdge(g, w, file, child, start, h);
    }
  }

  /** The loop that looks for the file in the list, and the two arrays with one element more. */
  method IncludedBy(ip: Inclist, newfile: Inclist, ghost files: seq<Inclist>, ghost g: Graph, ghost w: World)
    requires I.Represents(files, g, w) && IsFile(files, ip) && IsFile(files, newfile) && ip.id != g.main
    modifies ip`list, ip`merged
    ensures I.Represents(files, IncludeIn(g, ip.id, newfile.id), Unmerged(g, w, ip.id, newfile.id))
  {
    I.ThisList(files, g, w, ip);
    var i := 0;
    while i < |ip.list|
      invariant i <= |ip.list| && forall k :: 0 <= k < i ==> ip.list[k] != newfile
    {
      if ip.list[i] == newfile {
        assert g.lists[ip.id][i] == newfile.id;
        return;
      }
      i := i + 1;
    }
    NotInList(files, g, ip, newfile);
    Append(ip, newfile, files, g, w);
  }

  method Append(ip: Inclist, newfile: Inclist, ghost files: seq<Inclist>, ghost g: Graph, ghost w: World)
    requires I.Represents(files, g, w) && IsFile(files, ip) && IsFile(files, newfile) && ip.id != g.main
    requires newfile.id !in g.lists[ip.id]
    modifies ip`list, ip`merged
    ensures I.Represents(files, IncludeIn(g, ip.id, newfile.id), Unmerged(g, w, ip.id, newfile.id))
  {
    I.ThisList(files, g, w, ip);
    assert files[ip.id] == ip;
    AppendOne(ip, newfile, g.lists[ip.id], w.tables[ip.id], w.merged[ip.id], ip.id in w.checked, ip.id in g.finished);
    EdgeIs(files, g, w, ip, newfile);
  }

  method AppendOne(ip: Inclist, newfile: Inclist, ghost list: seq<nat>, ghost table: Table, ghost merged: seq<bool>,
                   ghost checked: bool, ghost finished: bool)
    requires I.FileIs(ip, ip.id, list, table, merged, checked, finished)
    modifies ip`list, ip`merged
    ensures I.FileIs(ip, ip.id, list + [newfile.id], table, merged + [false], checked, finished)
    ensures ip.list == old(ip.list) + [newfile]
  {
    ip.list, ip.merged := ip.list + [newfile], ip.merged + [false];
  }

  /** One file with one edge more. */
  lemma EdgeIs(files: seq<Inclist>, g: Graph, w: World, ip: Inclist, newfile: Inclist)
    requires |files| == |g.lists| && g.Valid() && w.Valid(g) && IsFile(files, ip) && IsFile(files, newfile)
    requires ip.id != g.main && newfile.id !in g.lists[ip.id]
    requires forall j :: 0 <= j < |files| && j != ip.id ==>
               I.FileIs(files[j], j, g.lists[j], w.tables[j], w.merged[j], j in w.checked, j in g.finished)
    requires I.FileIs(ip, ip.id, g.lists[ip.id] + [newfile.id], w.tables[ip.id], w.merged[ip.id] + [false],
                      ip.id in w.checked, ip.id in g.finished)
    requires forall j, k :: 0 <= j < |files| && 0 <= k < |files[j].list| ==> IsFile(files, files[j].list[k])
    ensures I.Represents(files, IncludeIn(g, ip.id, newfile.id), Unmerged(g, w, ip.id, newfile.id))
  {
  }

  lemma NotInList(files: seq<Inclist>, g: Graph, ip: Inclist, newfile: Inclist)
    requires IsFile(files, newfile) && ip.id < |g.lists| && |ip.list| == |g.lists[ip.id]|
    requires forall k :: 0 <= k < |ip.list| ==> IsFile(files, ip.list[k]) && ip.list[k].id == g.lists[ip.id][k] && ip.list[k] != newfile
    ensures newfile.id !in g.lists[ip.id]
  {
    forall k | 0 <= k < |ip.list| ensures g.lists[ip.id][k] != newfile.id {
      assert files[ip.list[k].id] == ip.list[k];
    }
  }
}
