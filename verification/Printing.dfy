/**
 recursive_pr_include: which files are printed for a command-line file, and in which order.
 */
module Printing {
  import opened Sequences
  import opened SymbolTable

  type File = nat

  /** The files each file includes, by number. */
  type Includes = seq<seq<File>>

  ghost predicate Closed(g: Includes) {
    forall f, i :: 0 <= f < |g| && 0 <= i < |g[f]| ==> g[f][i] < |g|
  }

  ghost function AllFiles(g: Includes): set<File> { set f: File {:trigger g[f]} | f < |g| }

  /** The files in the order in which they get MARKED, and all marked ones afterwards. */
  ghost function Visit(g: Includes, head: File, marked: set<File>): (r: (seq<File>, set<File>))
    requires Closed(g) && head < |g| && marked <= AllFiles(g)
    ensures marked <= r.1 <= AllFiles(g)
    decreases AllFiles(g) - marked, 0
  {
    if head in marked then ([], marked)
    else
      var r := VisitList(g, head, 0, marked + {head});
      ([head] + r.0, r.1)
  }

  /** The loop over i_list from the i-th child on. */
  ghost function VisitList(g: Includes, f: File, i: nat, marked: set<File>): (r: (seq<File>, set<File>))
    requires Closed(g) && f < |g| && i <= |g[f]| && marked <= AllFiles(g)
    ensures marked <= r.1 <= AllFiles(g)
    decreases AllFiles(g) - marked, 1 + |g[f]| - i
  {
    if i == |g[f]| then ([], marked)
    else
      var r := Visit(g, g[f][i], marked);
      var s := VisitList(g, f, i + 1, r.1);
      (r.0 + s.0, s.1)
  }

  // ---------- exactly the reachable files, once each ----------

  ghost predicate Edge(g: Includes, a: File, b: File) { a < |g| && b in g[a] }

  ghost predicate Path(g: Includes, p: seq<File>) {
    p != [] && forall k :: 0 <= k < |p| - 1 ==> Edge(g, p[k], p[k + 1])
  }

  ghost predicate Reaches(g: Includes, a: File, b: File) {
    exists p :: Path(g, p) && p[0] == a && p[|p| - 1] == b
  }

  /** `order` lists the newly marked files once each, and what they include is marked too. */
  ghost predicate Complete(g: Includes, order: seq<File>, marked: set<File>, marked': set<File>) {
    && Distinct(order) && (forall x :: x in order <==> x in marked' && x !in marked)
    && forall a, b :: a in order && Edge(g, a, b) ==> b in marked'
  }

  lemma {:induction false} VisitComplete(g: Includes, head: File, marked: set<File>)
    requires Closed(g) && head < |g| && marked <= AllFiles(g)
    ensures head in Visit(g, head, marked).1
    ensures Complete(g, Visit(g, head, marked).0, marked, Visit(g, head, marked).1)
    decreases AllFiles(g) - marked, 0
  {
    if head !in marked {
      var r := VisitList(g, head, 0, marked + {head});
      VisitListComplete(g, head, 0, marked + {head});
      forall b | Edge(g, head, b) ensures b in r.1 {
        var i :| 0 <= i < |g[head]| && g[head][i] == b;
      }
    }
  }

  lemma {:induction false} VisitListComplete(g: Includes, f: File, i: nat, marked: set<File>)
    requires Closed(g) && f < |g| && i <= |g[f]| && marked <= AllFiles(g)
    ensures Complete(g, VisitList(g, f, i, marked).0, marked, VisitList(g, f, i, marked).1)
    ensures forall k :: i <= k < |g[f]| ==> g[f][k] in VisitList(g, f, i, marked).1
    decreases AllFiles(g) - marked, 1 + |g[f]| - i
  {
    if i < |g[f]| {
      var r := Visit(g, g[f][i], marked);
      VisitComplete(g, g[f][i], marked);
      VisitListComplete(g, f, i + 1, r.1);
      CompleteConcat(g, r.0, VisitList(g, f, i + 1, r.1).0, marked, r.1, VisitList(g, f, i + 1, r.1).1);
    }
  }

  lemma CompleteConcat(g: Includes, s: seq<File>, t: seq<File>, m0: set<File>, m1: set<File>, m2: set<File>)
    requires m0 <= m1 <= m2 && Complete(g, s, m0, m1) && Complete(g, t, m1, m2)
    ensures Complete(g, s + t, m0, m2)
  {
    var u := s + t;
    forall i, j | 0 <= i < j < |u| ensures u[i] != u[j] {
      if i < |s| <= j {
        assert u[i] in s && u[j] in t;
      }
    }
  }

  /** Every file marked was reached, and is included by the head or by a file marked before it. */
  lemma {:induction false} VisitReached(g: Includes, head: File, marked: set<File>, x: File)
    requires Closed(g) && head < |g| && marked <= AllFiles(g)
    requires x in Visit(g, head, marked).0
    ensures Reaches(g, head, x)
    decreases AllFiles(g) - marked, 0
  {
    if x == head {
      assert Path(g, [head]) && [head][0] == head == [head][|[head]| - 1];
    } else {
      VisitListReached(g, head, 0, marked + {head}, x);
    }
  }

  lemma {:induction false} VisitListReached(g: Includes, f: File, i: nat, marked: set<File>, x: File)
    requires Closed(g) && f < |g| && i <= |g[f]| && marked <= AllFiles(g)
    requires x in VisitList(g, f, i, marked).0
    ensures Reaches(g, f, x)
    decreases AllFiles(g) - marked, 1 + |g[f]| - i
  {
    var r := Visit(g, g[f][i], marked);
    if x in r.0 {
      VisitReached(g, g[f][i], marked, x);
      var p :| Path(g, p) && p[0] == g[f][i] && p[|p| - 1] == x;
      var q := [f] + p;
      forall k | 0 <= k < |q| - 1 ensures Edge(g, q[k], q[k + 1]) {
        if k > 0 { assert Edge(g, p[k - 1], p[k]); }
      }
      assert Path(g, q) && q[0] == f && q[|q| - 1] == x;
    } else {
      VisitListReached(g, f, i + 1, r.1, x);
    }
  }

  lemma {:induction false} StaysInside(g: Includes, p: seq<File>, s: set<File>)
    requires Path(g, p) && p[0] in s && forall a, b :: a in s && Edge(g, a, b) ==> b in s
    ensures p[|p| - 1] in s
  {
    if |p| > 1 {
      assert Edge(g, p[0], p[1]);
      forall k | 0 <= k < |p[1..]| - 1 ensures Edge(g, p[1..][k], p[1..][k + 1]) {
        assert Edge(g, p[k + 1], p[k + 2]);
      }
      StaysInside(g, p[1..], s);
    }
  }

  /** Started with no file marked: exactly the reachable files are marked, once each, the root first. */
  lemma MarksExactlyReachable(g: Includes, root: File)
    requires Closed(g) && root < |g|
    ensures forall x :: x in Visit(g, root, {}).1 <==> Reaches(g, root, x)
    ensures forall x :: x in Visit(g, root, {}).0 <==> Reaches(g, root, x)
    ensures Distinct(Visit(g, root, {}).0) && Visit(g, root, {}).0 != [] && Visit(g, root, {}).0[0] == root
  {
    var (order, marked) := Visit(g, root, {});
    VisitComplete(g, root, {});
    forall x | x in marked ensures Reaches(g, root, x) {
      VisitReached(g, root, {}, x);
    }
    forall x | Reaches(g, root, x) ensures x in marked {
      var p :| Path(g, p) && p[0] == root && p[|p| - 1] == x;
      StaysInside(g, p, marked);
    }
  }

  // ---------- the methods ----------

  /** The heap holds the graph, with exactly these files marked. */
  ghost predicate Represents(files: seq<Inclist>, g: Includes, marked: set<File>)
    reads files
  {
    && |files| == |g| && Closed(g) && marked <= AllFiles(g)
    && (forall i :: 0 <= i < |files| ==> files[i].id == i && (i in marked <==> files[i].marked) && |files[i].list| == |g[i]|)
    && (forall i, k :: 0 <= i < |files| && 0 <= k < |g[i]| ==> IsFile(files, files[i].list[k]) && files[i].list[k].id == g[i][k])
  }

  /** What is left of an order when the command-line file itself is not printed. */
  ghost function Without(order: seq<File>, root: File): seq<File> {
    if order == [] then [] else (if order[0] == root then [] else [order[0]]) + Without(order[1..], root)
  }

  lemma {:induction false} WithoutConcat(s: seq<File>, t: seq<File>, root: File)
    ensures Without(s + t, root) == Without(s, root) + Without(t, root)
  {
    if s == [] {
      assert s + t == t;
    } else {
      assert (s + t)[1..] == s[1..] + t;
      WithoutConcat(s[1..], t, root);
    }
  }

  lemma {:induction false} WithoutAbsent(s: seq<File>, root: File)
    requires root !in s
    ensures Without(s, root) == s
  {
    if s != [] { WithoutAbsent(s[1..], root); }
  }

  class Output {
    /** The files pr was called for, in order. */
    var printed: seq<File>

    method Pr(f: Inclist)
      modifies this
      ensures printed == old(printed) + [f.id]
    {
      printed := printed + [f.id];
    }

    method RecursivePrInclude(head: Inclist, root: Inclist, ghost files: seq<Inclist>, ghost g: Includes, ghost marked: set<File>)
      requires Represents(files, g, marked) && IsFile(files, head) && IsFile(files, root)
      modifies files`marked, this
      ensures Represents(files, g, Visit(g, head.id, marked).1)
      ensures printed == old(printed) + Without(Visit(g, head.id, marked).0, root.id)
      decreases AllFiles(g) - marked, 0
    {
      assert files[head.id] == head;
      if head.marked {
        return;
      }
      head.marked := true;
      if head != root {
        Pr(head);
      }
      ghost var rest := VisitList(g, head.id, 0, marked + {head.id}).0;
      assert printed == old(printed) + Without([head.id], root.id) by { assert files[root.id] == root; }
      WithoutConcat([head.id], rest, root.id);
      Assoc(old(printed), Without([head.id], root.id), Without(rest, root.id));
      var _ := PrChildren(head, root, files, g, marked + {head.id});
    }

    /** The loop over i_list. */
    method PrChildren(head: Inclist, root: Inclist, ghost files: seq<Inclist>, ghost g: Includes,
                      ghost marked: set<File>) returns (ghost cur: set<File>)
      requires Represents(files, g, marked) && IsFile(files, head) && IsFile(files, root)
      modifies files`marked, this
      ensures cur == VisitList(g, head.id, 0, marked).1 && Represents(files, g, cur)
      ensures printed == old(printed) + Without(VisitList(g, head.id, 0, marked).0, root.id)
      decreases AllFiles(g) - marked, 1
    {
      cur := marked;
      ghost var all := VisitList(g, head.id, 0, cur);
      ghost var goal := printed + Without(all.0, root.id);
      assert files[head.id] == head;
      var i := 0;
      while i < |head.list|
        invariant i <= |head.list| == |g[head.id]| && marked <= cur
        invariant Represents(files, g, cur)
        invariant VisitList(g, head.id, i, cur).1 == all.1
        invariant printed + Without(VisitList(g, head.id, i, cur).0, root.id) == goal
      {
        ghost var r := Visit(g, g[head.id][i], cur);
        ghost var rest := VisitList(g, head.id, i + 1, r.1).0;
        ghost var before := printed;
        WithoutConcat(r.0, rest, root.id);
        Assoc(before, Without(r.0, root.id), Without(rest, root.id));
        assert files[head.id].list[i] == head.list[i] && IsFile(files, head.list[i]);
        RecursivePrInclude(head.list[i], root, files, g, cur);
        cur := r.1;
        i := i + 1;
      }
    }
  }

  /** inc_clean: no file is marked for the next command-line file. */
  method IncClean(files: seq<Inclist>, ghost g: Includes, ghost marked: set<File>)
    requires Represents(files, g, marked)
    modifies files`marked
    ensures Represents(files, g, {})
  {
    var i := 0;
    while i < |files|
      invariant i <= |files| && Represents(files, g, set x | x in marked && i <= x)
    {
      files[i].marked := false;
      i := i + 1;
    }
  }

  /** What pr is called for when `root` is the command-line file. */
  ghost function PrintedFor(g: Includes, root: File): seq<File>
    requires Closed(g) && root < |g|
  {
    Without(Visit(g, root, {}).0, root)
  }

  /** For one command-line file: every reachable file except itself, exactly once. */
  lemma PrintsReachableOnce(g: Includes, root: File)
    requires Closed(g) && root < |g|
    ensures Distinct(PrintedFor(g, root))
    ensures forall x :: x in PrintedFor(g, root) <==> Reaches(g, root, x) && x != root
  {
    MarksExactlyReachable(g, root);
    var order := Visit(g, root, {}).0;
    WithoutAbsent(order[1..], root);
    assert PrintedFor(g, root) == order[1..];
    forall x | Reaches(g, root, x) && x != root ensures x in order[1..] {
      assert x in order;
      var k :| 0 <= k < |order| && order[k] == x;
      assert order[1..][k - 1] == x;
    }
  }

  /** One turn of main's loop, whatever has been read so far: the files marked are clean again afterwards. */
  method PrintOne(out: Output, root: Inclist, files: seq<Inclist>, ghost g: Includes)
    requires Represents(files, g, {}) && IsFile(files, root)
    modifies files`marked, out
    ensures out.printed == old(out.printed) + PrintedFor(g, root.id)
    ensures Represents(files, g, {})
  {
    out.RecursivePrInclude(root, root, files, g, {});
    IncClean(files, g, Visit(g, root.id, {}).1);
  }

  // ---------- all command-line files ----------

  /** What the files include by the time each command-line file has been read. */
  ghost predicate AllRead(files: seq<Inclist>, turns: seq<seq<seq<Inclist>>>, gs: seq<Includes>) {
    |turns| == |gs| && forall i :: 0 <= i < |gs| ==> ReadAs(files, turns[i], gs[i])
  }

  ghost predicate ReadAs(files: seq<Inclist>, lists: seq<seq<Inclist>>, g: Includes) {
    && |lists| == |g| == |files| && Closed(g) && (forall j :: 0 <= j < |files| ==> files[j].id == j && |lists[j]| == |g[j]|)
    && forall j, k :: 0 <= j < |g| && 0 <= k < |g[j]| ==> IsFile(files, lists[j][k]) && lists[j][k].id == g[j][k]
  }

  ghost function AllPrinted(gs: seq<Includes>, roots: seq<File>): seq<File>
    requires |roots| <= |gs| && forall i :: 0 <= i < |roots| ==> Closed(gs[i]) && roots[i] < |gs[i]|
  {
    if roots == [] then []
    else AllPrinted(gs, roots[..|roots| - 1]) + PrintedFor(gs[|roots| - 1], roots[|roots| - 1])
  }

  lemma OneMore(gs: seq<Includes>, ids: seq<File>, i: nat)
    requires i < |ids| <= |gs| && forall k :: 0 <= k < |ids| ==> Closed(gs[k]) && ids[k] < |gs[k]|
    ensures AllPrinted(gs, ids[..i + 1]) == AllPrinted(gs, ids[..i]) + PrintedFor(gs[i], ids[i])
  {
    assert ids[..i + 1][..i] == ids[..i];
  }

  /** Reading a command-line file has added to what the files include. */
  method Read(files: seq<Inclist>, lists: seq<seq<Inclist>>, ghost g: Includes)
    requires ReadAs(files, lists, g) && forall j :: 0 <= j < |files| ==> !files[j].marked
    modifies files`list
    ensures Represents(files, g, {})
  {
    var j := 0;
    while j < |files|
      invariant j <= |files| && forall k :: 0 <= k < j ==> files[k].list == lists[k]
    {
      files[j].list := lists[j];
      j := j + 1;
    }
  }

  /** All turns: each command-line file is read and then gets the list of all that it comes to by then, without itself. */
  method PrintAll(roots: seq<Inclist>, files: seq<Inclist>, turns: seq<seq<seq<Inclist>>>, ghost gs: seq<Includes>, ghost ids: seq<File>)
    returns (out: Output)
    requires AllRead(files, turns, gs) && |turns| == |roots| == |ids| && forall j :: 0 <= j < |files| ==> !files[j].marked
    requires forall i :: 0 <= i < |roots| ==> IsFile(files, roots[i]) && roots[i].id == ids[i] < |gs[i]|
    modifies files`marked, files`list
    ensures fresh(out) && out.printed == AllPrinted(gs, ids)
    ensures forall j :: 0 <= j < |files| ==> !files[j].marked
  {
    out := new Output;
    out.printed := [];
    var i := 0;
    while i < |roots|
      invariant i <= |roots| && fresh(out) && forall j :: 0 <= j < |files| ==> !files[j].marked
      invariant out.printed == AllPrinted(gs, ids[..i])
    {
      ghost var done := out.printed;
      Read(files, turns[i], gs[i]);
      PrintOne(out, roots[i], files, gs[i]);
      assert out.printed == done + PrintedFor(gs[i], ids[i]);
      OneMore(gs, ids, i);
      i := i + 1;
    }
    assert ids[..|roots|] == ids;
  }
}
