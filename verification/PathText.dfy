/**
 What remove_dotdot makes of a path: cut into components at its slashes, reduced, and put together.
 */
module PathText {
  import opened CStrings
  import opened CText
  import opened DotDot

  predicate IsAbsolute(path: string) { First(path) == '/' }

  /** A path that ends in a slash would be scanned past its end. */
  predicate EndsInSlash(path: string) { path != "" && path[|path| - 1] == '/' }

  function AfterSlashes(path: string, i: nat): (j: nat)
    requires i <= |path|
    ensures i <= j <= |path| && (j < |path| ==> path[j] != '/') && (i < |path| && path[i] == '/' ==> i < j)
    decreases |path| - i
  {
    if i < |path| && path[i] == '/' then AfterSlashes(path, i + 1) else i
  }

  function PieceEnd(path: string, i: nat): (e: nat)
    requires i <= |path|
    ensures i <= e <= |path| && (e < |path| ==> path[e] == '/')
    decreases |path| - i
  {
    if i == |path| || path[i] == '/' then i else PieceEnd(path, i + 1)
  }

  /** The component from `i` to `e`, unless that is nothing. */
  function Piece(path: string, i: nat, e: nat): seq<string>
    requires i <= e <= |path|
  {
    if i < e then [path[i..e]] else []
  }

  /** The pieces between slashes, without empty ones; the last piece is always kept. */
  function Pieces(path: string, i: nat): (r: seq<string>)
    requires i <= |path|
    ensures r != []
    decreases |path| - i
  {
    var e := PieceEnd(path, i);
    if e == |path| then [path[i..]] else Piece(path, i, e) + Pieces(path, AfterSlashes(path, e))
  }

  /** Components that a path can be made of. */
  predicate Proper(comps: seq<string>) { forall i :: 0 <= i < |comps| ==> IsProper(comps[i]) }

  predicate IsProper(c: string) { c != "" && forall k :: 0 <= k < |c| ==> c[k] != '/' }

  /** The components with a slash in front of each. */
  function Tail(comps: seq<string>): string {
    if comps == [] then "" else "/" + (comps[0] + Tail(comps[1..]))
  }

  function Join(comps: seq<string>): string {
    if comps == [] then "" else comps[0] + Tail(comps[1..])
  }

  function Root(path: string): string { if IsAbsolute(path) then "/" else "" }

  /** The components that are left. */
  function Kept(symbolic: string -> bool, path: string): seq<string> { Reduce(symbolic, [], Pieces(path, 0)) }

  /** What remove_dotdot makes of a path. */
  function Cleaned(symbolic: string -> bool, path: string): string {
    Root(path) + Join(Kept(symbolic, path))
  }

  // ---------- slicing undoes joining ----------

  /** The components stand in the path from `i` to its end, a slash between each two. */
  predicate LaidOut(path: string, i: nat, comps: seq<string>)
    requires comps != []
    decreases |comps|
  {
    var e := i + |comps[0]|;
    && e <= |path| && (forall k :: 0 <= k < |comps[0]| ==> path[i + k] == comps[0][k])
    && if |comps| == 1 then e == |path| else e < |path| && path[e] == '/' && LaidOut(path, e + 1, comps[1..])
  }

  lemma {:induction false} PieceEndAt(path: string, i: nat, e: nat)
    requires i <= e <= |path| && (e < |path| ==> path[e] == '/') && forall k :: i <= k < e ==> path[k] != '/'
    ensures PieceEnd(path, i) == e
    decreases e - i
  {
    if i < e { PieceEndAt(path, i + 1, e); }
  }

  lemma FirstPiece(path: string, i: nat, comps: seq<string>)
    requires comps != [] && LaidOut(path, i, comps) && Proper(comps)
    ensures var e := i + |comps[0]|; i < e && PieceEnd(path, i) == e && path[i..e] == comps[0]
  {
    var c := comps[0];
    assert IsProper(c);
    forall k | i <= k < i + |c| ensures path[k] != '/' {
      assert path[i + (k - i)] == c[k - i];
    }
    PieceEndAt(path, i, i + |c|);
  }

  lemma PiecesStep(path: string, i: nat, e: nat, rest: seq<string>)
    requires i < e < |path| && PieceEnd(path, i) == e && AfterSlashes(path, e) == e + 1 && Pieces(path, e + 1) == rest
    ensures Pieces(path, i) == [path[i..e]] + rest
  {
  }

  lemma {:induction false} PiecesOfLaidOut(path: string, i: nat, comps: seq<string>)
    requires comps != [] && LaidOut(path, i, comps) && Proper(comps)
    ensures Pieces(path, i) == comps
    decreases |comps|
  {
    FirstPiece(path, i, comps);
    var e, rest := i + |comps[0]|, comps[1..];
    if rest != [] {
      assert rest[0] == comps[1] && LaidOut(path, e + 1, rest);
      FirstPiece(path, e + 1, rest);
      assert PieceEnd(path, e + 1) > e + 1;
      assert AfterSlashes(path, e) == e + 1;
      PiecesOfLaidOut(path, e + 1, rest);
      PiecesStep(path, i, e, rest);
      assert comps == [comps[0]] + rest;
    } else {
      assert comps == [comps[0]] && path[i..] == path[i..e];
    }
  }

  lemma JoinFirst(path: string, i: nat, c: string, joined: string)
    requires i <= |path| && path[i..] == c + ("/" + joined)
    ensures var e := i + |c|;
            && e < |path| && path[e] == '/' && path[e + 1..] == joined
            && forall k :: 0 <= k < |c| ==> path[i + k] == c[k]
  {
    var t := path[i..];
    assert forall k :: 0 <= k < |t| ==> path[i + k] == t[k];
    assert t[|c| + 1..] == joined && path[i + |c| + 1..] == t[|c| + 1..];
  }

  lemma {:induction false} JoinLaidOut(path: string, i: nat, comps: seq<string>)
    requires comps != [] && i <= |path| && path[i..] == Join(comps)
    ensures LaidOut(path, i, comps)
    decreases |comps|
  {
    var c, rest := comps[0], comps[1..];
    if rest != [] {
      JoinFirst(path, i, c, Join(rest));
      JoinLaidOut(path, i + |c| + 1, rest);
    } else {
      assert path[i..] == c + "" == c;
      assert forall k :: 0 <= k < |c| ==> path[i + k] == path[i..][k];
    }
  }

  /** A joined path, with or without a slash in front, is cut into the same components. */
  lemma PiecesOfJoin(root: string, comps: seq<string>)
    requires (root == "" || root == "/") && comps != [] && Proper(comps)
    ensures Pieces(root + Join(comps), 0) == comps
  {
    var path := root + Join(comps);
    assert path[|root|..] == Join(comps);
    JoinLaidOut(path, |root|, comps);
    PiecesOfLaidOut(path, |root|, comps);
    if root == "/" {
      assert IsProper(comps[0]) && path[1] == comps[0][0];
      assert AfterSlashes(path, 0) == 1;
      assert [] + Pieces(path, 1) == Pieces(path, 1);
    }
  }

  lemma PiecesOfRoot(root: string)
    requires root == "" || root == "/"
    ensures Pieces(root, 0) == [""]
  {
    assert root[|root|..] == "";
    assert [] + Pieces(root, |root|) == Pieces(root, |root|);
  }

  // ---------- components ----------

  lemma {:induction false} PieceIsPlain(path: string, i: nat, k: nat)
    requires i <= |path| && i <= k < PieceEnd(path, i)
    ensures path[k] != '/'
    decreases |path| - i
  {
    if i < k { PieceIsPlain(path, i + 1, k); }
  }

  lemma {:induction false} SlashesEnd(path: string, i: nat)
    requires i < |path| && !EndsInSlash(path)
    ensures AfterSlashes(path, i) < |path|
    decreases |path| - i
  {
    if path[i] == '/' { SlashesEnd(path, i + 1); }
  }

  lemma PieceProper(path: string, i: nat, e: nat)
    requires i < e <= |path| && e == PieceEnd(path, i)
    ensures IsProper(path[i..e])
  {
    forall k | 0 <= k < e - i ensures path[i..e][k] != '/' {
      PieceIsPlain(path, i, i + k);
    }
  }

  lemma {:induction false} PiecesProper(path: string, i: nat)
    requires i < |path| && !EndsInSlash(path)
    ensures Proper(Pieces(path, i))
    decreases |path| - i
  {
    var e := PieceEnd(path, i);
    if i < e { PieceProper(path, i, e); }
    if e < |path| {
      SlashesEnd(path, e);
      PiecesProper(path, AfterSlashes(path, e));
    } else {
      assert path[i..] == path[i..e];
    }
  }

  lemma {:induction false} ReduceProper(symbolic: string -> bool, stack: seq<string>, comps: seq<string>)
    requires Proper(stack) && Proper(comps)
    ensures Proper(Reduce(symbolic, stack, comps))
    decreases |comps|
  {
    if comps != [] { ReduceProper(symbolic, Push(symbolic, stack, comps[0]), comps[1..]); }
  }

  /** What is left: nothing, the empty component of an empty path, or proper components. */
  lemma WhatIsKept(symbolic: string -> bool, path: string)
    requires !EndsInSlash(path)
    ensures var c := Kept(symbolic, path); Proper(c) || (path == "" && c == [""])
  {
    if path == "" {
      PiecesOfRoot("");
      assert [""][1..] == [];
      assert Reduce(symbolic, [], [""]) == Reduce(symbolic, [""], []);
    } else {
      PiecesProper(path, 0);
      ReduceProper(symbolic, [], Pieces(path, 0));
    }
  }

  lemma {:induction false} JoinEnds(comps: seq<string>)
    requires comps != [] && Proper(comps)
    ensures Join(comps) != "" && Join(comps)[0] != '/' && !EndsInSlash(Join(comps))
    decreases |comps|
  {
    assert IsProper(comps[0]);
    var rest := comps[1..];
    if rest != [] {
      assert Join(comps) == comps[0] + ("/" + Join(rest));
      JoinEnds(rest);
    } else {
      assert Join(comps) == comps[0];
    }
  }

  // ---------- lengths ----------

  lemma {:induction false} TailLength(a: seq<string>, b: seq<string>)
    ensures |Tail(a + b)| == |Tail(a)| + |Tail(b)|
    decreases |a|
  {
    if a == [] {
      assert a + b == b;
    } else {
      assert (a + b)[1..] == a[1..] + b;
      TailLength(a[1..], b);
    }
  }

  lemma TailOfOne(c: string)
    ensures |Tail([c])| == 1 + |c|
  {
    assert Tail([c][1..]) == "";
  }

  lemma PushShortens(symbolic: string -> bool, stack: seq<string>, c: string)
    ensures |Tail(Push(symbolic, stack, c))| <= |Tail(stack)| + |Tail([c])|
  {
    TailLength(stack, [c]);
    if stack != [] {
      var below, top := stack[..|stack| - 1], stack[|stack| - 1];
      assert stack == below + [top];
      TailLength(below, [top]);
    }
  }

  lemma {:induction false} ReduceShortens(symbolic: string -> bool, stack: seq<string>, comps: seq<string>)
    ensures |Tail(Reduce(symbolic, stack, comps))| <= |Tail(stack)| + |Tail(comps)|
    decreases |comps|
  {
    if comps != [] {
      PushShortens(symbolic, stack, comps[0]);
      ReduceShortens(symbolic, Push(symbolic, stack, comps[0]), comps[1..]);
      TailOfOne(comps[0]);
    }
  }

  lemma {:induction false} PiecesShort(path: string, i: nat)
    requires i <= |path|
    ensures |Tail(Pieces(path, i))| <= 1 + |path| - (if i < |path| && path[i] == '/' then i + 1 else i)
    decreases |path| - i
  {
    var e := PieceEnd(path, i);
    if e == |path| {
      TailOfOne(path[i..]);
    } else {
      var next := AfterSlashes(path, e);
      PiecesShort(path, next);
      TailLength(Piece(path, i, e), Pieces(path, next));
      TailOfOne(path[i..e]);
    }
  }

  // ---------- the main results ----------

  /** A path is never made longer, so it can be copied back to where it came from. */
  lemma NeverLonger(symbolic: string -> bool, path: string)
    ensures |Cleaned(symbolic, path)| <= |path|
  {
    ReduceShortens(symbolic, [], Pieces(path, 0));
    PiecesShort(path, 0);
  }

  lemma AbsoluteKept(symbolic: string -> bool, path: string)
    requires !EndsInSlash(path)
    ensures IsAbsolute(Cleaned(symbolic, path)) <==> IsAbsolute(path)
  {
    WhatIsKept(symbolic, path);
    var c := Kept(symbolic, path);
    if c != [] && Proper(c) { JoinEnds(c); }
  }

  /** The components of the result are those left; when all are gone an empty one is read back. */
  lemma PiecesOfCleaned(symbolic: string -> bool, path: string)
    requires !EndsInSlash(path)
    ensures var c := Kept(symbolic, path); Pieces(Cleaned(symbolic, path), 0) == if c == [] then [""] else c
  {
    WhatIsKept(symbolic, path);
    var c := Kept(symbolic, path);
    if c != [] && Proper(c) {
      PiecesOfJoin(Root(path), c);
    } else {
      assert Cleaned(symbolic, path) == Root(path);
      PiecesOfRoot(Root(path));
    }
  }

  /** No pair is left to take out. */
  lemma NothingLeft(symbolic: string -> bool, path: string)
    requires !EndsInSlash(path)
    ensures Normal(symbolic, Pieces(Cleaned(symbolic, path), 0))
  {
    PiecesOfCleaned(symbolic, path);
    ReduceNormalizes(symbolic, [], Pieces(path, 0));
  }

  lemma Idempotent(symbolic: string -> bool, path: string)
    requires !EndsInSlash(path)
    ensures Cleaned(symbolic, Cleaned(symbolic, path)) == Cleaned(symbolic, path)
  {
    NothingLeft(symbolic, path);
    PiecesOfCleaned(symbolic, path);
    AbsoluteKept(symbolic, path);
    NormalPasses(symbolic, Pieces(Cleaned(symbolic, path), 0));
  }

  /** The result can be given to remove_dotdot again unless an absolute path has lost all its components. */
  lemma EndsWell(symbolic: string -> bool, path: string)
    requires !EndsInSlash(path)
    ensures EndsInSlash(Cleaned(symbolic, path)) <==> IsAbsolute(path) && Balanced(symbolic, Pieces(path, 0), 0)
  {
    NothingLeftIff(symbolic, [], Pieces(path, 0));
    WhatIsKept(symbolic, path);
    var c := Kept(symbolic, path);
    var result := Cleaned(symbolic, path);
    if c != [] && Proper(c) {
      JoinEnds(c);
      assert result[|result| - 1] == Join(c)[|Join(c)| - 1];
    } else {
      assert result == Root(path);
    }
  }

  /** The place a path names, from a current directory. */
  function Place<D>(step: (D, string) -> D, top: D, cwd: D, path: string): D {
    Walk(step, if IsAbsolute(path) then top else cwd, Pieces(path, 0))
  }

  /** In a tree where ".." leads back, and an empty component stays, the path names the same place as before. */
  lemma SamePlace<D(!new)>(symbolic: string -> bool, step: (D, string) -> D, top: D, cwd: D, path: string)
    requires LeadsBack(symbolic, step) && (forall d :: step(d, "") == d)
    requires !EndsInSlash(path)
    ensures Place(step, top, cwd, Cleaned(symbolic, path)) == Place(step, top, cwd, path)
  {
    MeaningKept(symbolic, step);
    AbsoluteKept(symbolic, path);
    PiecesOfCleaned(symbolic, path);
    var d := if IsAbsolute(path) then top else cwd;
    assert Walk(step, d, [""]) == Walk(step, step(d, ""), []);
    assert Walk(step, d, Kept(symbolic, path)) == Walk(step, d, Pieces(path, 0));
  }

  // ---------- in plain words ----------

  /** "." and nothing stay where they are, and ".." leads back from every name that is not a symbolic link. */
  ghost predicate IsTree<D(!new)>(symbolic: string -> bool, step: (D, string) -> D) {
    && (forall d :: step(d, ".") == d && step(d, "") == d)
    && forall d, x :: !symbolic(x) && x != "" && x != "." && x != ".." ==> step(step(d, x), "..") == d
  }

  lemma PushInTree<D(!new)>(symbolic: string -> bool, step: (D, string) -> D, d: D, stack: seq<string>, c: string)
    requires IsTree(symbolic, step) && Proper(stack)
    ensures Walk(step, d, Push(symbolic, stack, c)) == Walk(step, d, stack + [c])
  {
    var next := Push(symbolic, stack, c);
    if next != stack + [c] {
      var x := stack[|stack| - 1];
      assert IsProper(x) && c == "..";
      assert stack + [c] == next + [x, c];
      WalkConcat(step, d, next, [x, c]);
      WalkPair(step, Walk(step, d, next), x, c);
    }
  }

  lemma {:induction false} ReduceInTree<D(!new)>(symbolic: string -> bool, step: (D, string) -> D, d: D,
                                                stack: seq<string>, comps: seq<string>)
    requires IsTree(symbolic, step) && Proper(stack) && Proper(comps)
    ensures Walk(step, d, Reduce(symbolic, stack, comps)) == Walk(step, d, stack + comps)
    decreases |comps|
  {
    if comps == [] {
      assert stack + comps == stack;
    } else {
      ReduceInTree(symbolic, step, d, Push(symbolic, stack, comps[0]), comps[1..]);
      OnePushed(symbolic, step, d, stack, comps);
    }
  }

  lemma OnePushed<D(!new)>(symbolic: string -> bool, step: (D, string) -> D, d: D, stack: seq<string>, comps: seq<string>)
    requires IsTree(symbolic, step) && Proper(stack) && comps != []
    ensures Walk(step, d, Push(symbolic, stack, comps[0]) + comps[1..]) == Walk(step, d, stack + comps)
  {
    var c := comps[0];
    assert stack + comps == (stack + [c]) + comps[1..];
    WalkConcat(step, d, stack + [c], comps[1..]);
    WalkConcat(step, d, Push(symbolic, stack, c), comps[1..]);
    PushInTree(symbolic, step, d, stack, c);
  }

  /** Where a path leads in a tree, from the top if it begins with a slash. */
  function Leads<D>(step: (D, string) -> D, top: D, cwd: D, path: string): D {
    Walk(step, if path != "" && path[0] == '/' then top else cwd, Pieces(path, 0))
  }

  /** In any such tree the path leads where it did. */
  lemma LeadsToTheSame<D(!new)>(symbolic: string -> bool, step: (D, string) -> D, top: D, cwd: D, path: string)
    requires IsTree(symbolic, step) && !EndsInSlash(path)
    ensures Leads(step, top, cwd, Cleaned(symbolic, path)) == Leads(step, top, cwd, path)
  {
    AbsoluteKept(symbolic, path);
    PiecesOfCleaned(symbolic, path);
    WhatIsKept(symbolic, path);
    var d := if path != "" && path[0] == '/' then top else cwd;
    assert Walk(step, d, [""]) == Walk(step, step(d, ""), []) == d;
    if path != "" {
      PiecesProper(path, 0);
      ReduceInTree(symbolic, step, d, [], Pieces(path, 0));
      assert [] + Pieces(path, 0) == Pieces(path, 0);
    } else {
      PiecesOfRoot("");
    }
  }

  /** And no name stands before ".." in it, unless it is a symbolic link. */
  lemma NothingToGoBackFrom(symbolic: string -> bool, path: string, i: nat)
    requires !EndsInSlash(path) && i + 1 < |Pieces(Cleaned(symbolic, path), 0)|
    ensures var c := Pieces(Cleaned(symbolic, path), 0); c[i + 1] == ".." ==> c[i] == "." || c[i] == ".." || symbolic(c[i])
  {
    NothingLeft(symbolic, path);
    assert !Droppable(symbolic, Pieces(Cleaned(symbolic, path), 0)[i], Pieces(Cleaned(symbolic, path), 0)[i + 1]);
  }

  // ---------- no NUL comes in ----------

  predicate NulFree(comps: seq<string>) { forall i :: 0 <= i < |comps| ==> NUL !in comps[i] }

  lemma {:induction false} PiecesNulFree(path: string, i: nat)
    requires i <= |path| && NUL !in path
    ensures NulFree(Pieces(path, i))
    decreases |path| - i
  {
    var e := PieceEnd(path, i);
    if e < |path| { PiecesNulFree(path, AfterSlashes(path, e)); }
  }

  lemma {:induction false} ReduceNulFree(symbolic: string -> bool, stack: seq<string>, comps: seq<string>)
    requires NulFree(stack) && NulFree(comps)
    ensures NulFree(Reduce(symbolic, stack, comps))
    decreases |comps|
  {
    if comps != [] { ReduceNulFree(symbolic, Push(symbolic, stack, comps[0]), comps[1..]); }
  }

  lemma {:induction false} TailNulFree(comps: seq<string>)
    requires NulFree(comps)
    ensures NUL !in Tail(comps)
    decreases |comps|
  {
    if comps != [] { TailNulFree(comps[1..]); }
  }

  lemma NoNul(symbolic: string -> bool, path: string)
    requires NUL !in path
    ensures NUL !in Cleaned(symbolic, path)
  {
    PiecesNulFree(path, 0);
    ReduceNulFree(symbolic, [], Pieces(path, 0));
    var c := Kept(symbolic, path);
    if c != [] { TailNulFree(c[1..]); }
  }
}
