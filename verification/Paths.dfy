/**
 remove_dotdot as it runs: the path is cut up in place, the component array is reduced, and the result is
 copied back over the path.
 */
module Paths {
  import opened CStrings
  import opened Sequences
  import opened DotDot
  import opened PathText

  /** `s` stands in the buffer, ended by a NUL. */
  predicate TextIn(path: array<char>, s: string)
    reads path
  {
    Rest(path, s, 0)
  }

  /** What is left of the text from `from` on. */
  predicate Rest(path: array<char>, text: string, from: nat)
    reads path
  {
    |text| < path.Length && NUL !in text && forall k :: from <= k <= |text| ==> path[k] == At(text, k)
  }

  /** Overwrites a run of slashes. */
  method CutSlashes(path: array<char>, start: nat, ghost text: string) returns (end: nat)
    requires start < |text| && text[start] == '/' && !EndsInSlash(text) && Rest(path, text, start)
    modifies path
    ensures start < end == AfterSlashes(text, start) < |text| && Rest(path, text, end)
    ensures path[start] == NUL && forall k :: 0 <= k < start ==> path[k] == old(path[k])
  {
    SlashesEnd(text, start);
    end := start;
    while path[end] == '/'
      invariant start <= end < |text| && (start < end ==> path[start] == NUL)
      invariant Rest(path, text, end) && AfterSlashes(text, end) == AfterSlashes(text, start)
      invariant forall k :: 0 <= k < start ==> path[k] == old(path[k])
      decreases |text| - end
    {
      path[end] := NUL;
      end := end + 1;
    }
  }

  method Store(components: array<string>, n: nat, piece: string)
    requires n < components.Length
    modifies components
    ensures components[..n + 1] == old(components[..n]) + [piece]
  {
    components[n] := piece;
  }

  /** `done` and the components from `from` on are all there are. */
  ghost predicate Sliced(text: string, done: seq<string>, from: nat) {
    from <= |text| && done + Pieces(text, from) == Pieces(text, 0)
  }

  lemma SlicedOn(text: string, done: seq<string>, from: nat, stop: nat)
    requires from <= stop < |text| && PieceEnd(text, from) == stop && Sliced(text, done, from)
    ensures Sliced(text, done + Piece(text, from, stop), AfterSlashes(text, stop))
  {
    var rest := Pieces(text, AfterSlashes(text, stop));
    assert (done + Piece(text, from, stop)) + rest == done + (Piece(text, from, stop) + rest);
  }

  /** Ends the component that starts at `from` at the slash at `stop`, and goes on behind the slashes there. */
  method Cut(path: array<char>, components: array<string>, count: nat, from: nat, stop: nat, ghost text: string)
    returns (n: nat, end: nat)
    requires from <= stop < |text| && PieceEnd(text, from) == stop && Rest(path, text, from) && !EndsInSlash(text)
    requires count <= from && |text| < components.Length
    modifies path, components
    ensures stop < end == AfterSlashes(text, stop) < |text| && Rest(path, text, end) && n <= end
    ensures components[..n] == old(components[..count]) + Piece(text, from, stop)
  {
    n := count;
    end := CutSlashes(path, stop, text);
    if path[from] != NUL {
      assert path[from..stop] == text[from..stop];
      Store(components, n, path[from..stop]);
      n := n + 1;
    }
  }

  /** Slices the path into components, with a NUL where each one ends. */
  method Slice(path: array<char>, components: array<string>, ghost text: string) returns (n: nat)
    requires TextIn(path, text) && !EndsInSlash(text) && |text| < components.Length
    modifies path, components
    ensures n <= components.Length && components[..n] == Pieces(text, 0)
  {
    var from, end := 0, 0;
    n := 0;
    while path[end] != NUL
      invariant n <= from <= end <= |text| && Rest(path, text, from)
      invariant PieceEnd(text, end) == PieceEnd(text, from)
      invariant Sliced(text, components[..n], from)
      decreases |text| - end
    {
      if path[end] == '/' {
        SlicedOn(text, components[..n], from, end);
        n, end := Cut(path, components, n, from, end, text);
        from := end;
      }
      end := end + 1;
    }
    assert path[from..end] == text[from..];
    Store(components, n, path[from..end]);
    n := n + 1;
  }

  // ---------- paths that end in a slash ----------

  /** Where the slicing loop comes to: over a slash its cursor moves behind all slashes there and then once more. */
  datatype Cursor = AtEnd | Behind

  function SliceFrom(text: string, end: nat): Cursor
    decreases if end <= |text| then |text| - end + 1 else 0
  {
    if end > |text| then Behind
    else if end == |text| then AtEnd
    else SliceFrom(text, if text[end] == '/' then AfterSlashes(text, end) + 1 else end + 1)
  }

  /** The loop steps over the terminator exactly when the path ends in a slash. */
  lemma {:induction false} OverrunsIff(text: string, end: nat)
    requires end < |text|
    ensures SliceFrom(text, end) == Behind <==> EndsInSlash(text)
    decreases |text| - end
  {
    if text[end] == '/' {
      var j := AfterSlashes(text, end);
      SlashesStop(text, end);
      if j + 1 < |text| { OverrunsIff(text, j + 1); }
    } else if end + 1 < |text| {
      OverrunsIff(text, end + 1);
    }
  }

  lemma {:induction false} SlashesStop(text: string, e: nat)
    requires e < |text| && text[e] == '/'
    ensures var j := AfterSlashes(text, e); e < j <= |text| && (j < |text| ==> text[j] != '/') && text[j - 1] == '/'
    decreases |text| - e
  {
    if e + 1 < |text| && text[e + 1] == '/' { SlashesStop(text, e + 1); }
  }

  /** So remove_dotdot leaves a path that it could not be given again exactly when an absolute one cancels entirely. */
  lemma CleanedOverruns(symbolic: string -> bool, path: string)
    requires !EndsInSlash(path)
    ensures SliceFrom(Cleaned(symbolic, path), 0) == Behind <==> IsAbsolute(path) && Balanced(symbolic, Pieces(path, 0), 0)
  {
    EndsWell(symbolic, path);
    if Cleaned(symbolic, path) != "" { OverrunsIff(Cleaned(symbolic, path), 0); }
  }

  /** The components from `k` on as they are still to be written. */
  function ToWrite(comps: seq<string>, k: nat): string
    requires k <= |comps|
  {
    if k == 0 then Join(comps) else Tail(comps[k..])
  }

  lemma WritesOne(comps: seq<string>, k: nat)
    requires k < |comps|
    ensures ToWrite(comps, k) == (if k == 0 then comps[k] else "/" + comps[k]) + ToWrite(comps, k + 1)
  {
    assert k > 0 ==> Tail(comps[k..]) == "/" + (comps[k] + Tail(comps[k..][1..])) && comps[k..][1..] == comps[k + 1..];
    assert k > 0 ==> "/" + (comps[k] + Tail(comps[k + 1..])) == ("/" + comps[k]) + Tail(comps[k + 1..]);
  }

  /** Puts the components together behind the leading slash, if any. */
  method Concatenate(root: string, components: array<string>, n: nat) returns (newpath: string)
    requires n <= components.Length
    ensures newpath == root + Join(components[..n])
  {
    newpath := root;
    ghost var comps := components[..n];
    ghost var goal := root + Join(comps);
    var cp, copied := 0, false;
    while cp < n
      invariant cp <= n && copied == (cp > 0)
      invariant newpath + ToWrite(comps, cp) == goal
    {
      WritesOne(comps, cp);
      var piece := if copied then "/" + components[cp] else components[cp];
      Assoc(newpath, piece, ToWrite(comps, cp + 1));
      copied := true;
      newpath := newpath + piece;
      cp := cp + 1;
    }
    assert ToWrite(comps, n) == "";
    assert newpath + "" == newpath;
  }

  /** strcpy back to where the path came from. */
  method CopyBack(path: array<char>, newpath: string)
    requires |newpath| < path.Length && NUL !in newpath
    modifies path
    ensures TextIn(path, newpath)
  {
    var i := 0;
    while i < |newpath|
      invariant i <= |newpath| && forall k :: 0 <= k < i ==> path[k] == newpath[k]
    {
      path[i] := newpath[i];
      i := i + 1;
    }
    path[i] := NUL;
  }

  method RemoveDotDot(symbolic: string -> bool, path: array<char>, ghost text: string)
    requires TextIn(path, text) && !EndsInSlash(text)
    modifies path
    ensures TextIn(path, Cleaned(symbolic, text))
  {
    var root := if path[0] == '/' then "/" else "";
    var components := new string[path.Length];
    var count := Slice(path, components, text);
    var n := RemovePairs(symbolic, components, count);
    var newpath := Concatenate(root, components, n);
    NeverLonger(symbolic, text);
    NoNul(symbolic, text);
    CopyBack(path, newpath);
  }
}
