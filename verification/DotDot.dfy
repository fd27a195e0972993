/**
 remove_dotdot: a path is cut into components, pairs "x/.." are taken out in place, and what
 is left is put together again.
 */
module DotDot {
  import opened CStrings
  import opened CText

  predicate IsDot(c: string) { c == "." }

  predicate IsDotDot(c: string) { c == ".." }

  /**
   The test for a pair to take out.  `symbolic` is issymbolic: the code calls it with a directory
   that is still empty, so what it answers depends on the component alone.
   */
  predicate Droppable(symbolic: string -> bool, x: string, y: string) {
    !IsDot(x) && !IsDotDot(x) && IsDotDot(y) && !symbolic(x)
  }

  // ---------- one pass with a stack ----------

  function Push(symbolic: string -> bool, stack: seq<string>, c: string): seq<string> {
    if stack != [] && Droppable(symbolic, stack[|stack| - 1], c) then stack[..|stack| - 1] else stack + [c]
  }

  function Reduce(symbolic: string -> bool, stack: seq<string>, comps: seq<string>): seq<string>
    decreases |comps|
  {
    if comps == [] then stack else Reduce(symbolic, Push(symbolic, stack, comps[0]), comps[1..])
  }

  /** A component that a ".." behind it takes out. */
  predicate Opens(symbolic: string -> bool, x: string) { Droppable(symbolic, x, "..") }

  /** Pairs within pairs and nothing else, behind `depth` components that are still to be taken out. */
  predicate Balanced(symbolic: string -> bool, comps: seq<string>, depth: nat)
    decreases |comps|
  {
    if comps == [] then depth == 0
    else if IsDotDot(comps[0]) then depth > 0 && Balanced(symbolic, comps[1..], depth - 1)
    else Opens(symbolic, comps[0]) && Balanced(symbolic, comps[1..], depth + 1)
  }

  lemma {:induction false} StuckStays(symbolic: string -> bool, stack: seq<string>, comps: seq<string>)
    requires exists k :: 0 <= k < |stack| && !Opens(symbolic, stack[k])
    ensures Reduce(symbolic, stack, comps) != []
    decreases |comps|
  {
    if comps != [] {
      var k :| 0 <= k < |stack| && !Opens(symbolic, stack[k]);
      assert Push(symbolic, stack, comps[0])[k] == stack[k];
      StuckStays(symbolic, Push(symbolic, stack, comps[0]), comps[1..]);
    }
  }

  /** Nothing is left exactly of nests of pairs. */
  lemma {:induction false} NothingLeftIff(symbolic: string -> bool, stack: seq<string>, comps: seq<string>)
    requires forall k :: 0 <= k < |stack| ==> Opens(symbolic, stack[k])
    ensures Reduce(symbolic, stack, comps) == [] <==> Balanced(symbolic, comps, |stack|)
    decreases |comps|
  {
    if comps != [] {
      var c := comps[0];
      var next := Push(symbolic, stack, c);
      if IsDotDot(c) && stack == [] {
        assert next[0] == c;
        StuckStays(symbolic, next, comps[1..]);
      } else if IsDotDot(c) || Opens(symbolic, c) {
        NothingLeftIff(symbolic, next, comps[1..]);
      } else {
        assert next[|stack|] == c;
        StuckStays(symbolic, next, comps[1..]);
      }
    }
  }

  /** No pair is left to take out. */
  predicate Normal(symbolic: string -> bool, comps: seq<string>) {
    forall i :: 0 <= i < |comps| - 1 ==> !Droppable(symbolic, comps[i], comps[i + 1])
  }

  lemma {:induction false} ReduceNormalizes(symbolic: string -> bool, stack: seq<string>, comps: seq<string>)
    requires Normal(symbolic, stack)
    ensures Normal(symbolic, Reduce(symbolic, stack, comps))
    decreases |comps|
  {
    if comps != [] { ReduceNormalizes(symbolic, Push(symbolic, stack, comps[0]), comps[1..]); }
  }

  /** A normal sequence passes unchanged. */
  lemma {:induction false} NormalStays(symbolic: string -> bool, stack: seq<string>, comps: seq<string>)
    requires Normal(symbolic, stack + comps)
    ensures Reduce(symbolic, stack, comps) == stack + comps
    decreases |comps|
  {
    if comps != [] {
      var t := stack + comps;
      if stack != [] {
        assert t[|stack| - 1] == stack[|stack| - 1] && t[|stack|] == comps[0];
      }
      assert Push(symbolic, stack, comps[0]) == stack + [comps[0]];
      assert (stack + [comps[0]]) + comps[1..] == t;
      NormalStays(symbolic, stack + [comps[0]], comps[1..]);
    } else {
      assert stack + comps == stack;
    }
  }

  lemma {:induction false} ReduceConcat(symbolic: string -> bool, stack: seq<string>, a: seq<string>, b: seq<string>)
    ensures Reduce(symbolic, stack, a + b) == Reduce(symbolic, Reduce(symbolic, stack, a), b)
    decreases |a|
  {
    if a == [] {
      assert a + b == b;
    } else {
      assert (a + b)[1..] == a[1..] + b;
      ReduceConcat(symbolic, Push(symbolic, stack, a[0]), a[1..], b);
    }
  }

  lemma NormalPasses(symbolic: string -> bool, comps: seq<string>)
    requires Normal(symbolic, comps)
    ensures Reduce(symbolic, [], comps) == comps
  {
    assert [] + comps == comps;
    NormalStays(symbolic, [], comps);
  }

  lemma NormalPrefix(symbolic: string -> bool, a: seq<string>, x: string)
    requires Normal(symbolic, a + [x])
    ensures Normal(symbolic, a)
  {
    forall i | 0 <= i < |a| - 1 ensures !Droppable(symbolic, a[i], a[i + 1]) {
      assert (a + [x])[i] == a[i] && (a + [x])[i + 1] == a[i + 1];
    }
  }

  lemma PushDrops(symbolic: string -> bool, a: seq<string>, x: string, y: string, b: seq<string>)
    requires Droppable(symbolic, x, y)
    ensures Reduce(symbolic, a + [x], [y] + b) == Reduce(symbolic, a, b)
  {
    assert ([y] + b)[1..] == b;
    assert (a + [x])[..|a|] == a;
  }

  /** Taking out a droppable pair behind a normal prefix does not change what the pass gives. */
  lemma DropPair(symbolic: string -> bool, a: seq<string>, x: string, y: string, b: seq<string>)
    requires Normal(symbolic, a + [x]) && Droppable(symbolic, x, y)
    ensures Reduce(symbolic, [], (a + [x]) + ([y] + b)) == Reduce(symbolic, [], a + b)
  {
    NormalPasses(symbolic, a + [x]);
    ReduceConcat(symbolic, [], a + [x], [y] + b);
    PushDrops(symbolic, a, x, y, b);
    NormalPrefix(symbolic, a, x);
    NormalPasses(symbolic, a);
    ReduceConcat(symbolic, [], a, b);
  }

  /** No pair to take out begins before `cp`. */
  predicate NormalUpTo(symbolic: string -> bool, s: seq<string>, cp: nat) {
    forall i :: 0 <= i < cp && i + 1 < |s| ==> !Droppable(symbolic, s[i], s[i + 1])
  }

  lemma DropAt(symbolic: string -> bool, s: seq<string>, cp: nat)
    requires cp + 1 < |s| && NormalUpTo(symbolic, s, cp) && Droppable(symbolic, s[cp], s[cp + 1])
    ensures var t := s[..cp] + s[cp + 2..];
            Reduce(symbolic, [], t) == Reduce(symbolic, [], s) && NormalUpTo(symbolic, t, if cp == 0 then 0 else cp - 1)
  {
    var a, x, y, b := s[..cp], s[cp], s[cp + 1], s[cp + 2..];
    forall i | 0 <= i < |a + [x]| - 1 ensures !Droppable(symbolic, (a + [x])[i], (a + [x])[i + 1]) {
      assert (a + [x])[i] == s[i] && (a + [x])[i + 1] == s[i + 1];
    }
    DropPair(symbolic, a, x, y, b);
    assert s == (a + [x]) + ([y] + b);
  }

  // ---------- the loops on the component array ----------

  /** The inner loop: moves everything from `from` on down over the pair in front of it. */
  method MoveDown(components: array<string>, to: nat, n: nat)
    requires to + 2 <= n <= components.Length
    modifies components
    ensures components[..n - 2] == old(components[..to]) + old(components[to + 2..n])
  {
    var tp := to;
    while tp < n - 2
      invariant to <= tp <= n - 2
      invariant forall k :: 0 <= k < to ==> components[k] == old(components[k])
      invariant forall k :: to <= k < tp ==> components[k] == old(components[k + 2])
      invariant forall k :: tp <= k < n ==> components[k] == old(components[k])
    {
      components[tp] := components[tp + 2];
      tp := tp + 1;
    }
  }

  lemma OnePast(symbolic: string -> bool, s: seq<string>, cp: nat)
    requires cp < |s| && NormalUpTo(symbolic, s, cp) && (cp + 1 < |s| ==> !Droppable(symbolic, s[cp], s[cp + 1]))
    ensures NormalUpTo(symbolic, s, cp + 1)
  {
  }

  lemma AllPast(symbolic: string -> bool, s: seq<string>, cp: nat)
    requires |s| <= cp && NormalUpTo(symbolic, s, cp)
    ensures Reduce(symbolic, [], s) == s
  {
    NormalPasses(symbolic, s);
  }

  /** Takes out the pair at `cp`. */
  method RemovePair(symbolic: string -> bool, components: array<string>, cp: nat, n: nat)
    requires cp + 1 < n <= components.Length
    requires NormalUpTo(symbolic, components[..n], cp) && Droppable(symbolic, components[cp], components[cp + 1])
    modifies components
    ensures Reduce(symbolic, [], components[..n - 2]) == Reduce(symbolic, [], old(components[..n]))
    ensures NormalUpTo(symbolic, components[..n - 2], if cp == 0 then 0 else cp - 1)
  {
    ghost var s := components[..n];
    DropAt(symbolic, s, cp);
    MoveDown(components, cp, n);
    assert components[..n - 2] == s[..cp] + s[cp + 2..];
  }

  /** Removes pairs in place, going back one component after each; returns how many are left. */
  method RemovePairs(symbolic: string -> bool, components: array<string>, count: nat) returns (n: nat)
    requires count <= components.Length
    modifies components
    ensures n <= count
    ensures components[..n] == Reduce(symbolic, [], old(components[..count]))
  {
    ghost var goal := Reduce(symbolic, [], components[..count]);
    n := count;
    var cp := 0;
    while cp < n
      invariant cp <= n <= count
      invariant NormalUpTo(symbolic, components[..n], cp)
      invariant Reduce(symbolic, [], components[..n]) == goal
      decreases n - cp
    {
      if cp + 1 < n && Droppable(symbolic, components[cp], components[cp + 1]) {
        RemovePair(symbolic, components, cp, n);
        n := n - 2;
        if cp != 0 {
          cp := cp - 1;
        }
      } else {
        OnePast(symbolic, components[..n], cp);
        cp := cp + 1;
      }
    }
    AllPast(symbolic, components[..n], cp);
  }

  // ---------- what a path denotes ----------

  /** Where a walk over the components ends; `step` is any file tree. */
  function Walk<D>(step: (D, string) -> D, d: D, comps: seq<string>): D
    decreases |comps|
  {
    if comps == [] then d else Walk(step, step(d, comps[0]), comps[1..])
  }

  lemma {:induction false} WalkConcat<D>(step: (D, string) -> D, d: D, a: seq<string>, b: seq<string>)
    ensures Walk(step, d, a + b) == Walk(step, Walk(step, d, a), b)
    decreases |a|
  {
    if a == [] {
      assert a + b == b;
    } else {
      assert (a + b)[1..] == a[1..] + b;
      WalkConcat(step, step(d, a[0]), a[1..], b);
    }
  }

  /** ".." leads back from every component that is taken out. */
  ghost predicate LeadsBack<D(!new)>(symbolic: string -> bool, step: (D, string) -> D) {
    forall d, x, y :: Droppable(symbolic, x, y) ==> step(step(d, x), y) == d
  }

  lemma WalkPair<D>(step: (D, string) -> D, d: D, x: string, y: string)
    ensures Walk(step, d, [x, y]) == step(step(d, x), y)
  {
    assert [x, y][1..] == [y];
    assert Walk(step, step(d, x), [y]) == Walk(step, step(step(d, x), y), []);
  }

  lemma PushWalks<D(!new)>(symbolic: string -> bool, step: (D, string) -> D, d: D, stack: seq<string>, c: string)
    requires LeadsBack(symbolic, step)
    ensures Walk(step, d, Push(symbolic, stack, c)) == Walk(step, d, stack + [c])
  {
    var next := Push(symbolic, stack, c);
    if next != stack + [c] {
      var x := stack[|stack| - 1];
      assert stack + [c] == next + [x, c];
      WalkConcat(step, d, next, [x, c]);
      WalkPair(step, Walk(step, d, next), x, c);
    }
  }

  lemma {:induction false} ReduceWalks<D(!new)>(symbolic: string -> bool, step: (D, string) -> D, d: D,
                                         stack: seq<string>, comps: seq<string>)
    requires LeadsBack(symbolic, step)
    ensures Walk(step, d, Reduce(symbolic, stack, comps)) == Walk(step, d, stack + comps)
    decreases |comps|
  {
    if comps == [] {
      assert stack + comps == stack;
    } else {
      var c, next := comps[0], Push(symbolic, stack, comps[0]);
      ReduceWalks(symbolic, step, d, next, comps[1..]);
      assert stack + comps == (stack + [c]) + comps[1..];
      WalkConcat(step, d, stack + [c], comps[1..]);
      WalkConcat(step, d, next, comps[1..]);
      PushWalks(symbolic, step, d, stack, c);
    }
  }

  lemma PairVanishes(symbolic: string -> bool, x: string, y: string)
    requires Droppable(symbolic, x, y)
    ensures Reduce(symbolic, [], [x, y]) == []
  {
    assert [x, y][1..] == [y];
    assert Reduce(symbolic, [x], [y]) == Reduce(symbolic, [], []);
  }

  /** Every path of components keeps its meaning. */
  ghost predicate AllKept<D(!new)>(symbolic: string -> bool, step: (D, string) -> D) {
    forall d, comps :: Walk(step, d, Reduce(symbolic, [], comps)) == Walk(step, d, comps)
  }

  /** In a given tree every path keeps its meaning exactly when ".." leads back from every component taken out. */
  lemma MeaningKept<D(!new)>(symbolic: string -> bool, step: (D, string) -> D)
    ensures AllKept(symbolic, step) <==> LeadsBack(symbolic, step)
  {
    if LeadsBack(symbolic, step) {
      forall d, comps: seq<string> ensures Walk(step, d, Reduce(symbolic, [], comps)) == Walk(step, d, comps) {
        ReduceWalks(symbolic, step, d, [], comps);
        assert [] + comps == comps;
      }
    }
    if AllKept(symbolic, step) {
      forall d, x, y | Droppable(symbolic, x, y) ensures step(step(d, x), y) == d {
        PairVanishes(symbolic, x, y);
        WalkPair(step, d, x, y);
        assert Walk(step, d, Reduce(symbolic, [], [x, y])) == Walk(step, d, [x, y]);
      }
    }
  }
}
