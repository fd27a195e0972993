/**
 Chains of macro names: a name stands for a value that may itself be a name, and so on.  Two loops of
 the source follow such chains; nothing in them notices a cycle.
 */
module AliasChain {
  /** What each name leads to. */
  type Links = map<string, string>

  /** Where a chain is after `n` links, or where it ended before. */
  function After(next: Links, name: string, n: nat): string
    decreases n
  {
    if n == 0 || name !in next then name else After(next, next[name], n - 1)
  }

  /** The loop is left after `n` rounds. */
  predicate EndsAt(next: Links, name: string, n: nat) { After(next, name, n) !in next }

  ghost predicate Ends(next: Links, name: string) { exists n: nat :: EndsAt(next, name, n) }

  /** The same name comes up twice. */
  ghost predicate Cyclic(next: Links, name: string) {
    exists i: nat, j: nat :: i < j && After(next, name, i) in next && After(next, name, i) == After(next, name, j)
  }

  lemma {:induction false} AfterAfter(next: Links, name: string, m: nat, n: nat)
    ensures After(next, name, m + n) == After(next, After(next, name, m), n)
    decreases m
  {
    if m > 0 && name in next { AfterAfter(next, next[name], m - 1, n); }
  }

  /** More names than there are must repeat. */
  lemma {:induction false} Repeats(names: seq<string>, s: set<string>) returns (i: nat, j: nat)
    requires |names| > |s| && forall k :: 0 <= k < |names| ==> names[k] in s
    ensures i < j < |names| && names[i] == names[j]
    decreases |names|
  {
    var last := |names| - 1;
    if k :| 0 <= k < last && names[k] == names[last] {
      i, j := k, last;
    } else {
      i, j := Repeats(names[..last], s - {names[last]});
    }
  }

  /** On a cycle the chain goes on for ever. */
  lemma {:induction false} CycleGoesOn(next: Links, name: string, i: nat, j: nat, n: nat)
    requires i < j && After(next, name, i) in next && After(next, name, i) == After(next, name, j)
    ensures !EndsAt(next, name, n)
    decreases n
  {
    if n <= i {
      AfterAfter(next, name, n, i - n);
    } else if n < j {
      AfterAfter(next, name, n, j - n);
    } else {
      CycleGoesOn(next, name, i, j, n - (j - i));
      AfterAfter(next, name, j, n - j);
      AfterAfter(next, name, i, n - j);
    }
  }

  /** A chain that has not ended after as many links as there are names is on a cycle. */
  lemma LongMeansCyclic(next: Links, name: string)
    requires !EndsAt(next, name, |next|)
    ensures Cyclic(next, name)
  {
    var names := seq(|next| + 1, i requires 0 <= i => After(next, name, i));
    forall k | 0 <= k < |names| ensures names[k] in next.Keys {
      AfterAfter(next, name, k, |next| - k);
    }
    var i, j := Repeats(names, next.Keys);
    assert After(next, name, i) == names[i] && After(next, name, j) == names[j];
  }

  /** A chain ends exactly when it has no cycle, and then within as many links as there are names. */
  lemma EndsIffAcyclic(next: Links, name: string)
    ensures Ends(next, name) <==> !Cyclic(next, name)
    ensures Ends(next, name) <==> EndsAt(next, name, |next|)
  {
    if !EndsAt(next, name, |next|) { LongMeansCyclic(next, name); }
    if Cyclic(next, name) {
      var i: nat, j: nat :| i < j && After(next, name, i) in next && After(next, name, i) == After(next, name, j);
      forall n: nat ensures !EndsAt(next, name, n) {
        CycleGoesOn(next, name, i, j, n);
      }
    }
  }

  /** Where it ends does not depend on when one looks. */
  lemma OneEnd(next: Links, name: string, m: nat, n: nat)
    requires EndsAt(next, name, m) && EndsAt(next, name, n)
    ensures After(next, name, m) == After(next, name, n)
  {
    if m <= n { AfterAfter(next, name, m, n - m); } else { AfterAfter(next, name, n, m - n); }
  }

  /** The end of a chain; one on a cycle has none. */
  function End(next: Links, name: string): string { After(next, name, |next|) }

  /** Following one link leaves one link less to follow and the same end. */
  lemma EndOfLink(next: Links, name: string, bound: nat)
    requires EndsAt(next, name, bound) && name in next
    ensures bound > 0 && EndsAt(next, next[name], bound - 1) && End(next, next[name]) == End(next, name)
  {
    EndsIffAcyclic(next, name);
    assert EndsAt(next, next[name], bound - 1);
    EndsIffAcyclic(next, next[name]);
    OneEnd(next, next[name], bound - 1, |next|);
    OneEnd(next, name, bound, |next|);
  }

  /** Each text leads to the one behind it. */
  predicate IsChain(next: Links, chain: seq<string>) {
    chain != [] && forall k :: 0 <= k < |chain| - 1 ==> chain[k] in next && next[chain[k]] == chain[k + 1]
  }

  lemma {:induction false} ChainGoes(next: Links, chain: seq<string>)
    requires IsChain(next, chain)
    ensures After(next, chain[0], |chain| - 1) == chain[|chain| - 1]
    decreases |chain|
  {
    if |chain| > 1 {
      assert chain[0] in next && next[chain[0]] == chain[1];
      forall k | 0 <= k < |chain[1..]| - 1 ensures chain[1..][k] in next && next[chain[1..][k]] == chain[1..][k + 1] {
        assert chain[k + 1] in next && next[chain[k + 1]] == chain[k + 2];
      }
      ChainGoes(next, chain[1..]);
    }
  }

  /** A chain ends with the text that leads nowhere. */
  lemma ChainEnds(next: Links, chain: seq<string>)
    requires IsChain(next, chain) && chain[|chain| - 1] !in next
    ensures Ends(next, chain[0]) && End(next, chain[0]) == chain[|chain| - 1]
  {
    ChainGoes(next, chain);
    EndsIffAcyclic(next, chain[0]);
    assert EndsAt(next, chain[0], |chain| - 1);
    OneEnd(next, chain[0], |chain| - 1, |next|);
  }
}
