/**
 Scanning of C text.  A cursor into NUL-terminated text is the suffix that starts there;
 the empty suffix is a cursor at the terminator.
 */
module CText {
  import opened CStrings

  predicate IsSpace(c: char) { c == ' ' || '\t' <= c <= '\r' }

  predicate IsBlank(c: char) { c == ' ' || c == '\t' }

  predicate IsDigit(c: char) { '0' <= c <= '9' }

  predicate IsAlpha(c: char) { 'a' <= c <= 'z' || 'A' <= c <= 'Z' }

  predicate IsAlnum(c: char) { IsAlpha(c) || IsDigit(c) }

  /** What may start a variable name, and what may follow in one. */
  predicate IsVarFirst(c: char) { IsAlpha(c) || c == '_' }

  predicate IsIdent(c: char) { IsAlnum(c) || c == '_' }

  predicate AllSpace(s: string) { forall i :: 0 <= i < |s| ==> IsSpace(s[i]) }

  /** The classes of ASCII that isspace, isdigit, isalpha and isalnum know in the C locale. */
  lemma ClassesAre(c: char)
    ensures IsSpace(c) <==> c as int in {9, 10, 11, 12, 13, 32}
    ensures IsBlank(c) <==> c as int in {9, 32}
    ensures IsDigit(c) <==> 48 <= c as int <= 57
    ensures IsAlpha(c) <==> 65 <= c as int <= 90 || 97 <= c as int <= 122
    ensures IsAlnum(c) <==> 48 <= c as int <= 57 || 65 <= c as int <= 90 || 97 <= c as int <= 122
    ensures IsVarFirst(c) <==> 65 <= c as int <= 90 || 97 <= c as int <= 122 || c as int == 95
    ensures IsIdent(c) <==> 48 <= c as int <= 57 || 65 <= c as int <= 90 || 97 <= c as int <= 122 || c as int == 95
  {
  }

  function First(s: string): char { At(s, 0) }

  /** SKIPSPACE. */
  function SkipSpace(s: string): (r: string)
    ensures |r| <= |s| && !IsSpace(First(r))
  {
    if s != "" && IsSpace(s[0]) then SkipSpace(s[1..]) else s
  }

  lemma {:induction false} SkipSpaceOver(ws: string, s: string)
    requires AllSpace(ws)
    ensures SkipSpace(ws + s) == SkipSpace(s)
  {
    if ws != "" {
      assert (ws + s)[1..] == ws[1..] + s;
      SkipSpaceOver(ws[1..], s);
    } else {
      assert ws + s == s;
    }
  }

  lemma {:induction false} SkipSpaceSplits(s: string) returns (ws: string)
    ensures AllSpace(ws) && s == ws + SkipSpace(s)
  {
    if s != "" && IsSpace(s[0]) {
      var rest := SkipSpaceSplits(s[1..]);
      ws := [s[0]] + rest;
      assert s == [s[0]] + s[1..];
    } else {
      ws := "";
    }
  }

  method SkipSpaceScan(s: string, start: nat) returns (cp: nat)
    requires start <= |s|
    ensures cp <= |s| && s[cp..] == SkipSpace(s[start..])
  {
    cp := start;
    while IsSpace(At(s, cp))
      invariant start <= cp <= |s|
      invariant SkipSpace(s[cp..]) == SkipSpace(s[start..])
      decreases |s| - cp
    {
      assert s[cp..][1..] == s[cp + 1..];
      cp := cp + 1;
    }
  }

  /** The number of characters at the front that satisfy a test. */
  function Run(s: string, test: char -> bool): (n: nat)
    ensures n <= |s| && (n < |s| ==> !test(s[n]))
    ensures forall i :: 0 <= i < n ==> test(s[i])
  {
    if s != "" && test(s[0]) then 1 + Run(s[1..], test) else 0
  }

  /** A run is over when something else follows. */
  lemma {:induction false} RunExact(a: string, s: string, test: char -> bool)
    requires forall i :: 0 <= i < |a| ==> test(a[i])
    requires s == "" || !test(s[0])
    ensures Run(a + s, test) == |a|
  {
    if a != "" {
      assert (a + s)[1..] == a[1..] + s;
      RunExact(a[1..], s, test);
    } else {
      assert a + s == s;
    }
  }

  /** The run that begins at `i` and ends before `j`. */
  lemma RunBetween(s: string, i: nat, j: nat, test: char -> bool)
    requires i <= j <= |s| && (forall k :: i <= k < j ==> test(s[k])) && (j < |s| ==> !test(s[j]))
    ensures Run(s[i..], test) == j - i && s[i..][j - i..] == s[j..] && s[i..][..j - i] == s[i..j]
  {
    var a, b := s[i..j], s[j..];
    RunExact(a, b, test);
    assert a + b == s[i..];
    assert s[i..][j - i..] == s[j..];
    assert s[i..][..j - i] == s[i..j];
  }
}
