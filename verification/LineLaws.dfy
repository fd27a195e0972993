/**
 What blanking does to a text, as laws of concatenated texts.
 */
module LineLaws {
  import opened CStrings
  import opened CText
  import opened Sequences
  import opened LineSpec
  import opened LineResults

  /** What stands in front of a place makes no difference. */
  lemma {:induction false} BlankBehind(front: string, rest: string, i: nat, inComment: bool)
    requires i <= |rest|
    ensures Blank(front + rest, |front| + i, inComment) == Blank(rest, i, inComment)
    decreases |rest| - i
  {
    var t, k := front + rest, |front| + i;
    if i < |rest| {
      assert At(t, k) == At(rest, i) && At(t, k + 1) == At(rest, i + 1);
      BlankBehind(front, rest, i + 1, inComment);
      if inComment && ClosesComment(rest, i) {
        BlankBehind(front, rest, i + 2, false);
      } else if !inComment && OpensComment(rest, i) {
        BlankBehind(front, rest, i + 2, true);
      } else if !inComment && Splices(rest, i) {
        BlankBehind(front, rest, i + 2, false);
      }
    }
  }

  /** Neither a slash nor a backslash. */
  predicate IsPlain(s: string) { forall i :: 0 <= i < |s| ==> s[i] != '/' && s[i] != '\\' }

  /** Other text stays as it is. */
  lemma {:induction false} PlainStays(front: string, rest: string)
    requires IsPlain(front)
    ensures Blank(front + rest, 0, false) == front + Blank(rest, 0, false)
  {
    if front == "" {
      assert front + rest == rest;
    } else {
      var t := front + rest;
      assert t == [front[0]] + (front[1..] + rest);
      PlainStays(front[1..], rest);
      BlankBehind([front[0]], front[1..] + rest, 0, false);
      assert t[0] == front[0];
      Assoc([front[0]], front[1..], Blank(rest, 0, false));
      assert front == [front[0]] + front[1..];
    }
  }

  /** No end of a comment, not even together with the one behind it. */
  predicate HasNoEnd(body: string) { forall i :: 0 <= i < |body| - 1 ==> !(body[i] == '*' && body[i + 1] == '/') }

  lemma {:induction false} BodyIsBlanked(body: string, rest: string)
    requires HasNoEnd(body)
    ensures Blank(body + ("*/" + rest), 0, true) == Spaces(|body|) + ("  " + Blank(rest, 0, false))
  {
    var t := body + ("*/" + rest);
    if body == "" {
      assert t == "*/" + rest && At(t, 0) == '*' && At(t, 1) == '/';
      BlankBehind("*/", rest, 0, false);
      assert Spaces(0) + ("  " + Blank(rest, 0, false)) == "  " + Blank(rest, 0, false);
    } else {
      assert t == [body[0]] + (body[1..] + ("*/" + rest));
      assert At(t, 0) == body[0] && At(t, 1) == if |body| > 1 then body[1] else '*';
      BodyIsBlanked(body[1..], rest);
      BlankBehind([body[0]], body[1..] + ("*/" + rest), 0, true);
      assert Spaces(|body|) == " " + Spaces(|body| - 1);
      Assoc(" ", Spaces(|body| - 1), "  " + Blank(rest, 0, false));
    }
  }

  /** A comment becomes as many blanks. */
  lemma CommentIsBlanked(body: string, rest: string)
    requires HasNoEnd(body)
    ensures Blank("/*" + (body + ("*/" + rest)), 0, false) == "  " + (Spaces(|body|) + ("  " + Blank(rest, 0, false)))
  {
    BodyIsBlanked(body, rest);
    OpensBlank(body + ("*/" + rest));
  }

  lemma OpensBlank(u: string)
    ensures Blank("/*" + u, 0, false) == "  " + Blank(u, 0, true)
  {
    assert At("/*" + u, 0) == '/' && At("/*" + u, 1) == '*';
    BlankBehind("/*", u, 0, true);
  }

  /** A backslash in front of a newline, and the newline, become blanks. */
  lemma SpliceIsBlanked(rest: string)
    ensures Blank("\\\n" + rest, 0, false) == "  " + Blank(rest, 0, false)
  {
    BlankBehind("\\\n", rest, 0, false);
  }

  /** A slash or a backslash alone stays as it is. */
  lemma LoneStays(c: char, d: char, rest: string)
    requires (c == '/' && d != '*') || (c == '\\' && d != '\n')
    ensures Blank([c, d] + rest, 0, false) == [c] + Blank([d] + rest, 0, false)
  {
    assert [c, d] + rest == [c] + ([d] + rest);
    BlankBehind([c], [d] + rest, 0, false);
  }

  // ---------- lines that begin with '#' ----------

  /** A '#' with only blanks behind it is bare, one with anything else is not. */
  lemma BareLines(ws: string, c: char, rest: string)
    requires (forall i :: 0 <= i < |ws| ==> ws[i] == ' ' || ws[i] == '\t') && c != ' ' && c != '\t'
    ensures IsHash("#" + ws) && IsBare("#" + ws)
    ensures IsHash("#" + (ws + ([c] + rest))) && !IsBare("#" + (ws + ([c] + rest)))
    ensures c != '#' ==> !IsHash([c] + rest) && !IsBare([c] + rest)
  {
    assert ("#" + (ws + ([c] + rest)))[1 + |ws|] == c;
  }

  // ---------- counting ----------

  function Places(text: string, i: nat, j: nat): set<nat>
    requires i <= j <= |text|
  {
    set k: nat | i <= k < j && text[k] == '\n'
  }

  /** The newlines counted are the places where one stands. */
  lemma {:induction false} NewlinesAreCounted(text: string, i: nat, j: nat)
    requires i <= j <= |text|
    ensures Newlines(text, i, j) == |Places(text, i, j)|
    decreases j - i
  {
    if i < j {
      NewlinesAreCounted(text, i, j - 1);
      var before := Places(text, i, j - 1);
      assert Places(text, i, j) == if text[j - 1] == '\n' then before + {j - 1} else before;
    } else {
      assert Places(text, i, j) == {};
    }
  }
}
