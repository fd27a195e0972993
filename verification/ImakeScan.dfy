/**
 imake's text filters as they run: pointers walk over a buffer, and lines are ended and rewritten in it.
 */
module ImakeScan {
  import opened CStrings
  import opened CText
  import opened ImakeText
  import W = Wrappers

  // ---------- CleanCppInput ----------

  method SkipBlanks(text: string, i: nat) returns (j: nat)
    requires i <= |text|
    ensures j == AfterBlanks(text, i)
  {
    j := i;
    while At(text, j) == ' ' || At(text, j) == '\t'
      invariant j <= |text| && AfterBlanks(text, j) == AfterBlanks(text, i)
      decreases |text| - j
    {
      j := j + 1;
    }
  }

  method SkipToken(text: string, i: nat) returns (j: nat)
    requires i <= |text|
    ensures j == AfterToken(text, i)
  {
    j := i;
    while At(text, j) != NUL && At(text, j) != ' ' && At(text, j) != '\t' && At(text, j) != '\n'
      invariant j <= |text| && AfterToken(text, j) == AfterToken(text, i)
      decreases |text| - j
    {
      j := j + 1;
    }
  }

  lemma Written(out: string, text: string, from: nat, i: nat)
    requires from <= i < |text|
    ensures (out + text[from..i]) + ([text[i]] + CleanInput(text, i + 1)) == (out + text[from..i + 1]) + CleanInput(text, i + 1)
  {
    assert text[from..i + 1] == text[from..i] + [text[i]];
  }

  lemma Replaced(out: string, text: string, from: nat, i: nat, marker: string)
    requires from <= i < |text|
    ensures (out + text[from..i]) + (marker + CleanInput(text, i + 1))
            == ((out + text[from..i] + marker) + text[i + 1..i + 1]) + CleanInput(text, i + 1)
  {
    assert text[i + 1..i + 1] == "";
    assert (out + text[from..i] + marker) + "" == out + text[from..i] + marker;
  }

  /** Writes the text with the make comments hidden; if there are none, nothing is written at all. */
  method CleanCppInput(text: string) returns (written: bool, out: string)
    requires NUL !in text
    ensures CleanInput(text, 0) == if written then out else text
  {
    written, out := false, "";
    var buf := "\n\n" + text;
    var unwritten, i := 0, 0;
    assert "" + text[0..0] == "" && "" + CleanInput(text, 0) == CleanInput(text, 0);
    while At(text, i) != NUL
      invariant unwritten <= i <= |text|
      invariant !written ==> out == "" && unwritten == 0
      invariant (out + text[unwritten..i]) + CleanInput(text, i) == CleanInput(text, 0)
      decreases |text| - i
    {
      assert buf[i + 1] == Before(text, i, 1) && buf[i] == Before(text, i, 2);
      var comment := false;
      var token := i + 1;
      if text[i] == '#' && buf[i + 1] == '\n' && buf[i] != '\\' {
        token := SkipBlanks(text, i + 1);
        var end := SkipToken(text, token);
        comment := text[token..end] !in DIRECTIVES;
      }
      assert comment == IsMakeComment(text, i);
      if comment {
        var marker := if token > i + 1 then "XCOMM" else "XCOMM ";
        assert marker == Marker(At(text, i + 1));
        Replaced(out, text, unwritten, i, marker);
        written, out := true, out + text[unwritten..i] + marker;
        unwritten := i + 1;
      } else {
        Written(out, text, unwritten, i);
      }
      i := i + 1;
    }
    assert (out + text[unwritten..i]) + "" == out + text[unwritten..i];
    if written {
      out := out + text[unwritten..i];
    } else {
      assert "" + text[0..|text|] == text;
    }
  }

  // ---------- the buffer with cpp's output ----------

  lemma WordByCharacters(s: string, i: nat, word: string)
    requires i <= |s| && |word| == 5 && NUL !in word
    ensures WordAt(s, i, word) <==> At(s, i) == word[0] && At(s, i + 1) == word[1] && At(s, i + 2) == word[2]
                                    && At(s, i + 3) == word[3] && At(s, i + 4) == word[4]
  {
    forall k {:trigger word[k]} | 0 <= k < 5 && WordAt(s, i, word) ensures At(s, i + k) == word[k] {
      assert s[i..i + 5][k] == s[i + k];
    }
    assert At(s, i) == word[0] && At(s, i + 1) == word[1] && At(s, i + 2) == word[2] && At(s, i + 3) == word[3] && At(s, i + 4) == word[4]
           ==> i + 5 <= |s| && s[i..i + 5] == word;
    assert forall k :: 0 <= k < 5 ==> word[k] != NUL;
  }

  lemma SameWord(t: string, i: nat, s: string, j: nat)
    requires i <= |t| && j <= |s| && t[i..] == s[j..]
    ensures WordAt(t, i, "XCOMM") <==> WordAt(s, j, "XCOMM")
    ensures At(t, i + 5) == At(s, j + 5)
  {
    var u := t[i..];
    assert |u| >= 5 ==> t[i..i + 5] == u[..5] && s[j..j + 5] == u[..5];
    assert |u| > 5 ==> t[i + 5] == u[5] && s[j + 5] == u[5];
  }

  /** Of the line `s` the part before `j` has become `done`. */
  predicate Restored(s: string, done: string, j: nat) {
    && |done| <= j <= |s| && done + Uncomment(s, j) == Uncomment(s, 0) && (j == 0 <==> done == "")
    && (j > 0 ==> (IsBlank(done[|done| - 1]) <==> IsBlank(s[j - 1])))
  }

  lemma TokenOut(s: string, done: string, j: nat)
    requires Restored(s, done, j) && IsToken(s, j)
    ensures Restored(s, done + "#", j + 5)
    ensures var t := done + s[j..]; |done| + 5 <= |t| && t[..|done|] + ("#" + t[|done| + 5..]) == (done + "#") + s[j + 5..]
  {
    var t := done + s[j..];
    assert s[j..j + 5][4] == s[j + 4];
    assert (done + "#") + Uncomment(s, j + 5) == done + ("#" + Uncomment(s, j + 5));
    assert t[|done| + 5..] == s[j + 5..] && t[..|done|] == done;
  }

  lemma TokenStays(s: string, done: string, j: nat)
    requires Restored(s, done, j) && j < |s| && !IsToken(s, j)
    ensures Restored(s, done + [s[j]], j + 1) && (done + [s[j]]) + s[j + 1..] == done + s[j..]
  {
    assert s[j..] == [s[j]] + s[j + 1..];
    assert (done + [s[j]]) + Uncomment(s, j + 1) == done + ([s[j]] + Uncomment(s, j + 1));
  }

  lemma {:induction false} TrimOnce(s: string, n: nat)
    requires n <= |s| && forall k :: n <= k < |s| ==> IsBlank(s[k])
    ensures Trim(s) == Trim(s[..n])
    decreases |s|
  {
    if n < |s| {
      TrimOnce(s[..|s| - 1], n);
      assert s[..|s| - 1][..n] == s[..n];
    } else {
      assert s[..n] == s;
    }
  }

  lemma TrimTo(s: string, n: nat)
    requires n <= |s| && (forall k :: n <= k < |s| ==> IsBlank(s[k])) && (n > 0 ==> !IsBlank(s[n - 1]))
    ensures Trim(s) == s[..n]
  {
    TrimOnce(s, n);
    var t := s[..n];
    assert n > 0 ==> t[|t| - 1] == s[n - 1];
  }

  class CppOutput {
    /** The text, with a NUL at `end`. */
    const buf: array<char>
    /** The cursor that ReadLine keeps between calls. */
    var pline: nat

    constructor (text: string)
      requires NUL !in text
      ensures pline == 0 && Holds(text, 0) && fresh(buf)
    {
      buf := new char[|text| + 1](i requires 0 <= i => if i < |text| then text[i] else NUL);
      pline := 0;
    }

    /** From `from` on the buffer is as it was read. */
    predicate Holds(text: string, from: nat)
      reads buf
    {
      buf.Length == |text| + 1 && NUL !in text && forall k :: from <= k <= |text| ==> buf[k] == At(text, k)
    }

    /** p[k] */
    function Char(p: nat, k: nat): char
      requires p + k < buf.Length
      reads buf
    {
      buf[p + k]
    }

    /** The string that a pointer to `p` is. */
    predicate StringAt(p: nat, s: string)
      reads buf
    {
      p + |s| < buf.Length && NUL !in s && forall k :: 0 <= k <= |s| ==> Char(p, k) == At(s, k)
    }

    /** Looks for the end of the line. */
    method FindEol(ghost text: string) returns (p1: nat)
      requires pline <= |text| && Holds(text, pline)
      ensures p1 == Eol(text, pline, pline)
    {
      p1 := pline;
      var end := buf.Length - 1;
      while p1 < end
        invariant pline <= p1 <= end && Eol(text, pline, p1) == Eol(text, pline, pline)
      {
        if buf[p1] == '@' && buf[p1 + 1] == '@' && !(p1 != pline && !IsSpace(buf[p1 - 1]) && buf[p1 + 2] == '/') {
          break;
        } else if buf[p1] == '\n' {
          break;
        }
        p1 := p1 + 1;
      }
    }

    /** ReadLine: a NUL takes the place of the newline, or of the first '@'. */
    method ReadLine(ghost text: string) returns (line: W.Option<nat>)
      requires pline <= |text| && Holds(text, pline)
      modifies this, buf
      ensures match ReadLines(text, old(pline))
              case None => line == W.None && pline == |text| && Holds(text, pline)
              case Row(s, sep, more) =>
                && line == W.Some(old(pline)) && StringAt(old(pline), s) && pline == old(pline) + |s| + |sep| <= |text|
                && Holds(text, pline) && ReadLines(text, pline) == more
    {
      var start, end := pline, buf.Length - 1;
      var p1 := FindEol(text);
      ghost var s := text[start..p1];
      assert forall k :: 0 <= k < |s| ==> Char(start, k) == s[k];
      if p1 < end {
        var c := buf[p1];
        buf[p1] := NUL;
        p1 := if c == '\n' then p1 + 1 else p1 + 2;
      }
      line := if start == p1 then W.None else W.Some(start);
      pline := p1;
    }

    // ---------- isempty ----------

    /** Five characters compared one after the other, which does not look behind the end. */
    method Matches(line: nat, i: nat, word: string, ghost s: string) returns (same: bool)
      requires StringAt(line, s) && i <= |s| && |word| == 5 && NUL !in word
      ensures same == WordAt(s, i, word)
    {
      same := Char(line, i) == word[0] && Char(line, i + 1) == word[1] && Char(line, i + 2) == word[2]
              && Char(line, i + 3) == word[3] && Char(line, i + 4) == word[4];
      WordByCharacters(s, i, word);
    }

    /** Whether the line is one of cpp's line markers; it is known to begin with '#'. */
    method HasMarker(line: nat, ghost s: string) returns (marker: bool)
      requires StringAt(line, s) && First(s) == '#'
      ensures marker == IsLineMarker(s)
    {
      var i: nat := 1;
      if Char(line, i) == ' ' {
        i := i + 1;
      }
      var isLine := Matches(line, i, "line ", s);
      if isLine {
        i := i + 5;
      }
      if !IsDigit(Char(line, i)) {
        return false;
      }
      ghost var j := i;
      while IsDigit(Char(line, i))
        invariant j <= i <= |s| && AfterDigits(s, i) == AfterDigits(s, j)
        decreases |s| - i
      {
        i := i + 1;
      }
      marker := Char(line, i) == '\n' || Char(line, i) == NUL || (Char(line, i) == ' ' && Char(line, i + 1) == '"');
    }

    /** Whether XCOMM stands alone at `pend`, where the line is at `j` of what it was. */
    method IsTokenAt(line: nat, pend: nat, ghost t: string, ghost s: string, ghost j: nat) returns (token: bool)
      requires StringAt(line, t) && pend < |t| && j < |s| && t[pend..] == s[j..]
      requires (j == 0 <==> pend == 0) && (j > 0 ==> (IsBlank(t[pend - 1]) <==> IsBlank(s[j - 1])))
      ensures token == IsToken(s, j)
    {
      SameWord(t, pend, s, j);
      var same := Matches(line, pend, "XCOMM", t);
      token := same && (pend == 0 || Char(line, pend - 1) == ' ' || Char(line, pend - 1) == '\t')
               && (Char(line, pend + 5) == ' ' || Char(line, pend + 5) == '\t' || Char(line, pend + 5) == NUL);
    }

    /** strcpy(pend + 1, pend + 5): the rest of the line moves up over the token. */
    method CloseUp(line: nat, pend: nat, ghost t: string)
      requires StringAt(line, t) && pend + 5 <= |t|
      modifies buf
      ensures StringAt(line, t[..pend] + ("#" + t[pend + 5..]))
      ensures forall k :: 0 <= k < line || line + |t| <= k < buf.Length ==> buf[k] == old(buf[k])
    {
      ghost var u := t[..pend] + ("#" + t[pend + 5..]);
      assert forall k :: 0 <= k < pend ==> u[k] == Char(line, k);
      buf[line + pend] := '#';
      var to, from := pend + 1, pend + 5;
      assert forall k :: 0 <= k < pend ==> Char(line, k) == old(Char(line, k));
      assert u[pend] == '#';
      while Char(line, from) != NUL
        invariant from == to + 4 && pend < to && from <= |t|
        invariant forall k :: 0 <= k < to ==> Char(line, k) == u[k]
        invariant forall k :: from <= k <= |t| ==> Char(line, k) == At(t, k)
        invariant forall k :: 0 <= k < line || line + |t| <= k < buf.Length ==> buf[k] == old(buf[k])
        decreases |t| - from
      {
        buf[line + to] := buf[line + from];
        to, from := to + 1, from + 1;
      }
      buf[line + to] := NUL;
    }

    /** One turn of the loop that turns XCOMM back into '#'. */
    method RestoreOne(line: nat, pend: nat, ghost s: string, ghost done: string, ghost j: nat) returns (ghost done': string, ghost j': nat)
      requires Restored(s, done, j) && pend == |done| && j < |s| && StringAt(line, done + s[j..])
      modifies buf
      ensures Restored(s, done', j') && pend + 1 == |done'| && j < j' && StringAt(line, done' + s[j'..])
      ensures forall k :: 0 <= k < line || line + |s| <= k < buf.Length ==> buf[k] == old(buf[k])
    {
      ghost var t := done + s[j..];
      assert t[pend..] == s[j..];
      var token := IsTokenAt(line, pend, t, s, j);
      if token {
        TokenOut(s, done, j);
        CloseUp(line, pend, t);
        done', j' := done + "#", j + 5;
      } else {
        TokenStays(s, done, j);
        done', j' := done + [s[j]], j + 1;
      }
    }

    /** The loop; returns the length of the line. */
    method Restore(line: nat, ghost s: string) returns (pend: nat)
      requires StringAt(line, s)
      modifies buf
      ensures StringAt(line, Uncomment(s, 0)) && pend == |Uncomment(s, 0)| <= |s|
      ensures forall k :: 0 <= k < line || line + |s| <= k < buf.Length ==> buf[k] == old(buf[k])
    {
      ghost var done, j: nat := "", 0;
      pend := 0;
      assert "" + s[0..] == s && Restored(s, "", 0);
      while Char(line, pend) != NUL
        invariant Restored(s, done, j) && pend == |done| && StringAt(line, done + s[j..])
        invariant forall k :: 0 <= k < line || line + |s| <= k < buf.Length ==> buf[k] == old(buf[k])
        decreases |s| - j
      {
        done, j := RestoreOne(line, pend, s, done, j);
        pend := pend + 1;
      }
      assert done + "" == done;
    }

    /** Cuts off the blanks at the end of a line that is `pend` long. */
    method TrimEnd(line: nat, pend: nat, ghost t: string)
      requires StringAt(line, t) && pend == |t|
      modifies buf
      ensures StringAt(line, Trim(t))
      ensures forall k :: 0 <= k < line || line + |t| <= k < buf.Length ==> buf[k] == old(buf[k])
    {
      var n := pend;
      while n > 0 && (Char(line, n - 1) == ' ' || Char(line, n - 1) == '\t')
        invariant 0 <= n <= |t| && forall k :: n <= k < |t| ==> IsBlank(t[k])
      {
        assert Char(line, n - 1) == At(t, n - 1);
        n := n - 1;
      }
      assert n > 0 ==> Char(line, n - 1) == At(t, n - 1);
      TrimTo(t, n);
      assert Char(line, |t|) == NUL;
      buf[line + n] := NUL;
      assert forall k :: 0 <= k < n ==> Char(line, k) == At(t, k);
    }

    /** isempty: the line is trimmed and its tokens are restored, unless it is a line marker. */
    method IsEmpty(line: nat, ghost s: string) returns (empty: bool)
      requires StringAt(line, s)
      modifies buf
      ensures empty <==> Cleaned(s) == ""
      ensures !empty ==> StringAt(line, Cleaned(s))
      ensures forall k :: 0 <= k < line || line + |s| <= k < buf.Length ==> buf[k] == old(buf[k])
    {
      var pend: nat := 0;
      if Char(line, 0) == '#' {
        var marker := HasMarker(line, s);
        if marker {
          return true;
        }
        while Char(line, pend) != NUL
          invariant pend <= |s|
          decreases |s| - pend
        {
          pend := pend + 1;
        }
        TrimEnd(line, pend, s);
      } else {
        pend := Restore(line, s);
        TrimEnd(line, pend, Uncomment(s, 0));
      }
      empty := Char(line, 0) == NUL;
    }

    /** What strlen and fwrite make of a pointer into the buffer. */
    method Take(p: nat, ghost s: string) returns (r: string)
      requires StringAt(p, s)
      ensures r == s
    {
      r := "";
      var k := 0;
      while Char(p, k) != NUL
        invariant k <= |s| && r == s[..k]
        decreases |s| - k
      {
        r := r + [Char(p, k)];
        k := k + 1;
      }
    }
  }

  /** What ReadLine writes to the emptied file when it is first called. */
  const HEADER: string := "# Makefile generated by imake - do not edit!\n# $TOG: imake.c /main/97 1997/06/20 20:23:51 kaleb $\n"

  lemma NextLine(out: string, text: string, more: Lines)
    ensures ((out + text) + "\n") + Text(more) == out + Text(Line(text, more))
  {
    assert ((out + text) + "\n") + Text(more) == out + (text + ("\n" + Text(more)));
  }

  /** One line read at `p` goes out, unless it is empty like the last one. */
  method WriteLine(cpp: CppOutput, p: nat, ghost s: string, was: string, blankline: nat) returns (out: string, blank: nat)
    requires cpp.StringAt(p, s)
    modifies cpp.buf
    ensures var text := Cleaned(s);
            && (blank > 0 <==> text == "")
            && out == if text == "" && blankline > 0 then was else was + text + "\n"
    ensures forall k :: 0 <= k < p || p + |s| <= k < cpp.buf.Length ==> cpp.buf[k] == old(cpp.buf[k])
  {
    out, blank := was, 0;
    var empty := cpp.IsEmpty(p, s);
    if empty {
      blank := blankline + 1;
      if blankline > 0 {
        return;
      }
      assert was + "" == was;
    } else {
      var input := cpp.Take(p, Cleaned(s));
      out := out + input;
    }
    out := out + "\n";
  }

  lemma OutputStep(was: string, line: string, sep: string, more: Rows, blank: bool)
    ensures var text := Cleaned(line);
            was + Text(Output(Row(line, sep, more), blank))
            == (if text == "" && blank then was else was + text + "\n") + Text(Output(more, text == ""))
  {
    NextLine(was, Cleaned(line), Output(more, Cleaned(line) == ""));
  }

  /** Reads the whole buffer and writes the file anew. */
  method CleanCppOutput(text: string) returns (out: string)
    requires NUL !in text
    ensures out == HEADER + Text(Output(ReadLines(text, 0), false))
  {
    var cpp := new CppOutput(text);
    out := HEADER;
    var blankline: nat := 0;
    ghost var goal := out + Text(Output(ReadLines(text, 0), false));
    ghost var rows := ReadLines(text, 0);
    while true
      invariant cpp.pline <= |text| && cpp.Holds(text, cpp.pline) && fresh(cpp) && fresh(cpp.buf)
      invariant rows == ReadLines(text, cpp.pline) && out + Text(Output(rows, blankline > 0)) == goal
      decreases rows
    {
      var input := cpp.ReadLine(text);
      if input == W.None {
        break;
      }
      OutputStep(out, rows.line, rows.sep, rows.more, blankline > 0);
      out, blankline := WriteLine(cpp, input.value, rows.line, out, blankline);
      rows := rows.more;
    }
    assert rows == None;
    assert out + "" == out;
  }
}
