/**
 What getline makes of a text: comments and spliced newlines become blanks, and newlines that are
 left separate lines.  A cursor is a place in the text.
 */
module LineSpec {
  import opened CStrings
  import opened Sequences
  import opened CText

  /** The newlines between two places. */
  function Newlines(text: string, i: nat, j: nat): nat
    requires i <= j <= |text|
  {
    if i == j then 0 else Newlines(text, i, j - 1) + if text[j - 1] == '\n' then 1 else 0
  }

  lemma {:induction false} NewlinesOn(text: string, i: nat, j: nat, k: nat)
    requires i <= j <= k <= |text|
    ensures Newlines(text, i, k) == Newlines(text, i, j) + Newlines(text, j, k)
  {
    if j < k { NewlinesOn(text, i, j, k - 1); }
  }

  function Spaces(n: nat): (s: string)
    ensures |s| == n && forall i :: 0 <= i < n ==> s[i] == ' '
  {
    if n == 0 then "" else " " + Spaces(n - 1)
  }

  predicate OpensComment(text: string, i: nat) { At(text, i) == '/' && At(text, i + 1) == '*' }

  predicate ClosesComment(text: string, i: nat) { At(text, i) == '*' && At(text, i + 1) == '/' }

  predicate Splices(text: string, i: nat) { At(text, i) == '\\' && At(text, i + 1) == '\n' }

  // ---------- the text with comments and splices blanked out ----------

  /** The text from `i` on, blanked one character or two at a time. */
  function Blank(text: string, i: nat, inComment: bool): (b: string)
    requires i <= |text|
    ensures |b| == |text| - i
    decreases |text| - i
  {
    if i == |text| then ""
    else if inComment then
      if ClosesComment(text, i) then "  " + Blank(text, i + 2, false) else " " + Blank(text, i + 1, true)
    else if OpensComment(text, i) then "  " + Blank(text, i + 2, true)
    else if Splices(text, i) then "  " + Blank(text, i + 2, false)
    else [text[i]] + Blank(text, i + 1, false)
  }

  /** Where a comment ends that was opened before `i`; one that is not closed goes to the end. */
  function CommentEnd(text: string, i: nat): (j: nat)
    requires i <= |text|
    ensures i <= j <= |text|
    decreases |text| - i
  {
    if i == |text| then i else if ClosesComment(text, i) then i + 2 else CommentEnd(text, i + 1)
  }

  lemma {:induction false} BlankComment(text: string, i: nat)
    requires i <= |text|
    ensures var j := CommentEnd(text, i); Blank(text, i, true) == Spaces(j - i) + Blank(text, j, false)
    decreases |text| - i
  {
    if i < |text| {
      if ClosesComment(text, i) {
        assert Spaces(2) == " " + Spaces(1) == "  ";
      } else {
        BlankComment(text, i + 1);
      }
    }
  }

  // ---------- one line ----------

  /** A blanked line, where the text behind it begins, and whether a newline ended it. */
  datatype Taken = Taken(line: string, at: nat, ended: bool)

  /** How far one goes at once: over a comment, a splice, or one character. */
  function Next(text: string, i: nat): (j: nat)
    requires i < |text|
    ensures i < j <= |text|
  {
    if OpensComment(text, i) then CommentEnd(text, i + 2) else if Splices(text, i) then i + 2 else i + 1
  }

  /** What becomes of that. */
  function Blanked(text: string, i: nat): (b: string)
    requires i < |text| && text[i] != '\n'
    ensures |b| == Next(text, i) - i && forall k :: 0 <= k < |b| ==> b[k] != '\n'
  {
    if OpensComment(text, i) || Splices(text, i) then Spaces(Next(text, i) - i) else [text[i]]
  }

  function TakeLine(text: string, i: nat): (t: Taken)
    requires i <= |text|
    ensures i + |t.line| <= t.at <= |text| && t.at == i + |t.line| + (if t.ended then 1 else 0)
    ensures !t.ended ==> t.at == |text|
    decreases |text| - i
  {
    if i == |text| then Taken("", i, false)
    else if text[i] == '\n' then Taken("", i + 1, true)
    else var t := TakeLine(text, Next(text, i)); t.(line := Blanked(text, i) + t.line)
  }

  lemma BlankPiece(text: string, i: nat)
    requires i < |text| && text[i] != '\n'
    ensures Blank(text, i, false) == Blanked(text, i) + Blank(text, Next(text, i), false)
  {
    if OpensComment(text, i) {
      BlankWholeComment(text, i);
      assert Next(text, i) == CommentEnd(text, i + 2) && Blanked(text, i) == Spaces(Next(text, i) - i);
    } else if Splices(text, i) {
      BlankSplice(text, i);
      assert Next(text, i) == i + 2 && Blanked(text, i) == Spaces(2);
    } else {
      BlankCharacter(text, i);
      assert Next(text, i) == i + 1 && Blanked(text, i) == [text[i]];
    }
  }

  lemma BlankCharacter(text: string, i: nat)
    requires i < |text| && !OpensComment(text, i) && !Splices(text, i)
    ensures Blank(text, i, false) == [text[i]] + Blank(text, i + 1, false)
  {
  }

  lemma BlankSplice(text: string, i: nat)
    requires i < |text| && !OpensComment(text, i) && Splices(text, i)
    ensures Blank(text, i, false) == Spaces(2) + Blank(text, i + 2, false)
  {
    TwoMore(0);
    assert Spaces(0) == "" && "  " + "" == "  ";
  }

  lemma BlankWholeComment(text: string, i: nat)
    requires i < |text| && OpensComment(text, i)
    ensures var j := CommentEnd(text, i + 2); Blank(text, i, false) == Spaces(j - i) + Blank(text, j, false)
  {
    BlankComment(text, i + 2);
    var j := CommentEnd(text, i + 2);
    TwoMore(j - (i + 2));
    Assoc("  ", Spaces(j - (i + 2)), Blank(text, j, false));
  }

  lemma TwoMore(m: nat)
    ensures Spaces(2 + m) == "  " + Spaces(m)
  {
  }

  function Behind(text: string, t: Taken): string
    requires t.at <= |text|
  {
    if t.ended then "\n" + Blank(text, t.at, false) else ""
  }

  predicate OneLine(line: string) { forall i :: 0 <= i < |line| ==> line[i] != '\n' }

  /** Lines are what the newlines left in the blanked text separate. */
  lemma {:induction false} TakeLineIsFirst(text: string, i: nat)
    requires i <= |text|
    ensures Blank(text, i, false) == TakeLine(text, i).line + Behind(text, TakeLine(text, i))
    ensures OneLine(TakeLine(text, i).line)
    decreases |text| - i
  {
    if i < |text| && text[i] != '\n' {
      var j := Next(text, i);
      TakeLineIsFirst(text, j);
      BlankPiece(text, i);
      Assoc(Blanked(text, i), TakeLine(text, j).line, Behind(text, TakeLine(text, j)));
    }
  }
}
