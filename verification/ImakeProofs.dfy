/**
 What imake's filters keep: the buffer is cut without loss, blank lines never pile up, and make
 comments come back out of cpp.
 */
module ImakeProofs {
  import opened CStrings
  import opened Sequences
  import opened CText
  import opened ImakeText

  // ---------- ReadLine cuts the buffer without loss ----------

  predicate Stands(buf: string, i: nat, s: string) { i + |s| <= |buf| && forall k :: 0 <= k < |s| ==> buf[i + k] == s[k] }

  /** Lines and separators stand one behind the other from `i` to the end. */
  predicate Fills(buf: string, i: nat, rows: Rows)
    decreases rows
  {
    match rows
    case None => i == |buf|
    case Row(line, sep, more) => Stands(buf, i, line) && Stands(buf, i + |line|, sep) && Fills(buf, i + |line| + |sep|, more)
  }

  predicate Uncut(line: string) { forall k :: 0 <= k < |line| ==> line[k] != '\n' && !SoftEol(line, 0, k) }

  /** No line holds a newline or an unprotected "@@", and only the last may lack a separator. */
  predicate WellCut(rows: Rows) {
    match rows
    case None => true
    case Row(line, sep, more) =>
      && Uncut(line)
      && (sep == "\n" || sep == "@@" || (sep == "" && line != "" && more == None))
      && WellCut(more)
  }

  lemma {:induction false} EolIsFirst(buf: string, start: nat, i: nat, k: nat)
    requires start <= i <= |buf| && i <= k < Eol(buf, start, i)
    ensures buf[k] != '\n' && !SoftEol(buf, start, k)
    decreases |buf| - i
  {
    if i < k { EolIsFirst(buf, start, i + 1, k); }
  }

  lemma LineOfBuffer(buf: string, start: nat)
    requires start < |buf|
    ensures Uncut(buf[start..Eol(buf, start, start)])
  {
    var line := buf[start..Eol(buf, start, start)];
    forall k | 0 <= k < |line| ensures line[k] != '\n' && !SoftEol(line, 0, k) {
      EolIsFirst(buf, start, start, start + k);
    }
  }

  lemma FillsRow(buf: string, start: nat, e: nat, more: Rows)
    requires start <= e <= |buf| && (e < |buf| && buf[e] != '\n' ==> SoftEol(buf, start, e))
    requires Fills(buf, NextLine(buf, e), more)
    ensures !(start < |buf|) || Fills(buf, start, Row(buf[start..e], Separator(buf, e), more))
  {
    assert start + |buf[start..e]| == e;
    assert e + |Separator(buf, e)| == NextLine(buf, e);
  }

  /** The lines and separators are the whole buffer. */
  lemma {:induction false} NothingLost(buf: string, start: nat)
    requires start <= |buf|
    ensures Fills(buf, start, ReadLines(buf, start))
    decreases |buf| - start
  {
    if start < |buf| {
      var e := Eol(buf, start, start);
      NothingLost(buf, NextLine(buf, e));
      FillsRow(buf, start, e, ReadLines(buf, NextLine(buf, e)));
    }
  }

  lemma {:induction false} CutWhereItShould(buf: string, start: nat)
    requires start <= |buf|
    ensures WellCut(ReadLines(buf, start))
    decreases |buf| - start
  {
    if start < |buf| {
      var e := Eol(buf, start, start);
      LineOfBuffer(buf, start);
      CutWhereItShould(buf, NextLine(buf, e));
    }
  }

  // ---------- CleanCppOutput ----------

  predicate NoTwoBlank(lines: Lines, blank: bool) {
    match lines
    case Nil => true
    case Line(text, more) => !(blank && text == "") && NoTwoBlank(more, text == "")
  }

  /** The lines, cleaned. */
  function CleanedAll(rows: Rows): Lines {
    match rows
    case None => Nil
    case Row(line, _, more) => Line(Cleaned(line), CleanedAll(more))
  }

  function Squeeze(lines: Lines, blank: bool): Lines {
    match lines
    case Nil => Nil
    case Line(text, more) => if text == "" && blank then Squeeze(more, true) else Line(text, Squeeze(more, text == ""))
  }

  function NonBlank(lines: Lines): Lines {
    match lines
    case Nil => Nil
    case Line(text, more) => if text == "" then NonBlank(more) else Line(text, NonBlank(more))
  }

  /** No two blank lines in a row are written, and the others are the lines that are not empty, in order. */
  lemma {:induction false} BlankLinesOnce(rows: Rows, blank: bool)
    ensures NoTwoBlank(Output(rows, blank), blank)
    ensures NonBlank(Output(rows, blank)) == NonBlank(CleanedAll(rows))
  {
    match rows
    case None =>
    case Row(line, _, more) =>
      BlankLinesOnce(more, Cleaned(line) == "");
  }

  predicate OneLine(s: string) { forall k :: 0 <= k < |s| ==> s[k] != '\n' }

  lemma {:induction false} UncommentOneLine(s: string, i: nat)
    requires i <= |s| && OneLine(s)
    ensures OneLine(Uncomment(s, i))
    decreases |s| - i
  {
    if i < |s| { UncommentOneLine(s, if IsToken(s, i) then i + 5 else i + 1); }
  }

  predicate AllOneLine(lines: Lines) {
    match lines
    case Nil => true
    case Line(text, more) => OneLine(text) && (text == "" || !IsBlank(text[|text| - 1])) && AllOneLine(more)
  }

  /** What is written as a line is one, and no blanks trail. */
  lemma {:induction false} OutputIsLines(rows: Rows, blank: bool)
    requires WellCut(rows)
    ensures AllOneLine(Output(rows, blank))
  {
    match rows
    case None =>
    case Row(line, _, more) =>
      OutputIsLines(more, Cleaned(line) == "");
      UncommentOneLine(line, 0);
  }

  // ---------- make comments survive cpp ----------

  /** A file: lines that end in a newline, and what stands behind the last of those. */
  function FileText(lines: Lines, last: string): string {
    match lines
    case Nil => last
    case Line(line, more) => line + ("\n" + FileText(more, last))
  }

  predicate AllLines(lines: Lines, last: string) {
    match lines
    case Nil => OneLine(last)
    case Line(line, more) => OneLine(line) && AllLines(more, last)
  }

  /** Every text is one. */
  lemma {:induction false} EveryText(text: string) returns (lines: Lines, last: string)
    ensures AllLines(lines, last) && FileText(lines, last) == text
  {
    if k :| 0 <= k < |text| && text[k] == '\n' && OneLine(text[..k]) {
      var more, end := EveryText(text[k + 1..]);
      lines, last := Line(text[..k], more), end;
      assert text == text[..k] + ("\n" + text[k + 1..]);
    } else {
      FirstNewline(text, |text|);
      lines, last := Nil, text;
    }
  }

  lemma {:induction false} FirstNewline(text: string, n: nat)
    requires n <= |text| && !exists k :: 0 <= k < |text| && text[k] == '\n' && OneLine(text[..k])
    ensures OneLine(text[..n]) && text[..|text|] == text
  {
    if n > 0 {
      FirstNewline(text, n - 1);
      assert text[n - 1] != '\n';
    }
  }

  predicate Escapes(line: string) { line != "" && line[|line| - 1] == '\\' }

  predicate IsComment(line: string) { First(line) == '#' && line != "" && !IsDirective(line, 0) }

  /** A line after CleanCppInput. */
  function Hidden(line: string, escaped: bool): string {
    if IsComment(line) && !escaped then Marker(At(line, 1)) + line[1..] else line
  }

  function HiddenAll(lines: Lines, escaped: bool): Lines {
    match lines
    case Nil => Nil
    case Line(line, more) => Line(Hidden(line, escaped), HiddenAll(more, Escapes(line)))
  }

  /** Whether the newline before what stands behind the lines is escaped. */
  function EscapesLast(lines: Lines, escaped: bool): bool {
    match lines
    case Nil => escaped
    case Line(line, more) => EscapesLast(more, Escapes(line))
  }

  /** The line stands at `i`, and is over behind it. */
  predicate LineAt(text: string, i: nat, line: string) {
    && i + |line| <= |text| && (i + |line| < |text| ==> text[i + |line|] == '\n')
    && (forall k :: 0 <= k < |line| ==> text[i + k] == line[k])
  }

  lemma {:induction false} AfterBlanksAt(text: string, i: nat, line: string, j: nat)
    requires LineAt(text, i, line) && j <= |line|
    ensures AfterBlanks(text, i + j) == i + AfterBlanks(line, j)
    decreases |line| - j
  {
    if j < |line| && IsBlank(line[j]) { AfterBlanksAt(text, i, line, j + 1); }
  }

  lemma {:induction false} AfterTokenAt(text: string, i: nat, line: string, j: nat)
    requires LineAt(text, i, line) && j <= |line|
    ensures AfterToken(text, i + j) == i + AfterToken(line, j)
    decreases |line| - j
  {
    if j < |line| && !EndsToken(line[j]) { AfterTokenAt(text, i, line, j + 1); }
  }

  lemma SliceAt(text: string, i: nat, line: string, a: nat, b: nat)
    requires LineAt(text, i, line) && a <= b <= |line|
    ensures text[i + a..i + b] == line[a..b]
  {
    forall k | 0 <= k < b - a ensures text[i + a..i + b][k] == line[a..b][k] {
      assert text[i + (a + k)] == line[a + k];
    }
  }

  /** A directive is recognized by its own line. */
  lemma DirectiveAt(text: string, i: nat, line: string)
    requires LineAt(text, i, line) && line != ""
    ensures IsDirective(text, i) <==> IsDirective(line, 0)
  {
    AfterBlanksAt(text, i, line, 1);
    var j := AfterBlanks(line, 1);
    AfterTokenAt(text, i, line, j);
    SliceAt(text, i, line, j, AfterToken(line, j));
  }

  lemma {:induction false} Copied(text: string, i: nat, j: nat)
    requires i <= j <= |text| && forall k :: i <= k < j ==> !IsMakeComment(text, k)
    ensures CleanInput(text, i) == text[i..j] + CleanInput(text, j)
    decreases j - i
  {
    if i < j {
      Copied(text, i + 1, j);
      assert text[i..j] == [text[i]] + text[i + 1..j];
      Assoc([text[i]], text[i + 1..j], CleanInput(text, j));
    } else {
      assert text[i..j] == "";
    }
  }

  /** A make comment begins only where a line does. */
  lemma OnlyFirst(text: string, i: nat, line: string, k: nat)
    requires LineAt(text, i, line) && OneLine(line) && i < k < i + |line|
    ensures !IsMakeComment(text, k)
  {
    assert text[k - 1] == line[k - 1 - i];
  }

  lemma CopiedRest(text: string, i: nat, line: string, from: nat)
    requires LineAt(text, i, line) && OneLine(line) && from <= |line|
    requires from == 0 && line != "" ==> !IsMakeComment(text, i)
    ensures CleanInput(text, i + from) == line[from..] + CleanInput(text, i + |line|)
  {
    var e := i + |line|;
    forall k | i + from <= k < e ensures !IsMakeComment(text, k) {
      if k > i { OnlyFirst(text, i, line, k); }
    }
    Copied(text, i + from, e);
    SliceAt(text, i, line, from, |line|);
  }

  lemma CleanLine(text: string, i: nat, line: string)
    requires LineAt(text, i, line) && OneLine(line) && Before(text, i, 1) == '\n'
    ensures CleanInput(text, i) == Hidden(line, Before(text, i, 2) == '\\') + CleanInput(text, i + |line|)
  {
    if line != "" {
      DirectiveAt(text, i, line);
      assert text[i + 0] == line[0];
    }
    if line != "" && IsMakeComment(text, i) {
      CopiedRest(text, i, line, 1);
      Assoc(Marker(At(line, 1)), line[1..], CleanInput(text, i + |line|));
      MarkerAt(text, i, line);
    } else {
      CopiedRest(text, i, line, 0);
      assert line[0..] == line;
    }
  }

  lemma MarkerAt(text: string, i: nat, line: string)
    requires LineAt(text, i, line) && line != ""
    ensures Marker(At(text, i + 1)) == Marker(At(line, 1))
  {
    assert |line| > 1 ==> text[i + 1] == line[1];
  }

  /** The file stands in the text from `i` on, up to its end. */
  predicate FileAt(text: string, i: nat, lines: Lines, last: string)
    requires i <= |text|
    decreases lines
  {
    match lines
    case Nil => LineAt(text, i, last) && i + |last| == |text|
    case Line(line, more) => LineAt(text, i, line) && i + |line| < |text| && FileAt(text, i + |line| + 1, more, last)
  }

  lemma {:induction false} FileStands(text: string, i: nat, lines: Lines, last: string)
    requires i <= |text| && text[i..] == FileText(lines, last)
    ensures FileAt(text, i, lines, last)
    decreases lines
  {
    match lines
    case Nil =>
      var t := text[i..];
      assert forall k :: 0 <= k < |t| ==> text[i + k] == t[k];
    case Line(line, more) =>
      LineStands(text, i, line, FileText(more, last));
      FileStands(text, i + |line| + 1, more, last);
  }

  lemma LineStands(text: string, i: nat, line: string, rest: string)
    requires i <= |text| && text[i..] == line + ("\n" + rest)
    ensures LineAt(text, i, line) && i + |line| < |text| && text[i + |line| + 1..] == rest
  {
    var t := text[i..];
    assert forall k :: 0 <= k < |t| ==> text[i + k] == t[k];
    assert t[|line| + 1..] == rest;
    assert text[i + |line| + 1..] == t[|line| + 1..];
  }

  lemma BeforeNext(text: string, i: nat, line: string)
    requires LineAt(text, i, line) && i + |line| < |text| && Before(text, i, 1) == '\n'
    ensures var next := i + |line| + 1; Before(text, next, 1) == '\n' && (Before(text, next, 2) == '\\' <==> Escapes(line))
    ensures !IsMakeComment(text, i + |line|)
  {
  }

  /** CleanCppInput hides exactly the comment lines, each on its own; `i` is where a line begins. */
  lemma {:induction false} CleanLines(text: string, i: nat, lines: Lines, last: string)
    requires i <= |text| && FileAt(text, i, lines, last) && AllLines(lines, last) && Before(text, i, 1) == '\n'
    ensures var escaped := Before(text, i, 2) == '\\';
            CleanInput(text, i) == FileText(HiddenAll(lines, escaped), Hidden(last, EscapesLast(lines, escaped)))
    decreases lines
  {
    match lines
    case Nil =>
      CleanLine(text, i, last);
      assert Hidden(last, Before(text, i, 2) == '\\') + "" == Hidden(last, Before(text, i, 2) == '\\');
    case Line(line, more) =>
      BeforeNext(text, i, line);
      CleanLine(text, i, line);
      CleanLines(text, i + |line| + 1, more, last);
  }

  // ---------- and cutting cpp's output ----------

  /** What ReadLine makes of one line from `a` on: one row, or more if it holds "@@". */
  function LineRows(line: string, a: nat, more: Rows): Rows
    requires a <= |line|
    decreases |line| - a
  {
    var e := Eol(line, a, a);
    if e == |line| then Row(line[a..e], "\n", more)
    else Row(line[a..e], Separator(line, e), LineRows(line, NextLine(line, e), more))
  }

  function FileRows(lines: Lines, last: string): Rows {
    match lines
    case Nil => ReadLines(last, 0)
    case Line(line, more) => LineRows(line, 0, FileRows(more, last))
  }

  lemma SoftAt(text: string, i: nat, line: string, a: nat, j: nat)
    requires LineAt(text, i, line) && a <= j < |line|
    ensures text[i + j] == line[j] && (SoftEol(text, i + a, i + j) <==> SoftEol(line, a, j))
  {
    assert j > 0 ==> text[i + (j - 1)] == line[j - 1];
    assert j + 1 < |line| ==> text[i + (j + 1)] == line[j + 1];
    assert j + 2 < |line| ==> text[i + (j + 2)] == line[j + 2];
  }

  lemma {:induction false} EolAt(text: string, i: nat, line: string, a: nat, j: nat)
    requires LineAt(text, i, line) && a <= j <= |line|
    ensures Eol(text, i + a, i + j) == i + Eol(line, a, j)
    decreases |line| - j
  {
    if j < |line| {
      SoftAt(text, i, line, a, j);
      if line[j] != '\n' && !SoftEol(line, a, j) { EolAt(text, i, line, a, j + 1); }
    }
  }

  /** The row at `a`, and where the next one begins. */
  lemma RowAt(text: string, i: nat, line: string, a: nat)
    requires LineAt(text, i, line) && a <= |line|
    ensures var e := Eol(line, a, a);
            && Eol(text, i + a, i + a) == i + e && text[i + a..i + e] == line[a..e]
            && (e < |line| ==> Separator(text, i + e) == Separator(line, e) && NextLine(text, i + e) == i + NextLine(line, e))
  {
    EolAt(text, i, line, a, a);
    SliceAt(text, i, line, a, Eol(line, a, a));
  }

  lemma LastRow(text: string, i: nat, line: string, a: nat)
    requires LineAt(text, i, line) && i + |line| < |text| && a <= |line| && Eol(line, a, a) == |line|
    ensures ReadLines(text, i + a) == Row(line[a..|line|], "\n", ReadLines(text, i + |line| + 1))
  {
    RowAt(text, i, line, a);
    assert Separator(text, i + |line|) == "\n" && NextLine(text, i + |line|) == i + |line| + 1;
  }

  lemma RowInside(text: string, i: nat, line: string, a: nat)
    requires LineAt(text, i, line) && a <= |line| && Eol(line, a, a) < |line|
    ensures var e := Eol(line, a, a);
            ReadLines(text, i + a) == Row(line[a..e], Separator(line, e), ReadLines(text, i + NextLine(line, e)))
  {
    RowAt(text, i, line, a);
  }

  lemma {:induction false} ReadsLine(text: string, i: nat, line: string, a: nat)
    requires LineAt(text, i, line) && i + |line| < |text| && a <= |line|
    ensures ReadLines(text, i + a) == LineRows(line, a, ReadLines(text, i + |line| + 1))
    decreases |line| - a
  {
    var e := Eol(line, a, a);
    if e < |line| {
      RowInside(text, i, line, a);
      ReadsLine(text, i, line, NextLine(line, e));
    } else {
      LastRow(text, i, line, a);
    }
  }

  lemma {:induction false} ReadsLast(text: string, i: nat, line: string, a: nat)
    requires LineAt(text, i, line) && i + |line| == |text| && a <= |line|
    ensures ReadLines(text, i + a) == ReadLines(line, a)
    decreases |line| - a
  {
    if a < |line| {
      RowAt(text, i, line, a);
      var e := Eol(line, a, a);
      if e < |line| { ReadsLast(text, i, line, NextLine(line, e)); }
    }
  }

  /** ReadLine cuts each line of the text on its own. */
  lemma {:induction false} ReadsFile(text: string, i: nat, lines: Lines, last: string)
    requires i <= |text| && FileAt(text, i, lines, last)
    ensures ReadLines(text, i) == FileRows(lines, last)
    decreases lines
  {
    match lines
    case Nil =>
      ReadsLast(text, i, last, 0);
    case Line(line, more) =>
      ReadsLine(text, i, line, 0);
      ReadsFile(text, i + |line| + 1, more, last);
  }

  // ---------- the round trip of a comment ----------

  /** One space behind the '#' unless a blank is there. */
  function Spaced(line: string): (s: string)
    requires line != ""
    ensures s != "" && (line[0] == '#' ==> s[0] == '#')
  {
    if IsBlank(At(line, 1)) then line else "# " + line[1..]
  }

  predicate NoToken(s: string, i: nat)
    requires i <= |s|
  {
    forall k :: i <= k < |s| ==> !IsToken(s, k)
  }

  /** Nothing in the comment is an end of line or a make comment's mark to the filters. */
  predicate Keeps(line: string)
    requires line != ""
  {
    Uncut(Spaced(line)) && NoToken(Spaced(line), 0)
  }

  lemma {:induction false} UncommentPlain(s: string, i: nat)
    requires i <= |s| && NoToken(s, i)
    ensures Uncomment(s, i) == s[i..]
    decreases |s| - i
  {
    if i < |s| {
      UncommentPlain(s, i + 1);
      assert s[i..] == [s[i]] + s[i + 1..];
    }
  }

  /** The first mark is no longer there. */
  lemma {:induction false} UncommentDiffers(s: string, i: nat) returns (p: nat)
    requires i <= |s| && !NoToken(s, i)
    ensures i + p < |s| && s[i + p] == 'X' && p < |Uncomment(s, i)| && Uncomment(s, i)[p] == '#'
    decreases |s| - i
  {
    if IsToken(s, i) {
      p := 0;
      assert s[i] == s[i..i + 5][0];
    } else {
      var q := UncommentDiffers(s, i + 1);
      p := q + 1;
    }
  }

  lemma {:induction false} UncommentShrinks(s: string, i: nat)
    requires i <= |s|
    ensures |Uncomment(s, i)| <= |s| - i
    decreases |s| - i
  {
    if i < |s| { UncommentShrinks(s, if IsToken(s, i) then i + 5 else i + 1); }
  }

  /** Trimming touches nothing up to a character that is no blank. */
  lemma TrimKeeps(s: string, p: nat)
    requires p < |s| && !IsBlank(s[p])
    ensures p < |Trim(s)| && Trim(s)[p] == s[p]
  {
  }

  /** The hidden comment against the comment: the mark for the '#'. */
  lemma HiddenSpaced(line: string)
    requires IsComment(line)
    ensures Hidden(line, false) == "XCOMM" + Spaced(line)[1..]
    ensures IsBlank(At(Hidden(line, false), 5)) || |Hidden(line, false)| == 5
  {
    var m := Marker(At(line, 1));
    assert m + line[1..] == "XCOMM" + Spaced(line)[1..];
  }

  /** Behind its first character the comment is the same, hidden or not. */
  lemma Moved(line: string, k: nat)
    requires IsComment(line) && 1 <= k
    ensures |Hidden(line, false)| == |Spaced(line)| + 4 && At(Hidden(line, false), k + 4) == At(Spaced(line), k)
  {
    HiddenSpaced(line);
    var s := Spaced(line);
    assert |"XCOMM" + s[1..]| == 4 + |s|;
    if k < |s| {
      assert ("XCOMM" + s[1..])[k + 4] == s[1..][k - 1];
    }
  }

  lemma WordIsCharacters(s: string, i: nat)
    requires i <= |s|
    ensures WordAt(s, i, "XCOMM")
            <==> At(s, i) == 'X' && At(s, i + 1) == 'C' && At(s, i + 2) == 'O' && At(s, i + 3) == 'M' && At(s, i + 4) == 'M'
  {
    var word := "XCOMM";
    if WordAt(s, i, word) {
      assert s[i..i + 5][0] == s[i] && s[i..i + 5][1] == s[i + 1] && s[i..i + 5][2] == s[i + 2];
      assert s[i..i + 5][3] == s[i + 3] && s[i..i + 5][4] == s[i + 4];
    }
  }

  lemma TokenMoved(line: string, k: nat)
    requires IsComment(line) && 1 <= k < |Spaced(line)|
    ensures k + 4 < |Hidden(line, false)| && (IsToken(Hidden(line, false), k + 4) <==> IsToken(Spaced(line), k))
  {
    Moved(line, k);
    Moved(line, k + 1);
    Moved(line, k + 2);
    Moved(line, k + 3);
    Moved(line, k + 4);
    Moved(line, k + 5);
    WordIsCharacters(Hidden(line, false), k + 4);
    WordIsCharacters(Spaced(line), k);
    if k > 1 { Moved(line, k - 1); } else { FirstIsNoToken(line); }
  }

  /** Neither behind the mark nor behind the '#' is there a mark at once. */
  lemma FirstIsNoToken(line: string)
    requires IsComment(line) && 1 < |Spaced(line)|
    ensures !IsToken(Spaced(line), 1) && At(Hidden(line, false), 5) == At(Spaced(line), 1)
    ensures IsBlank(Spaced(line)[1]) && !WordAt(Spaced(line), 1, "XCOMM")
  {
    Moved(line, 1);
    WordIsCharacters(Spaced(line), 1);
  }

  lemma SoftMoved(line: string, k: nat)
    requires IsComment(line) && 1 <= k < |Spaced(line)|
    ensures k + 4 < |Hidden(line, false)| && Hidden(line, false)[k + 4] == Spaced(line)[k]
    ensures SoftEol(Hidden(line, false), 0, k + 4) <==> SoftEol(Spaced(line), 0, k)
  {
    Moved(line, k);
    Moved(line, k + 1);
    Moved(line, k + 2);
    if k > 1 { Moved(line, k - 1); } else { FirstIsNoToken(line); }
  }

  lemma {:induction false} UncutEol(line: string, j: nat)
    requires Uncut(line) && j <= |line|
    ensures Eol(line, 0, j) == |line|
    decreases |line| - j
  {
    if j < |line| { UncutEol(line, j + 1); }
  }

  lemma CutMoved(line: string, k: nat)
    requires IsComment(line) && k < |Hidden(line, false)|
    requires var h := Hidden(line, false); h[k] == '\n' || SoftEol(h, 0, k)
    ensures k >= 5 && var s := Spaced(line); k - 4 < |s| && (s[k - 4] == '\n' || SoftEol(s, 0, k - 4))
  {
    HiddenSpaced(line);
    if k >= 5 {
      Moved(line, k - 4);
      SoftMoved(line, k - 4);
    }
  }

  /** Hidden or not, the comment is cut if at all in the same places. */
  lemma UncutIff(line: string)
    requires IsComment(line)
    ensures Eol(Hidden(line, false), 0, 0) == |Hidden(line, false)| <==> Uncut(Spaced(line))
  {
    var h, s := Hidden(line, false), Spaced(line);
    var e := Eol(h, 0, 0);
    if e < |h| {
      CutMoved(line, e);
    } else {
      forall k | 0 <= k < |s| ensures s[k] != '\n' && !SoftEol(s, 0, k) {
        if k > 0 {
          SoftMoved(line, k);
          EolIsFirst(h, 0, 0, k + 4);
        }
      }
    }
  }

  lemma TokensIff(line: string)
    requires IsComment(line)
    ensures 5 <= |Hidden(line, false)| && (NoToken(Hidden(line, false), 5) <==> NoToken(Spaced(line), 0))
  {
    HiddenSpaced(line);
    var h, s := Hidden(line, false), Spaced(line);
    assert |h| == |s| + 4 by { Moved(line, 1); }
    WordIsCharacters(s, 0);
    forall k | 1 <= k < |s| ensures IsToken(h, k + 4) <==> IsToken(s, k) { TokenMoved(line, k); }
    forall k | 5 <= k < |h| ensures IsToken(h, k) <==> IsToken(s, k - 4) { TokenMoved(line, k - 4); }
  }

  /** What a hidden comment, or its beginning, is cleaned to. */
  lemma CleanedComment(line: string, e: nat)
    requires IsComment(line) && 5 <= e <= |Hidden(line, false)|
    ensures var h := Hidden(line, false)[..e]; Cleaned(h) == Trim("#" + Uncomment(h, 5))
  {
    HiddenSpaced(line);
    var h := Hidden(line, false)[..e];
    assert h[0] == 'X' && h[1] == 'C' && h[2] == 'O' && h[3] == 'M' && h[4] == 'M';
    WordIsCharacters(h, 0);
    assert IsToken(h, 0);
  }

  /** A comment of which nothing is taken comes back, with a space behind the '#' and without trailing blanks. */
  lemma CommentRoundTrip(line: string)
    requires IsComment(line) && Keeps(line)
    ensures var h := Hidden(line, false); Eol(h, 0, 0) == |h| && Cleaned(h) == Trim(Spaced(line))
    ensures First(Trim(Spaced(line))) == '#'
  {
    var h := Hidden(line, false);
    UncutIff(line);
    CleanedWhole(line);
    TrimKeeps(Spaced(line), 0);
  }

  lemma CleanedWhole(line: string)
    requires IsComment(line) && NoToken(Spaced(line), 0)
    ensures Cleaned(Hidden(line, false)) == Trim(Spaced(line))
  {
    var h := Hidden(line, false);
    TokensIff(line);
    assert h[..|h|] == h;
    CleanedComment(line, |h|);
    UncommentPlain(h, 5);
    BehindMark(line);
  }

  lemma BehindMark(line: string)
    requires IsComment(line)
    ensures 5 <= |Hidden(line, false)| && "#" + Hidden(line, false)[5..] == Spaced(line)
  {
    HiddenSpaced(line);
    var s := Spaced(line);
    assert ("XCOMM" + s[1..])[5..] == s[1..] && s == [s[0]] + s[1..];
  }

  lemma CutIsLost(line: string)
    requires IsComment(line) && !Uncut(Spaced(line))
    ensures var h := Hidden(line, false); |Cleaned(h[..Eol(h, 0, 0)])| < |Trim(Spaced(line))|
  {
    UncutIff(line);
    var h := Hidden(line, false);
    var e := Eol(h, 0, 0);
    CutMoved(line, e);
    CleanedComment(line, e);
    UncommentShrinks(h[..e], 5);
    TrimKeeps(Spaced(line), e - 4);
  }

  lemma TrimDiffers(a: string, b: string, p: nat)
    requires p < |a| && p < |b| && a[p] != b[p] && !IsBlank(a[p]) && !IsBlank(b[p])
    ensures Trim(a) != Trim(b)
  {
    TrimKeeps(a, p);
    TrimKeeps(b, p);
  }

  lemma TokenDiffers(line: string)
    requires IsComment(line) && 5 <= |Hidden(line, false)| && !NoToken(Hidden(line, false), 5)
    ensures Trim("#" + Uncomment(Hidden(line, false), 5)) != Trim(Spaced(line))
  {
    var h := Hidden(line, false);
    var p := UncommentDiffers(h, 5);
    Moved(line, p + 1);
    TrimDiffers("#" + Uncomment(h, 5), Spaced(line), p + 1);
  }

  lemma TokenIsLost(line: string)
    requires IsComment(line) && !NoToken(Spaced(line), 0)
    ensures Cleaned(Hidden(line, false)) != Trim(Spaced(line))
  {
    TokensIff(line);
    var h := Hidden(line, false);
    assert h[..|h|] == h;
    CleanedComment(line, |h|);
    TokenDiffers(line);
  }

  /** Exactly then. */
  lemma ComesBackIff(line: string)
    requires IsComment(line)
    ensures var h := Hidden(line, false); Cleaned(h[..Eol(h, 0, 0)]) == Trim(Spaced(line)) <==> Keeps(line)
  {
    var h := Hidden(line, false);
    assert h[..|h|] == h;
    if Keeps(line) {
      CommentRoundTrip(line);
    } else if !Uncut(Spaced(line)) {
      CutIsLost(line);
    } else {
      UncutIff(line);
      TokenIsLost(line);
    }
  }

  // ---------- the whole pipeline, with cpp as the identity ----------

  predicate ComesBack(line: string, escaped: bool) { IsComment(line) && !escaped && Keeps(line) }

  /** What one line is cleaned to from `a` on, in front of more. */
  function CleanedLine(line: string, a: nat, more: Lines): Lines
    requires a <= |line|
    decreases |line| - a
  {
    var e := Eol(line, a, a);
    Line(Cleaned(line[a..e]), if e == |line| then more else CleanedLine(line, NextLine(line, e), more))
  }

  /** Make comments as they were, and the rest as it is cleaned line by line. */
  function Expected(lines: Lines, last: string, escaped: bool): Lines {
    match lines
    case Nil => if ComesBack(last, escaped) then Line(Trim(Spaced(last)), Nil) else CleanedAll(ReadLines(Hidden(last, escaped), 0))
    case Line(line, more) =>
      var rest := Expected(more, last, Escapes(line));
      if ComesBack(line, escaped) then Line(Trim(Spaced(line)), rest) else CleanedLine(Hidden(line, escaped), 0, rest)
  }

  lemma {:induction false} LineRowsCleaned(line: string, a: nat, more: Rows)
    requires a <= |line|
    ensures CleanedAll(LineRows(line, a, more)) == CleanedLine(line, a, CleanedAll(more))
    decreases |line| - a
  {
    var e := Eol(line, a, a);
    if e < |line| { LineRowsCleaned(line, NextLine(line, e), more); }
  }

  lemma ShortRows(h: string, more: Rows)
    requires Eol(h, 0, 0) == |h|
    ensures LineRows(h, 0, more) == Row(h, "\n", more)
    ensures h != "" ==> ReadLines(h, 0) == Row(h, "", None)
  {
    assert h[0..|h|] == h;
  }

  lemma {:induction false} RowsExpected(lines: Lines, last: string, escaped: bool)
    ensures CleanedAll(FileRows(HiddenAll(lines, escaped), Hidden(last, EscapesLast(lines, escaped))))
            == Expected(lines, last, escaped)
    decreases lines
  {
    match lines
    case Nil =>
      if ComesBack(last, escaped) {
        CommentRoundTrip(last);
        ShortRows(Hidden(last, escaped), None);
      }
    case Line(line, more) =>
      RowsExpected(more, last, Escapes(line));
      var rest := FileRows(HiddenAll(more, Escapes(line)), Hidden(last, EscapesLast(lines, escaped)));
      if ComesBack(line, escaped) {
        CommentRoundTrip(line);
        ShortRows(Hidden(line, escaped), rest);
      } else {
        LineRowsCleaned(Hidden(line, escaped), 0, rest);
      }
  }

  lemma {:induction false} OutputSqueezes(rows: Rows, blank: bool)
    ensures Output(rows, blank) == Squeeze(CleanedAll(rows), blank)
  {
    match rows
    case None =>
    case Row(line, _, more) => OutputSqueezes(more, Cleaned(line) == "");
  }

  /** In every file each comment that can comes out as itself, in its place, and no line touches another. */
  lemma PipelineKeepsComments(lines: Lines, last: string)
    requires AllLines(lines, last)
    ensures Output(ReadLines(CleanInput(FileText(lines, last), 0), 0), false) == Squeeze(Expected(lines, last, false), false)
  {
    var text := FileText(lines, last);
    assert text[0..] == text;
    FileStands(text, 0, lines, last);
    CleanLines(text, 0, lines, last);
    var hidden, end := HiddenAll(lines, false), Hidden(last, EscapesLast(lines, false));
    var input := FileText(hidden, end);
    assert input[0..] == input;
    FileStands(input, 0, hidden, end);
    ReadsFile(input, 0, hidden, end);
    RowsExpected(lines, last, false);
    OutputSqueezes(ReadLines(input, 0), false);
  }
}
