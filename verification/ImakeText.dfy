/**
 imake's text filters as functions: hiding make comments from cpp, cutting cpp's output into lines,
 and cleaning those up.
 */
module ImakeText {
  import opened CStrings
  import opened CText

  // ---------- CleanCppInput ----------

  const DIRECTIVES: set<string> :=
    {"define", "if", "ifdef", "ifndef", "include", "line", "else", "elif", "endif", "error", "pragma", "undef"}

  function AfterBlanks(text: string, i: nat): (j: nat)
    requires i <= |text|
    ensures i <= j <= |text|
    decreases |text| - i
  {
    if i < |text| && IsBlank(text[i]) then AfterBlanks(text, i + 1) else i
  }

  predicate EndsToken(c: char) { c == NUL || IsBlank(c) || c == '\n' }

  function AfterToken(text: string, i: nat): (j: nat)
    requires i <= |text|
    ensures i <= j <= |text|
    decreases |text| - i
  {
    if i < |text| && !EndsToken(text[i]) then AfterToken(text, i + 1) else i
  }

  /** The word behind the '#' at `i` is one of cpp's. */
  predicate IsDirective(text: string, i: nat)
    requires i < |text|
  {
    var j := AfterBlanks(text, i + 1);
    text[j..AfterToken(text, j)] in DIRECTIVES
  }

  /** What stands `back` places in front of `i`; in front of the text there are newlines. */
  function Before(text: string, i: nat, back: nat): char
    requires i <= |text| && back > 0
  {
    if i < back then '\n' else text[i - back]
  }

  /** A '#' at the start of a line that is not continued from the last one, and no directive. */
  predicate IsMakeComment(text: string, i: nat)
    requires i < |text|
  {
    text[i] == '#' && Before(text, i, 1) == '\n' && Before(text, i, 2) != '\\' && !IsDirective(text, i)
  }

  /** What replaces that '#': the token, and a blank unless one follows. */
  function Marker(next: char): string { if IsBlank(next) then "XCOMM" else "XCOMM " }

  function CleanInput(text: string, i: nat): string
    requires i <= |text|
    decreases |text| - i
  {
    if i == |text| then ""
    else (if IsMakeComment(text, i) then Marker(At(text, i + 1)) else [text[i]]) + CleanInput(text, i + 1)
  }

  // ---------- ReadLine ----------

  /** "@@" ends a line too, except inside a path name: behind something and in front of a slash. */
  predicate SoftEol(buf: string, start: nat, i: nat)
    requires start <= i <= |buf|
  {
    At(buf, i) == '@' && At(buf, i + 1) == '@' && !(i > start && !IsSpace(buf[i - 1]) && At(buf, i + 2) == '/')
  }

  function Eol(buf: string, start: nat, i: nat): (e: nat)
    requires start <= i <= |buf|
    ensures i <= e <= |buf| && (e < |buf| ==> buf[e] == '\n' || SoftEol(buf, start, e))
    decreases |buf| - i
  {
    if i == |buf| || buf[i] == '\n' || SoftEol(buf, start, i) then i else Eol(buf, start, i + 1)
  }

  /** Lines with the separators behind them. */
  datatype Rows = None | Row(line: string, sep: string, more: Rows)

  function Separator(buf: string, e: nat): (sep: string)
    ensures sep == "" || sep == "\n" || sep == "@@"
  {
    if e >= |buf| then "" else if buf[e] == '\n' then "\n" else "@@"
  }

  /** Where the next line begins. */
  function NextLine(buf: string, e: nat): nat {
    if e >= |buf| then e else if buf[e] == '\n' then e + 1 else e + 2
  }

  /** All results of ReadLine. */
  function ReadLines(buf: string, start: nat): Rows
    requires start <= |buf|
    decreases |buf| - start
  {
    if start == |buf| then None
    else
      var e := Eol(buf, start, start);
      Row(buf[start..e], Separator(buf, e), ReadLines(buf, NextLine(buf, e)))
  }

  // ---------- isempty ----------

  function AfterDigits(s: string, i: nat): (j: nat)
    requires i <= |s|
    ensures i <= j <= |s|
    decreases |s| - i
  {
    if i < |s| && IsDigit(s[i]) then AfterDigits(s, i + 1) else i
  }

  predicate WordAt(s: string, i: nat, word: string) { i + |word| <= |s| && s[i..i + |word|] == word }

  /** A line by which cpp marks where it is: # n "... or # line n "... */
  predicate IsLineMarker(s: string) {
    var i := if At(s, 1) == ' ' then 2 else 1;
    var j := if WordAt(s, i, "line ") then i + 5 else i;
    First(s) == '#' && j < |s| && IsDigit(s[j]) && var k := AfterDigits(s, j);
      At(s, k) == NUL || At(s, k) == '\n' || (At(s, k) == ' ' && At(s, k + 1) == '"')
  }

  predicate IsToken(s: string, i: nat)
    requires i <= |s|
  {
    WordAt(s, i, "XCOMM") && (i == 0 || IsBlank(s[i - 1])) && (At(s, i + 5) == NUL || IsBlank(At(s, i + 5)))
  }

  /** Every XCOMM that stands alone becomes a '#' again. */
  function Uncomment(s: string, i: nat): string
    requires i <= |s|
    decreases |s| - i
  {
    if i == |s| then ""
    else if IsToken(s, i) then "#" + Uncomment(s, i + 5)
    else [s[i]] + Uncomment(s, i + 1)
  }

  function Trim(s: string): (t: string)
    ensures |t| <= |s| && t == s[..|t|] && (t != "" ==> !IsBlank(t[|t| - 1]))
    ensures forall k :: |t| <= k < |s| ==> IsBlank(s[k])
  {
    if s != "" && IsBlank(s[|s| - 1]) then Trim(s[..|s| - 1]) else s
  }

  /** A line as isempty leaves it; a line marker is as good as none. */
  function Cleaned(line: string): string {
    if IsLineMarker(line) then "" else Trim(if First(line) == '#' then line else Uncomment(line, 0))
  }

  // ---------- CleanCppOutput ----------

  datatype Lines = Nil | Line(text: string, more: Lines)

  /** The lines written; `blank` if the last one was empty. */
  function Output(rows: Rows, blank: bool): Lines {
    match rows
    case None => Nil
    case Row(line, _, more) =>
      var text := Cleaned(line);
      if text == "" && blank then Output(more, true) else Line(text, Output(more, text == ""))
  }

  function Text(lines: Lines): string {
    match lines
    case Nil => ""
    case Line(text, more) => text + ("\n" + Text(more))
  }
}
