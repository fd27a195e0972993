/**
 What imake's filters take for a directive, a make comment, a line marker, a soft end of line and a token, as laws of
 concatenated texts.
 */
module ImakeLaws {
  import opened CStrings
  import opened CText
  import opened ImakeText

  predicate Blanks(s: string) { forall i :: 0 <= i < |s| ==> s[i] == ' ' || s[i] == '\t' }

  /** A word up to a blank, a newline or the end. */
  predicate IsToken(s: string) { forall i :: 0 <= i < |s| ==> s[i] != ' ' && s[i] != '\t' && s[i] != '\n' && s[i] != NUL }

  predicate EndsToken(rest: string) { rest == "" || rest[0] == ' ' || rest[0] == '\t' || rest[0] == '\n' || rest[0] == NUL }

  // ---------- make comments ----------

  lemma {:induction false} BlanksEnd(text: string, i: nat, ws: string, rest: string)
    requires i <= |text| && text[i..] == ws + rest && Blanks(ws) && (rest != "" ==> rest[0] != ' ' && rest[0] != '\t')
    ensures AfterBlanks(text, i) == i + |ws|
    decreases |ws|
  {
    assert forall k :: 0 <= k < |ws + rest| ==> text[i + k] == (ws + rest)[k];
    if ws != "" {
      assert text[i] == ws[0] && text[i + 1..] == (ws + rest)[1..] == ws[1..] + rest;
      BlanksEnd(text, i + 1, ws[1..], rest);
    } else {
      assert rest != "" ==> text[i] == rest[0];
    }
  }

  lemma {:induction false} TokenEnds(text: string, i: nat, token: string, rest: string)
    requires i <= |text| && text[i..] == token + rest && IsToken(token) && EndsToken(rest)
    ensures AfterToken(text, i) == i + |token| && text[i..i + |token|] == token
    decreases |token|
  {
    assert forall k :: 0 <= k < |token + rest| ==> text[i + k] == (token + rest)[k];
    if token != "" {
      assert text[i] == token[0] && text[i + 1..] == (token + rest)[1..] == token[1..] + rest;
      TokenEnds(text, i + 1, token[1..], rest);
    } else {
      assert rest != "" ==> text[i] == rest[0];
    }
  }

  /** A '#' is a make comment at the start of a line that is not continued, unless one of cpp's words stands behind it. */
  lemma CommentIff(text: string, i: nat, ws: string, token: string, rest: string)
    requires i < |text| && text[i] == '#' && text[i + 1..] == ws + (token + rest)
    requires Blanks(ws) && IsToken(token) && EndsToken(rest) && (token == "" ==> rest == "" || rest[0] == '\n' || rest[0] == NUL)
    ensures IsMakeComment(text, i)
            <==> && (i == 0 || (text[i - 1] == '\n' && (i == 1 || text[i - 2] != '\\')))
                 && token !in ["define", "if", "ifdef", "ifndef", "include", "line", "else", "elif", "endif", "error", "pragma", "undef"]
  {
    BlanksEnd(text, i + 1, ws, token + rest);
    var j := i + 1 + |ws|;
    assert text[j..] == (text[i + 1..])[|ws|..] == token + rest;
    TokenEnds(text, j, token, rest);
    WordsOfCpp(token);
  }

  lemma WordsOfCpp(token: string)
    ensures token in DIRECTIVES
            <==> token in ["define", "if", "ifdef", "ifndef", "include", "line", "else", "elif", "endif", "error", "pragma", "undef"]
  {
  }

  /** A make comment is hidden behind XCOMM, with a blank if none is there, and nothing else changes. */
  lemma CommentIsHidden(text: string, i: nat)
    requires i < |text| && IsMakeComment(text, i)
    ensures i + 1 < |text| && (text[i + 1] == ' ' || text[i + 1] == '\t') ==> CleanInput(text, i) == "XCOMM" + CleanInput(text, i + 1)
    ensures i + 1 == |text| || (text[i + 1] != ' ' && text[i + 1] != '\t') ==> CleanInput(text, i) == "XCOMM " + CleanInput(text, i + 1)
  {
  }

  // ---------- soft ends of lines ----------

  /** "@@" ends a line unless a path goes on: something that is no blank in front of it, and a slash behind. */
  lemma SoftEolIff(buf: string, start: nat, i: nat)
    requires start <= i && i + 1 < |buf| && buf[i] == '@' && buf[i + 1] == '@'
    ensures !SoftEol(buf, start, i)
            <==> i > start && buf[i - 1] != ' ' && !(9 as char <= buf[i - 1] <= 13 as char) && i + 2 < |buf| && buf[i + 2] == '/'
  {
  }

  lemma {:induction false} EolBehind(buf: string, start: nat, i: nat, e: nat)
    requires start <= i <= e < |buf| && (buf[e] == '\n' || SoftEol(buf, start, e))
    requires forall k :: i <= k < e ==> buf[k] != '\n' && !SoftEol(buf, start, k)
    ensures Eol(buf, start, i) == e
    decreases e - i
  {
    if i < e { EolBehind(buf, start, i + 1, e); }
  }

  /** A line without '@' goes to its newline, ... */
  lemma NewlineEndsRow(line: string, more: string)
    requires forall k :: 0 <= k < |line| ==> line[k] != '\n' && line[k] != '@'
    ensures ReadLines(line + ("\n" + more), 0) == Row(line, "\n", ReadLines(line + ("\n" + more), |line| + 1))
  {
    var buf := line + ("\n" + more);
    assert forall k :: 0 <= k < |line| ==> buf[k] == line[k];
    EolBehind(buf, 0, 0, |line|);
  }

  /** ... and a line with "@@" to there, unless a path goes on. */
  lemma SoftEndEndsRow(line: string, more: string)
    requires forall k :: 0 <= k < |line| ==> line[k] != '\n' && line[k] != '@'
    requires line == "" || IsSpace(line[|line| - 1]) || more == "" || more[0] != '/'
    ensures ReadLines(line + ("@@" + more), 0) == Row(line, "@@", ReadLines(line + ("@@" + more), |line| + 2))
  {
    var buf := line + ("@@" + more);
    SoftEndAt(buf, line, more);
    EolBehind(buf, 0, 0, |line|);
  }

  lemma SoftEndAt(buf: string, line: string, more: string)
    requires buf == line + ("@@" + more) && (line == "" || IsSpace(line[|line| - 1]) || more == "" || more[0] != '/')
    ensures |line| + 2 <= |buf| && buf[..|line|] == line && SoftEol(buf, 0, |line|) && buf[|line|] == '@'
    ensures forall k :: 0 <= k < |line| ==> buf[k] == line[k]
  {
    var i := |line|;
    assert buf[i] == '@' && buf[i + 1] == '@';
    assert more != "" ==> buf[i + 2] == more[0];
    assert line != "" ==> buf[i - 1] == line[i - 1];
  }

  // ---------- cpp's line markers ----------

  predicate Digits(s: string) { s != "" && forall i :: 0 <= i < |s| ==> '0' <= s[i] <= '9' }

  lemma {:induction false} DigitsEnd(s: string, i: nat, digits: string, rest: string)
    requires i <= |s| && s[i..] == digits + rest && (forall k :: 0 <= k < |digits| ==> '0' <= digits[k] <= '9')
    requires rest != "" ==> !('0' <= rest[0] <= '9')
    ensures AfterDigits(s, i) == i + |digits|
    decreases |digits|
  {
    assert forall k :: 0 <= k < |digits + rest| ==> s[i + k] == (digits + rest)[k];
    if digits != "" {
      assert s[i] == digits[0] && s[i + 1..] == (digits + rest)[1..] == digits[1..] + rest;
      DigitsEnd(s, i + 1, digits[1..], rest);
    } else {
      assert rest != "" ==> s[i] == rest[0];
    }
  }

  /** A number behind # or # line is one if it stands alone or a quoted name follows. */
  lemma MarkerIff(blank: string, word: string, digits: string, rest: string)
    requires (blank == "" || blank == " ") && (word == "" || word == "line ") && Digits(digits)
    requires NUL !in rest && (rest != "" ==> !('0' <= rest[0] <= '9'))
    ensures IsLineMarker("#" + (blank + (word + (digits + rest))))
            <==> rest == "" || rest[0] == '\n' || (|rest| > 1 && rest[0] == ' ' && rest[1] == '"')
  {
    var s := "#" + (blank + (word + (digits + rest)));
    var j := 1 + |blank| + |word|;
    MarkerBegins(s, blank, word, digits + rest);
    MarkerGoesOn(s, j, digits, rest);
    MarkerBy(s, 1 + |blank|, j);
  }

  lemma MarkerGoesOn(s: string, j: nat, digits: string, rest: string)
    requires j <= |s| && s[j..] == digits + rest && Digits(digits) && NUL !in rest && (rest != "" ==> !('0' <= rest[0] <= '9'))
    ensures j < |s| && IsDigit(s[j]) && AfterDigits(s, j) == j + |digits|
    ensures var k := j + |digits|;
            (At(s, k) == NUL || At(s, k) == '\n' || (At(s, k) == ' ' && At(s, k + 1) == '"'))
            <==> rest == "" || rest[0] == '\n' || (|rest| > 1 && rest[0] == ' ' && rest[1] == '"')
  {
    DigitsEnd(s, j, digits, rest);
    assert s[j] == s[j..][0] == digits[0];
    assert s[j + |digits|..] == s[j..][|digits|..] == rest;
    MarkerEnds(s, j + |digits|, rest);
  }

  lemma MarkerBy(s: string, i: nat, j: nat)
    requires First(s) == '#' && i == (if At(s, 1) == ' ' then 2 else 1) && j == (if WordAt(s, i, "line ") then i + 5 else i)
    requires j < |s| && IsDigit(s[j])
    ensures var k := AfterDigits(s, j); IsLineMarker(s) <==> At(s, k) == NUL || At(s, k) == '\n' || (At(s, k) == ' ' && At(s, k + 1) == '"')
  {
  }

  lemma MarkerBegins(s: string, blank: string, word: string, t: string)
    requires (blank == "" || blank == " ") && (word == "" || word == "line ") && t != "" && '0' <= t[0] <= '9'
    requires s == "#" + (blank + (word + t))
    ensures First(s) == '#' && (if At(s, 1) == ' ' then 2 else 1) == 1 + |blank|
    ensures WordAt(s, 1 + |blank|, "line ") <==> word != ""
    ensures 1 + |blank| + |word| < |s| && s[1 + |blank| + |word|..] == t
  {
    var i := 1 + |blank|;
    assert s[i..] == word + t;
    assert s[1] == if blank == "" then (if word == "" then t[0] else 'l') else ' ';
    if word == "" {
      assert s[i] == t[0];
    } else {
      assert s[i..i + 5] == word;
    }
  }

  lemma MarkerEnds(s: string, k: nat, rest: string)
    requires k <= |s| && s[k..] == rest && NUL !in rest
    ensures (At(s, k) == NUL || At(s, k) == '\n' || (At(s, k) == ' ' && At(s, k + 1) == '"'))
            <==> rest == "" || rest[0] == '\n' || (|rest| > 1 && rest[0] == ' ' && rest[1] == '"')
  {
    assert rest != "" ==> s[k] == rest[0];
    assert |rest| > 1 ==> s[k + 1] == rest[1];
  }

  /** And nothing else is. */
  lemma OnlyMarkers(s: string) returns (blank: string, word: string, digits: string, rest: string)
    requires IsLineMarker(s)
    ensures (blank == "" || blank == " ") && (word == "" || word == "line ") && Digits(digits)
    ensures s == "#" + (blank + (word + (digits + rest))) && (rest != "" ==> !('0' <= rest[0] <= '9'))
  {
    var i := if At(s, 1) == ' ' then 2 else 1;
    var j := if WordAt(s, i, "line ") then i + 5 else i;
    DigitsHold(s, j);
    blank, word, digits, rest := Parts(s, i, j, AfterDigits(s, j));
  }

  lemma Parts(s: string, i: nat, j: nat, k: nat) returns (blank: string, word: string, digits: string, rest: string)
    requires 1 <= i <= j < k <= |s| && s[0] == '#' && (i == 1 || (i == 2 && s[1] == ' '))
    requires j == i || s[i..j] == "line "
    requires (forall x :: j <= x < k ==> '0' <= s[x] <= '9') && (k < |s| ==> !('0' <= s[k] <= '9'))
    ensures (blank == "" || blank == " ") && (word == "" || word == "line ") && Digits(digits)
    ensures s == "#" + (blank + (word + (digits + rest))) && (rest != "" ==> !('0' <= rest[0] <= '9'))
  {
    blank, word, digits, rest := s[1..i], s[i..j], s[j..k], s[k..];
    DigitsBetween(s, j, k);
    Cut(s, 1, i, j, k);
    assert s[..1] == "#";
    assert i == 2 ==> blank == " ";
    assert rest != "" ==> rest[0] == s[k];
  }

  lemma DigitsBetween(s: string, j: nat, k: nat)
    requires j < k <= |s| && forall x :: j <= x < k ==> '0' <= s[x] <= '9'
    ensures Digits(s[j..k])
  {
    assert forall x :: 0 <= x < k - j ==> s[j..k][x] == s[j + x];
  }

  lemma Cut(s: string, a: nat, b: nat, c: nat, d: nat)
    requires a <= b <= c <= d <= |s|
    ensures s == s[..a] + (s[a..b] + (s[b..c] + (s[c..d] + s[d..])))
  {
    assert s[c..] == s[c..d] + s[d..];
    assert s[b..] == s[b..c] + s[c..];
    assert s[a..] == s[a..b] + s[b..];
  }

  lemma {:induction false} DigitsHold(s: string, i: nat)
    requires i <= |s|
    ensures forall k :: i <= k < AfterDigits(s, i) ==> '0' <= s[k] <= '9'
    ensures AfterDigits(s, i) < |s| ==> !('0' <= s[AfterDigits(s, i)] <= '9')
    ensures i < |s| && '0' <= s[i] <= '9' ==> i < AfterDigits(s, i)
    decreases |s| - i
  {
    if i < |s| && IsDigit(s[i]) { DigitsHold(s, i + 1); }
  }

  /** Such a line is not written. */
  lemma MarkerIsDropped(blank: string, word: string, digits: string, name: string)
    requires (blank == "" || blank == " ") && (word == "" || word == "line ") && Digits(digits) && NUL !in name
    ensures Cleaned("#" + (blank + (word + (digits + (" \"" + name))))) == ""
    ensures Cleaned("#" + (blank + (word + (digits + "")))) == ""
  {
    MarkerIff(blank, word, digits, " \"" + name);
    MarkerIff(blank, word, digits, "");
  }

  // ---------- XCOMM ----------

  /** An XCOMM with blanks around it, or at an end of the line, is a '#' again; any other stays. */
  lemma TokenIff(front: string, rest: string)
    requires NUL !in rest
    ensures ImakeText.IsToken(front + ("XCOMM" + rest), |front|)
            <==> && (front == "" || front[|front| - 1] == ' ' || front[|front| - 1] == '\t')
                 && (rest == "" || rest[0] == ' ' || rest[0] == '\t')
  {
    var s := front + ("XCOMM" + rest);
    assert s[|front|..|front| + 5] == "XCOMM";
    assert front != "" ==> s[|front| - 1] == front[|front| - 1];
    assert At(s, |front| + 5) == At(rest, 0);
  }

  /** A line that begins with '#' loses its blanks at the end only; */
  lemma HashLineStays(line: string, ws: string)
    requires Blanks(ws) && (line == "" || (line[|line| - 1] != ' ' && line[|line| - 1] != '\t')) && !IsLineMarker("#" + (line + ws))
    ensures Cleaned("#" + (line + ws)) == "#" + line
  {
    assert "#" + (line + ws) == ("#" + line) + ws;
    TrimOver("#" + line, ws);
  }

  /** in any other line an XCOMM that stands alone is a '#' again. */
  lemma TokenComesBack(line: string)
    requires NUL !in line && (line == "" || (line[0] != ' ' && line[0] != '\t' && line[|line| - 1] != ' ' && line[|line| - 1] != '\t'))
    requires 'X' !in line
    ensures Cleaned("XCOMM " + line) == if line == "" then "#" else "# " + line
  {
    var s := "XCOMM " + line;
    assert s[0..5] == "XCOMM" && s[5] == ' ' && First(s) == 'X';
    forall k | 6 <= k < |s| ensures !ImakeText.IsToken(s, k) {
      assert s[k] == line[k - 6];
      BeginsWithX(s, k);
    }
    NoMoreTokens(s, 6);
    assert s[6..] == line;
    assert !ImakeText.IsToken(s, 5) by { BeginsWithX(s, 5); }
    assert Uncomment(s, 5) == " " + Uncomment(s, 6);
    assert Uncomment(s, 0) == "#" + (" " + line);
    if line == "" {
      TrimOver("#", " ");
      assert "#" + (" " + line) == "#" + " ";
    } else {
      TrimOver("# " + line, "");
      assert "#" + (" " + line) == ("# " + line) + "";
    }
  }

  lemma BeginsWithX(s: string, i: nat)
    ensures WordAt(s, i, "XCOMM") ==> s[i] == 'X'
  {
    if WordAt(s, i, "XCOMM") { assert s[i..i + 5][0] == s[i]; }
  }

  lemma {:induction false} NoMoreTokens(s: string, i: nat)
    requires i <= |s| && forall k :: i <= k < |s| ==> !ImakeText.IsToken(s, k)
    ensures Uncomment(s, i) == s[i..]
    decreases |s| - i
  {
    if i < |s| {
      NoMoreTokens(s, i + 1);
      assert s[i..] == [s[i]] + s[i + 1..];
    }
  }

  lemma {:induction false} TrimOver(s: string, ws: string)
    requires Blanks(ws) && (s == "" || (s[|s| - 1] != ' ' && s[|s| - 1] != '\t'))
    ensures Trim(s + ws) == s
    decreases |ws|
  {
    if ws == "" {
      assert s + ws == s;
    } else {
      assert (s + ws)[..|s + ws| - 1] == s + ws[..|ws| - 1];
      TrimOver(s, ws[..|ws| - 1]);
    }
  }

  // ---------- what is written ----------

  /** The lines that newlines end in a text. */
  function LinesOf(text: string, line: string): Lines
    decreases |text|
  {
    if text == "" then Nil else if text[0] == '\n' then Line(line, LinesOf(text[1..], "")) else LinesOf(text[1..], line + [text[0]])
  }

  predicate OneLiners(lines: Lines) {
    match lines
    case Nil => true
    case Line(text, more) => '\n' !in text && OneLiners(more)
  }

  lemma {:induction false} LineIsTaken(text: string, more: string, line: string)
    requires '\n' !in text
    ensures LinesOf(text + ("\n" + more), line) == Line(line + text, LinesOf(more, ""))
    decreases |text|
  {
    var t := text + ("\n" + more);
    if text == "" {
      assert t == "\n" + more && t[1..] == more && line + text == line;
    } else {
      assert t[0] == text[0] && t[1..] == text[1..] + ("\n" + more);
      LineIsTaken(text[1..], more, line + [text[0]]);
      assert (line + [text[0]]) + text[1..] == line + text;
    }
  }

  /** Lines that are written can be read again, and every line is ended. */
  lemma {:induction false} TextIsLines(lines: Lines)
    requires OneLiners(lines)
    ensures LinesOf(Text(lines), "") == lines && (Text(lines) != "" ==> Text(lines)[|Text(lines)| - 1] == '\n')
  {
    match lines
    case Nil =>
    case Line(text, more) =>
      TextIsLines(more);
      LineIsTaken(text, Text(more), "");
      assert "" + text == text;
  }
}
