/**
 What repeated calls of getline return, against the lines of the blanked text.
 */
module LineResults {
  import opened CStrings
  import opened CText
  import opened LineSpec

  predicate IsHash(line: string) { First(line) == '#' }

  /** Nothing but '#' and blanks: getline passes over such a line. */
  predicate IsBare(line: string) { IsHash(line) && forall i :: 1 <= i < |line| ==> IsBlank(line[i]) }

  /**
   A result: where the line starts, the line, where the cursor is left, and the newlines passed; or the end of
   the text; or a read behind the terminator.
   */
  datatype Got = Got(start: nat, line: string, at: nat, newlines: nat) | Done(newlines: nat) | Overrun

  function Passed(newlines: nat, g: Got): Got {
    match g
    case Got(_, _, _, n) => g.(newlines := newlines + n)
    case Done(n) => Done(newlines + n)
    case Overrun => Overrun
  }

  /**
   One call with the cursor at `i`.  After a line passed over the cursor has moved twice, so that the next
   character is not looked at.
   */
  function NextLine(text: string, i: nat): (g: Got)
    requires i <= |text|
    ensures g.Got? ==> i <= g.start < g.at <= |text|
    decreases |text| - i
  {
    if i == |text| then Done(0)
    else
      var t := TakeLine(text, i);
      var n := Newlines(text, i, t.at);
      if !IsHash(t.line) then Passed(n, NextLine(text, t.at))
      else if !t.ended || !IsBare(t.line) then Got(i, t.line, t.at, n)
      else if t.at == |text| then Overrun
      else Passed(n, NextLine(text, t.at + 1))
  }

  /** Lines with their places, in order. */
  datatype Lines = None | Line(start: nat, text: string, more: Lines)

  /** All results, up to the first NULL. */
  function Results(text: string, i: nat): Lines
    requires i <= |text|
    decreases |text| - i
  {
    match NextLine(text, i)
    case Got(start, line, at, _) => Line(start, line, Results(text, at))
    case _ => None
  }

  // ---------- the lines that should be returned ----------

  function Add(line: string, pos: nat, more: Lines): Lines {
    if IsHash(line) then Line(pos, line, more) else more
  }

  /** The length of the first line. */
  function LineLength(b: string): (n: nat)
    ensures n <= |b|
  {
    if b == "" || b[0] == '\n' then 0 else 1 + LineLength(b[1..])
  }

  /** The lines of `b` that begin with '#', with their places. */
  function HashLines(b: string, pos: nat): Lines
    decreases |b|
  {
    var n := LineLength(b);
    Add(b[..n], pos, if n == |b| then None else HashLines(b[n + 1..], pos + n + 1))
  }

  /** Some line ended by a newline is just '#' and blanks. */
  predicate HasBareLine(b: string)
    decreases |b|
  {
    var n := LineLength(b);
    n < |b| && (IsBare(b[..n]) || HasBareLine(b[n + 1..]))
  }

  lemma {:induction false} LineLengthExact(line: string, more: string)
    requires OneLine(line) && (more == "" || more[0] == '\n')
    ensures LineLength(line + more) == |line|
  {
    if line != "" {
      assert (line + more)[1..] == line[1..] + more;
      LineLengthExact(line[1..], more);
    } else {
      assert line + more == more;
    }
  }

  lemma LastLine(line: string, pos: nat)
    requires OneLine(line)
    ensures HashLines(line, pos) == Add(line, pos, None) && !HasBareLine(line)
  {
    LineLengthExact(line, "");
    assert line + "" == line && line[..|line|] == line;
  }

  lemma FirstLine(b: string, line: string, more: string, pos: nat)
    requires OneLine(line) && b == line + ("\n" + more)
    ensures HashLines(b, pos) == Add(line, pos, HashLines(more, pos + |line| + 1))
    ensures HasBareLine(b) <==> IsBare(line) || HasBareLine(more)
  {
    LineLengthExact(line, "\n" + more);
    assert b[..|line|] == line && b[|line| + 1..] == more;
  }

  /** The lines from `i` on that begin with '#', and whether one of those ended is bare. */
  function Wanted(text: string, i: nat): Lines
    requires i <= |text|
  {
    HashLines(Blank(text, i, false), i)
  }

  predicate Tidy(text: string, i: nat)
    requires i <= |text|
  {
    !HasBareLine(Blank(text, i, false))
  }

  lemma WantedAtEnd(text: string, i: nat)
    requires i <= |text| && !TakeLine(text, i).ended
    ensures Wanted(text, i) == Add(TakeLine(text, i).line, i, None) && Tidy(text, i)
  {
    TakeLineIsFirst(text, i);
    LastLine(TakeLine(text, i).line, i);
    assert TakeLine(text, i).line + "" == TakeLine(text, i).line;
  }

  lemma FirstAt(text: string, i: nat)
    requires i <= |text| && TakeLine(text, i).ended
    ensures var t := TakeLine(text, i);
            OneLine(t.line) && Blank(text, i, false) == t.line + ("\n" + Blank(text, t.at, false)) && t.at == i + |t.line| + 1
  {
    TakeLineIsFirst(text, i);
  }

  lemma WantedStep(text: string, i: nat)
    requires i <= |text| && TakeLine(text, i).ended
    ensures Wanted(text, i) == Add(TakeLine(text, i).line, i, Wanted(text, TakeLine(text, i).at))
  {
    FirstAt(text, i);
    FirstLine(Blank(text, i, false), TakeLine(text, i).line, Blank(text, TakeLine(text, i).at, false), i);
  }

  lemma TidyStep(text: string, i: nat)
    requires i <= |text| && TakeLine(text, i).ended
    ensures Tidy(text, i) <==> !IsBare(TakeLine(text, i).line) && Tidy(text, TakeLine(text, i).at)
  {
    FirstAt(text, i);
    FirstLine(Blank(text, i, false), TakeLine(text, i).line, Blank(text, TakeLine(text, i).at, false), i);
  }

  lemma ResultsAhead(text: string, i: nat)
    requires i <= |text|
    ensures Results(text, i) == None || Results(text, i).start >= i
  {
  }

  lemma BareIsLost(text: string, i: nat)
    requires i <= |text| && TakeLine(text, i).ended && IsBare(TakeLine(text, i).line)
    ensures Results(text, i) == None || Results(text, i).start > i
  {
    var at := TakeLine(text, i).at;
    if at < |text| {
      assert Results(text, i) == Results(text, at + 1);
      ResultsAhead(text, at + 1);
    }
  }

  lemma ResultsStep(text: string, i: nat)
    requires i <= |text| && !(TakeLine(text, i).ended && IsBare(TakeLine(text, i).line))
    ensures Results(text, i) == Add(TakeLine(text, i).line, i, Results(text, TakeLine(text, i).at))
  {
  }

  /**
   The calls return every line of the blanked text that begins with '#', in order and with its place,
   exactly when no such line that a newline ends is bare.
   */
  lemma {:induction false} ReturnsAllHashLines(text: string, i: nat)
    requires i <= |text|
    ensures Results(text, i) == Wanted(text, i) <==> Tidy(text, i)
    decreases |text| - i
  {
    var t := TakeLine(text, i);
    if !t.ended {
      WantedAtEnd(text, i);
      ResultsStep(text, i);
    } else {
      WantedStep(text, i);
      TidyStep(text, i);
      if IsBare(t.line) {
        BareIsLost(text, i);
      } else {
        ReturnsAllHashLines(text, t.at);
        ResultsStep(text, i);
      }
    }
  }

  // ---------- counting lines ----------

  /** The counter went up by the newlines between the cursor before and after. */
  predicate CountsRight(text: string, i: nat, g: Got)
    requires i <= |text|
  {
    match g
    case Got(_, _, at, n) => i <= at <= |text| && n == Newlines(text, i, at)
    case Done(n) => n == Newlines(text, i, |text|)
    case Overrun => false
  }

  /** The newlines among the characters that one call does not look at. */
  function Lost(text: string, i: nat): nat
    requires i <= |text|
    decreases |text| - i
  {
    if i == |text| then 0
    else
      var t := TakeLine(text, i);
      if !IsHash(t.line) then Lost(text, t.at)
      else if !t.ended || !IsBare(t.line) || t.at == |text| then 0
      else (if text[t.at] == '\n' then 1 else 0) + Lost(text, t.at + 1)
  }

  /** Together with those the counter is right, on any text. */
  lemma {:induction false} CountsLines(text: string, i: nat)
    requires i <= |text|
    ensures var g := NextLine(text, i); g.Overrun? || CountsRight(text, i, Passed(Lost(text, i), g))
    decreases |text| - i
  {
    if i < |text| {
      var t := TakeLine(text, i);
      if !IsHash(t.line) {
        CountsLines(text, t.at);
        CountsOn(text, i, t.at, NextLine(text, t.at), Lost(text, t.at));
      } else if t.ended && IsBare(t.line) && t.at < |text| {
        CountsLines(text, t.at + 1);
        CountsBare(text, i, t.at, NextLine(text, t.at + 1), Lost(text, t.at + 1));
      }
    }
  }

  lemma CountsBare(text: string, i: nat, at: nat, g: Got, lost: nat)
    requires i <= at < |text| && (g.Overrun? || CountsRight(text, at + 1, Passed(lost, g)))
    ensures var one := if text[at] == '\n' then 1 else 0;
            g.Overrun? || CountsRight(text, i, Passed(one + lost, Passed(Newlines(text, i, at), g)))
  {
    NewlinesOn(text, i, at, at + 1);
    assert Newlines(text, at, at + 1) == if text[at] == '\n' then 1 else 0;
    CountsOn(text, i, at + 1, g, lost);
  }

  lemma CountsOn(text: string, i: nat, j: nat, g: Got, lost: nat)
    requires i <= j <= |text| && (g.Overrun? || CountsRight(text, j, Passed(lost, g)))
    ensures g.Overrun? || CountsRight(text, i, Passed(lost, Passed(Newlines(text, i, j), g)))
  {
    match g
    case Got(_, _, at, _) => NewlinesOn(text, i, j, at);
    case Done(_) => NewlinesOn(text, i, j, |text|);
    case Overrun =>
  }

  /** So it is wrong exactly when a newline is lost. */
  lemma CountsRightIff(text: string, i: nat)
    requires i <= |text| && !NextLine(text, i).Overrun?
    ensures CountsRight(text, i, NextLine(text, i)) <==> Lost(text, i) == 0
  {
    CountsLines(text, i);
  }

  /** As long as no line is bare none is lost, and the rest has no bare line either. */
  lemma {:induction false} TidyLosesNone(text: string, i: nat)
    requires i <= |text| && Tidy(text, i)
    ensures var g := NextLine(text, i); !g.Overrun? && Lost(text, i) == 0 && (g.Got? ==> Tidy(text, g.at))
    decreases |text| - i
  {
    var t := TakeLine(text, i);
    if t.ended {
      TidyStep(text, i);
      if !IsHash(t.line) { TidyLosesNone(text, t.at); }
    } else {
      LastLine("", 0);
    }
  }

  lemma {:induction false} TakeShort(text: string, i: nat, j: nat)
    requires i <= j < |text| && text[j] == '\n' && forall k :: i <= k < j ==> text[k] !in {'/', '\\', '\n'}
    ensures TakeLine(text, i) == Taken(text[i..j], j + 1, true)
    decreases j - i
  {
    if i < j { TakeShort(text, i + 1, j); }
  }

  lemma ExampleWanted(text: string)
    requires text == "#\n#if\n"
    ensures Wanted(text, 0) == Line(0, "#", Line(2, "#if", None))
  {
    TakeShort(text, 0, 1);
    TakeShort(text, 2, 5);
    WantedStep(text, 0);
    WantedStep(text, 2);
    WantedAtEnd(text, 6);
  }

  lemma ExampleReturned(text: string)
    requires text == "#\n#if\n"
    ensures Results(text, 0) == None
  {
    TakeShort(text, 0, 1);
    TakeShort(text, 3, 5);
    ResultsStep(text, 3);
    assert Results(text, 0) == Results(text, 3);
  }

  /** After "#" and a newline the next character is lost: here "#if" with it, so that nothing is returned. */
  lemma BareLineHidesTheNext()
    ensures var text := "#\n#if\n";
            Wanted(text, 0) == Line(0, "#", Line(2, "#if", None)) && Results(text, 0) == None
  {
    ExampleWanted("#\n#if\n");
    ExampleReturned("#\n#if\n");
  }
}
