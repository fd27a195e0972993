/**
 getline on the buffer of a file: it blanks comments and splices in place, ends each line it returns
 with a NUL, and moves the file's cursor and line counter.
 */
module LineReader {
  import opened CStrings
  import opened Sequences
  import opened CText
  import opened LineSpec
  import opened LineResults
  import W = Wrappers

  function Front(cur: string, t: Taken): Taken { t.(line := cur + t.line) }

  /** One more piece of the current line. */
  lemma TakePiece(text: string, i: nat, cur: string)
    requires i < |text| && text[i] != '\n'
    ensures Front(cur, TakeLine(text, i)) == Front(cur + Blanked(text, i), TakeLine(text, Next(text, i)))
  {
    Assoc(cur, Blanked(text, i), TakeLine(text, Next(text, i)).line);
  }

  lemma PassedTwice(m: nat, n: nat, g: Got)
    ensures Passed(m, Passed(n, g)) == Passed(m + n, g)
  {
  }

  /** What a call still owes once the line at `bol` is complete: it is passed over, ... */
  lemma OwesNext(text: string, bol: nat, cur: string, at: nat, before: nat)
    requires bol < at <= |text| && TakeLine(text, bol) == Taken(cur, at, true) && !IsHash(cur)
    ensures Passed(before, NextLine(text, bol)) == Passed(before + Newlines(text, bol, at), NextLine(text, at))
  {
    PassedTwice(before, Newlines(text, bol, at), NextLine(text, at));
  }

  /** ... or returned, ... */
  lemma OwesNothing(text: string, bol: nat, cur: string, at: nat, before: nat)
    requires bol < at <= |text| && TakeLine(text, bol) == Taken(cur, at, true) && IsHash(cur) && !IsBare(cur)
    ensures Passed(before, NextLine(text, bol)) == Got(bol, cur, at, before + Newlines(text, bol, at))
  {
  }

  /** ... or bare. */
  lemma OwesBehindBare(text: string, bol: nat, cur: string, at: nat, before: nat)
    requires bol < at <= |text| && TakeLine(text, bol) == Taken(cur, at, true) && IsBare(cur)
    ensures Passed(before, NextLine(text, bol))
            == if at == |text| then Overrun else Passed(before + Newlines(text, bol, at), NextLine(text, at + 1))
  {
    if at < |text| {
      var next := NextLine(text, at + 1);
      assert NextLine(text, bol) == Passed(Newlines(text, bol, at), next);
      PassedTwice(before, Newlines(text, bol, at), next);
    } else {
      assert NextLine(text, bol) == Overrun;
    }
  }

  lemma OwesBehind(text: string, bol: nat, cur: string, at: nat, before: nat)
    requires bol < at <= |text| && TakeLine(text, bol) == Taken(cur, at, true)
    ensures var n, next := before + Newlines(text, bol, at), if IsBare(cur) then at + 1 else at;
            Passed(before, NextLine(text, bol))
            == if IsHash(cur) && !IsBare(cur) then Got(bol, cur, at, n)
               else if next > |text| then Overrun
               else Passed(n, NextLine(text, next))
  {
    if !IsHash(cur) {
      OwesNext(text, bol, cur, at, before);
    } else if IsBare(cur) {
      OwesBehindBare(text, bol, cur, at, before);
    } else {
      OwesNothing(text, bol, cur, at, before);
    }
  }

  lemma OwesAtEnd(text: string, bol: nat, cur: string, before: nat)
    requires bol <= |text| && TakeLine(text, bol) == Taken(cur, |text|, false)
    ensures var n := before + Newlines(text, bol, |text|);
            Passed(before, NextLine(text, bol)) == if IsHash(cur) then Got(bol, cur, |text|, n) else Done(n)
  {
  }

  class FilePointer {
    /** From f_base up to f_end, where a NUL stands. */
    const base: array<char>
    /** f_p and f_line. */
    var p: nat
    var line: nat

    constructor (text: string)
      requires NUL !in text
      ensures p == 0 && line == 0 && Holds(text, 0) && fresh(base)
    {
      base := new char[|text| + 1](i requires 0 <= i => if i < |text| then text[i] else NUL);
      p, line := 0, 0;
    }

    /** From `from` on the buffer is as it was read. */
    predicate Holds(text: string, from: nat)
      reads base
    {
      && base.Length == |text| + 1 && base[|text|] == NUL && NUL !in text
      && forall k :: from <= k < |text| ==> base[k] == text[k]
    }

    /** The text `cur` stands at `bol`. */
    predicate Shows(bol: nat, cur: string)
      reads base
    {
      bol + |cur| <= base.Length && NUL !in cur && forall k :: 0 <= k < |cur| ==> base[bol + k] == cur[k]
    }

    /** The string that a pointer to `bol` is. */
    predicate StringAt(bol: nat, s: string)
      reads base
    {
      Shows(bol, s) && bol + |s| < base.Length && base[bol + |s|] == NUL
    }

    /** The two-character overwriting that begins a comment, and the loop up to its end. */
    method BlankComment(start: nat, ghost text: string) returns (q: nat, newlines: nat)
      requires start < |text| && Holds(text, start) && OpensComment(text, start)
      modifies base
      ensures q == Next(text, start) && Holds(text, q)
      ensures forall k :: start <= k < q ==> base[k] == ' '
      ensures forall k :: 0 <= k < start ==> base[k] == old(base[k])
      ensures newlines == Newlines(text, start, q)
    {
      base[start], base[start + 1] := ' ', ' ';
      q, newlines := start + 2, 0;
      assert Newlines(text, start, start + 1) == 0;
      while base[q] != NUL
        invariant start + 2 <= q <= |text| && Holds(text, q)
        invariant forall k :: start <= k < q ==> base[k] == ' '
        invariant forall k :: 0 <= k < start ==> base[k] == old(base[k])
        invariant newlines == Newlines(text, start, q)
        invariant CommentEnd(text, q) == Next(text, start)
        decreases |text| - q
      {
        if base[q] == '*' && base[q + 1] == '/' {
          base[q], base[q + 1] := ' ', ' ';
          assert Newlines(text, start, q + 1) == newlines;
          q := q + 2;
          break;
        }
        if base[q] == '\n' {
          newlines := newlines + 1;
        }
        base[q] := ' ';
        q := q + 1;
      }
    }

    /** One piece of a line: a comment, a splice or a character. */
    method Consume(bol: nat, start: nat, ghost cur: string, ghost text: string) returns (q: nat, newlines: nat)
      requires start < |text| && Holds(text, start) && text[start] != '\n'
      requires Shows(bol, cur) && bol + |cur| == start
      modifies base
      ensures q == Next(text, start) && Holds(text, q)
      ensures newlines == Newlines(text, start, q)
      ensures Shows(bol, cur + Blanked(text, start))
    {
      q, newlines := start, 0;
      if base[q] == '/' && base[q + 1] == '*' {
        q, newlines := BlankComment(start, text);
      } else if base[q] == '\\' && base[q + 1] == '\n' {
        base[q], base[q + 1] := ' ', ' ';
        assert Newlines(text, start, start + 1) == 0;
        q, newlines := q + 2, 1;
      } else {
        q := q + 1;
      }
    }

    /** Whether there is nothing behind the '#' but blanks. */
    method Punts(bol: nat, ghost cur: string) returns (bare: bool)
      requires StringAt(bol, cur) && IsHash(cur)
      ensures bare == IsBare(cur)
    {
      var cp := bol + 1;
      while base[cp] == ' ' || base[cp] == '\t'
        invariant bol + 1 <= cp <= bol + |cur|
        invariant forall i :: 1 <= i < cp - bol ==> IsBlank(cur[i])
        decreases bol + |cur| - cp
      {
        assert cur[cp - bol] == base[cp];
        cp := cp + 1;
      }
      var k := cp - bol;
      assert k < |cur| ==> base[bol + k] == cur[k] && !IsBlank(cur[k]);
      bare := base[cp] == NUL;
    }

    /** A result of getline as the caller finds it. */
    predicate Outcome(text: string, was: nat, g: Got, r: W.Option<nat>, overrun: bool)
      reads this, base
    {
      match g
      case Got(start, l, at, n) =>
        !overrun && r == W.Some(start) && StringAt(start, l) && p == at && line == was + n && Holds(text, p)
      case Done(n) => !overrun && r == W.None && p == |text| && line == was + n && Holds(text, p)
      case Overrun => overrun
    }

    /** The loop of getline is at `q` of the line at `bol`, of which `cur` is done. */
    ghost predicate Inside(text: string, bol: nat, q: nat, cur: string)
      reads base
    {
      && bol <= q <= |text| && Holds(text, q) && bol + |cur| == q && Shows(bol, cur)
      && TakeLine(text, bol) == Front(cur, TakeLine(text, q))
    }

    /** One turn of the loop that does not end a line. */
    method Advance(bol: nat, start: nat, ghost cur: string, ghost text: string) returns (q: nat, newlines: nat, ghost cur': string)
      requires Inside(text, bol, start, cur) && start < |text| && text[start] != '\n'
      modifies base
      ensures start < q && Inside(text, bol, q, cur')
      ensures Newlines(text, bol, q) == Newlines(text, bol, start) + newlines
    {
      TakePiece(text, start, cur);
      q, newlines := Consume(bol, start, cur, text);
      cur' := cur + Blanked(text, start);
      NewlinesOn(text, bol, start, q);
    }

    /** The end of a line; if it is not returned, `next` is where the next one is taken to begin. */
    method EndLine(bol: nat, q: nat, ghost cur: string, ghost text: string) returns (found: bool, next: nat)
      requires q < |text| && Inside(text, bol, q, cur) && text[q] == '\n'
      modifies base
      ensures TakeLine(text, bol) == Taken(cur, q + 1, true) && Holds(text, q + 1)
      ensures found <==> IsHash(cur) && !IsBare(cur)
      ensures found ==> StringAt(bol, cur)
      ensures next == if IsBare(cur) then q + 2 else q + 1
    {
      assert cur + "" == cur;
      found, next := false, q + 1;
      if base[bol] == '#' {
        base[q] := NUL;
        var bare := Punts(bol, cur);
        if bare {
          next := q + 2;
        } else {
          found := true;
        }
      }
    }

    /** Where a line begins nothing of it is done. */
    lemma Begins(text: string, bol: nat)
      requires bol <= |text| && Holds(text, bol)
      ensures Inside(text, bol, bol, "")
    {
      assert "" + TakeLine(text, bol).line == TakeLine(text, bol).line;
    }

    /** One turn of the loop at a newline. */
    method Turn(bol: nat, q: nat, ghost cur: string, ghost text: string, ghost goal: Got, ghost passed: nat)
      returns (found: bool, next: nat, ghost owed: Got, ghost before: nat)
      requires q < |text| && Inside(text, bol, q, cur) && text[q] == '\n' && goal == Passed(passed, NextLine(text, bol))
      modifies base
      ensures q < next && Holds(text, q + 1) && before == passed + Newlines(text, bol, q) + 1
      ensures found ==> StringAt(bol, cur) && goal == Got(bol, cur, q + 1, before)
      ensures !found && next > |text| ==> goal == Overrun
      ensures !found && next <= |text| ==> Inside(text, next, next, "") && owed == NextLine(text, next)
      ensures !found && next <= |text| ==> goal == Passed(before, owed)
    {
      found, next := EndLine(bol, q, cur, text);
      owed, before := goal, passed + Newlines(text, bol, q) + 1;
      assert Newlines(text, bol, q + 1) == Newlines(text, bol, q) + 1;
      OwesBehind(text, bol, cur, q + 1, passed);
      if next <= |text| {
        owed := NextLine(text, next);
        Begins(text, next);
      }
    }

    /** The end of the text. */
    method Finish(ghost text: string, bol: nat, ghost cur: string, ghost goal: Got, ghost before: nat) returns (r: W.Option<nat>)
      requires Inside(text, bol, |text|, cur) && goal == Passed(before, NextLine(text, bol))
      ensures r == if IsHash(cur) then W.Some(bol) else W.None
      ensures goal == var n := before + Newlines(text, bol, |text|); if IsHash(cur) then Got(bol, cur, |text|, n) else Done(n)
      ensures StringAt(bol, cur)
    {
      assert cur + "" == cur;
      OwesAtEnd(text, bol, cur, before);
      r := if base[bol] == '#' then W.Some(bol) else W.None;
    }

    /**
     Returns the next line that begins with '#' as its place in the buffer, or None; `overrun` marks a read
     behind the buffer.  After a comment that is not closed the source leaves the cursor one further, which
     is behind the end just the same.
     */
    method GetLine(ghost text: string) returns (r: W.Option<nat>, overrun: bool)
      requires p <= |text| && Holds(text, p)
      modifies this, base
      ensures Outcome(text, old(line), NextLine(text, old(p)), r, overrun)
    {
      r, overrun := W.None, false;
      var eof := base.Length - 1;
      if p >= eof {
        return;
      }
      ghost var goal := NextLine(text, p);
      ghost var owed, cur: string, before: nat := goal, "", 0;
      var bol: nat, q: nat, lineno: nat := p, p, line;
      Begins(text, bol);
      while q < eof
        invariant Inside(text, bol, q, cur) && owed == NextLine(text, bol) && goal == Passed(before, owed)
        invariant lineno == old(line) + before + Newlines(text, bol, q)
        decreases eof - q
      {
        if base[q] != '\n' {
          var n;
          q, n, cur := Advance(bol, q, cur, text);
          lineno := lineno + n;
        } else {
          lineno := lineno + 1;
          var found, next;
          found, next, owed, before := Turn(bol, q, cur, text, goal, before);
          if found {
            p, line := q + 1, lineno;
            return W.Some(bol), false;
          }
          if next > eof {
            return W.None, true;
          }
          bol, q, cur := next, next, "";
        }
      }
      r := Finish(text, bol, cur, goal, before);
      p, line := q, lineno;
    }
  }
}
