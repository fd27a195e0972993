/**
 Reading lines as a tree of groups, if they are well nested.
 */
module NestingCheck {
  import opened Directives
  import opened Nesting
  import opened Wrappers

  /** A block up to a line that closes a group, or to the end; None if a conditional in it is not closed. */
  function TakeBlock(lines: seq<Directive>): (r: Option<(Block, seq<Directive>)>)
    ensures r.Some? ==> |r.value.1| <= |lines|
    decreases |lines|, 1
  {
    if lines == [] || Closes(lines[0].kind) then Some((Block.Empty, lines))
    else if Opens(lines[0].kind) then
      match TakeBlock(lines[1..])
      case None => None
      case Some((body, behind)) =>
        (match TakeTail(behind)
         case None => None
         case Some((tail, more)) =>
           (match TakeBlock(more)
            case None => None
            case Some((rest, end)) => Some((Cond(lines[0], body, tail, rest), end))))
    else
      match TakeBlock(lines[1..])
      case None => None
      case Some((rest, end)) => Some((Plain(lines[0], rest), end))
  }

  function TakeTail(lines: seq<Directive>): (r: Option<(Tail, seq<Directive>)>)
    ensures r.Some? ==> |r.value.1| < |lines|
    decreases |lines|, 0
  {
    if lines == [] then None
    else if lines[0].kind.EndIf? then Some((EndTail(lines[0]), lines[1..]))
    else if lines[0].kind.Else? then
      match TakeBlock(lines[1..])
      case None => None
      case Some((body, behind)) =>
        if behind != [] && behind[0].kind.EndIf? then Some((ElseTail(lines[0], body, behind[0]), behind[1..])) else None
    else if lines[0].kind.Elif? then
      match TakeBlock(lines[1..])
      case None => None
      case Some((body, behind)) =>
        (match TakeTail(behind)
         case None => None
         case Some((tail, more)) => Some((ElifTail(lines[0], body, tail), more)))
    else None
  }

  /** The tree of a whole file. */
  function Nest(lines: seq<Directive>): Option<Block> {
    match TakeBlock(lines)
    case None => None
    case Some((b, end)) => if end == [] then Some(b) else None
  }

  lemma {:induction false} TakenBlockIs(lines: seq<Directive>)
    requires TakeBlock(lines).Some?
    ensures var (b, end) := TakeBlock(lines).value; WellNested(b) && Lines(b, end) == lines && (end == [] || Closes(end[0].kind))
    decreases |lines|, 1
  {
    if lines != [] && !Closes(lines[0].kind) {
      TakenBlockIs(lines[1..]);
      assert lines == [lines[0]] + lines[1..];
      if Opens(lines[0].kind) {
        var behind := TakeBlock(lines[1..]).value.1;
        TakenTailIs(behind);
        TakenBlockIs(TakeTail(behind).value.1);
      }
    }
  }

  lemma {:induction false} TakenTailIs(lines: seq<Directive>)
    requires TakeTail(lines).Some?
    ensures var (t, more) := TakeTail(lines).value; WellNestedTail(t) && TailLines(t, more) == lines
    decreases |lines|, 0
  {
    assert lines == [lines[0]] + lines[1..];
    if !lines[0].kind.EndIf? {
      TakenBlockIs(lines[1..]);
      var behind := TakeBlock(lines[1..]).value.1;
      if lines[0].kind.Elif? {
        TakenTailIs(behind);
      } else {
        assert behind == [behind[0]] + behind[1..];
      }
    }
  }

  lemma {:induction false} TakesBlock(b: Block, more: seq<Directive>)
    requires WellNested(b) && (more == [] || Closes(more[0].kind))
    ensures TakeBlock(Lines(b, more)) == Some((b, more))
    decreases b
  {
    match b
    case Empty =>
    case Plain(line, rest) =>
      TakesBlock(rest, more);
      assert Lines(b, more)[1..] == Lines(rest, more);
    case Cond(open, body, tail, rest) =>
      var k := Lines(rest, more);
      assert Lines(b, more)[1..] == Lines(body, TailLines(tail, k));
      TailCloses(tail, k);
      TakesBlock(body, TailLines(tail, k));
      TakesTail(tail, k);
      TakesBlock(rest, more);
  }

  lemma TailCloses(t: Tail, more: seq<Directive>)
    requires WellNestedTail(t)
    ensures TailLines(t, more) != [] && Closes(TailLines(t, more)[0].kind)
  {
  }

  lemma {:induction false} TakesTail(t: Tail, more: seq<Directive>)
    requires WellNestedTail(t)
    ensures TakeTail(TailLines(t, more)) == Some((t, more))
    decreases t
  {
    TailSplits(t, more);
    match t
    case EndTail(line) =>
    case ElseTail(line, body, end) => TakesBlock(body, [end] + more);
    case ElifTail(line, body, tail) =>
      TailCloses(tail, more);
      TakesBlock(body, TailLines(tail, more));
      TakesTail(tail, more);
  }

  /** The check finds the one tree that the lines are, and fails when they are not well nested. */
  lemma NestsExactly(lines: seq<Directive>, b: Block)
    ensures Nest(lines) == Some(b) <==> WellNested(b) && Lines(b, []) == lines
  {
    if Nest(lines) == Some(b) { TakenBlockIs(lines); }
    if WellNested(b) && Lines(b, []) == lines { TakesBlock(b, []); }
  }
}
