/**
 find_includes, gobble and add_include as they run: a cursor that moves through the lines of a
 file, the program's state updated in place, and the jumps between doif and doiffalse.
 */
module Scanner {
  import opened Wrappers
  import Spec = Directives

  /** The lines getline will return, each with what deftype reads off it, and how many it has returned. */
  class FilePointer {
    const lines: seq<Spec.Directive>
    var pos: nat

    constructor (lines: seq<Spec.Directive>)
      ensures this.lines == lines && pos == 0
    {
      this.lines := lines;
      pos := 0;
    }

    ghost predicate Valid()
      reads this
    {
      pos <= |lines|
    }

    function Rest(): seq<Spec.Directive>
      reads this
      requires Valid()
    {
      lines[pos..]
    }

    method GetLine() returns (line: Option<Spec.Directive>)
      requires Valid()
      modifies this`pos
      ensures Valid()
      ensures line == None <==> old(Rest()) == []
      ensures line == None ==> Rest() == []
      ensures line.Some? ==> old(Rest()) != [] && line.value == old(Rest())[0] && Rest() == old(Rest())[1..] && pos == old(pos) + 1
    {
      if pos == |lines| {
        return None;
      }
      line := Some(lines[pos]);
      pos := pos + 1;
    }
  }

  class Makedepend<!W> {
    const ops: Spec.Ops<W>
    const contents: Spec.Contents
    var st: Spec.State<W>

    constructor (ops: Spec.Ops<W>, contents: Spec.Contents, w: W)
      ensures this.ops == ops && this.contents == contents && st == Spec.State(w, {}, [])
    {
      this.ops, this.contents := ops, contents;
      st := Spec.State(w, {}, []);
    }

    method Evaluate(kind: Spec.Kind) returns (b: bool)
      modifies this`st
      ensures (b, st.w) == Spec.Test(ops, kind, old(st.w)) && st == old(st).(w := st.w)
    {
      var r := Spec.Test(ops, kind, st.w);
      b := r.0;
      st := st.(w := r.1);
    }

    method Gobble(filep: FilePointer) returns (stop: Spec.Stop)
      requires filep.Valid()
      modifies this`st, filep`pos
      ensures filep.Valid() && old(filep.pos) <= filep.pos
      ensures stop != Spec.AtEnd ==> old(filep.pos) < filep.pos
      ensures Spec.Gobbled(stop, filep.Rest(), st.w) == Spec.Gobble(ops, old(filep.Rest()), old(st.w))
      ensures st == old(st).(w := st.w)
      decreases |filep.lines| - filep.pos, 0
    {
      ghost var result := Spec.Gobble(ops, filep.Rest(), st.w);
      while true
        invariant filep.Valid() && old(filep.pos) <= filep.pos
        invariant Spec.Gobble(ops, filep.Rest(), st.w) == result
        invariant st == old(st).(w := st.w)
        decreases |filep.lines| - filep.pos
      {
        var line := filep.GetLine();
        if line == None {
          return Spec.AtEnd;
        }
        var kind := line.value.kind;
        if Spec.Opens(kind) {
          GobbleConditional(filep);
        } else if kind.Elif? {
          var b := Evaluate(kind);
          return if b then Spec.AtElif else Spec.AtElifFalse;
        } else if kind.Else? {
          return Spec.AtElse;
        } else if kind.EndIf? {
          return Spec.AtEndIf;
        }
      }
    }

    /** gobble, then again while at an #elif, then once more at an #else. */
    method GobbleConditional(filep: FilePointer)
      requires filep.Valid()
      modifies this`st, filep`pos
      ensures filep.Valid() && old(filep.pos) <= filep.pos
      ensures var r := Spec.GobbleIf(ops, old(filep.Rest()), old(st.w)); filep.Rest() == r.rest && st.w == r.w
      ensures st == old(st).(w := st.w)
      decreases |filep.lines| - filep.pos, 2
    {
      var stop := Gobble(filep);
      GobbleRest(filep, stop);
    }

    method GobbleRest(filep: FilePointer, start: Spec.Stop)
      requires filep.Valid()
      modifies this`st, filep`pos
      ensures filep.Valid() && old(filep.pos) <= filep.pos
      ensures var r := Spec.GobbleRest(ops, start, old(filep.Rest()), old(st.w)); filep.Rest() == r.rest && st.w == r.w
      ensures st == old(st).(w := st.w)
      decreases |filep.lines| - filep.pos, 1
    {
      var stop := start;
      while Spec.IsElif(stop)
        invariant filep.Valid() && old(filep.pos) <= filep.pos
        invariant Spec.GobbleRest(ops, stop, filep.Rest(), st.w) == Spec.GobbleRest(ops, start, old(filep.Rest()), old(st.w))
        invariant st == old(st).(w := st.w)
        decreases |filep.lines| - filep.pos, Spec.IsElif(stop)
      {
        stop := Gobble(filep);
      }
      if stop == Spec.AtElse {
        var _ := Gobble(filep);
      }
    }

    method FindIncludes(filep: FilePointer, file: Spec.File, recursion: nat) returns (stop: Spec.Stop)
      requires filep.Valid()
      modifies this`st, filep`pos
      ensures filep.Valid() && old(filep.pos) <= filep.pos
      ensures Spec.Found(stop, filep.Rest(), st) == Spec.FindIncludes(ops, contents, file, recursion, old(filep.Rest()), old(st))
      decreases Spec.Unsearched(contents, st), |filep.lines| - filep.pos, 2
    {
      ghost var result := Spec.FindIncludes(ops, contents, file, recursion, filep.Rest(), st);
      while true
        invariant filep.Valid() && old(filep.pos) <= filep.pos && old(st).searched <= st.searched
        invariant Spec.FindIncludes(ops, contents, file, recursion, filep.Rest(), st) == result
        decreases |filep.lines| - filep.pos
      {
        var line := filep.GetLine();
        if line == None {
          st := st.(w := ops.finish(st.w, file));
          return Spec.AtEnd;
        }
        var kind := line.value.kind;
        if Spec.Opens(kind) {
          var b := Evaluate(kind);
          Conditional(filep, file, recursion, b);
        } else if (kind.Else? || kind.Elif? || kind.EndIf?) && recursion > 0 {
          return if kind.Else? then Spec.AtElse else if kind.Elif? then Spec.AtElif else Spec.AtEndIf;
        } else if kind.Else? || kind.Elif? {
          var _ := Gobble(filep);
          st := st.(w := ops.define(st.w, file, line.value.text));
        } else if kind.EndIf? {
          st := st.(w := ops.define(st.w, file, line.value.text));
        } else {
          Execute(file, kind);
        }
      }
    }

    /** The code at the labels doif and doiffalse; a goto sets `taken` and goes round once more. */
    method Conditional(filep: FilePointer, file: Spec.File, recursion: nat, first: bool)
      requires filep.Valid()
      modifies this`st, filep`pos
      ensures filep.Valid() && old(filep.pos) <= filep.pos
      ensures var r := Spec.Conditional(ops, contents, file, recursion, first, old(filep.Rest()), old(st));
              filep.Rest() == r.rest && st == r.st
      decreases Spec.Unsearched(contents, st), |filep.lines| - filep.pos, 3
    {
      ghost var result := Spec.Conditional(ops, contents, file, recursion, first, filep.Rest(), st);
      var taken := first;
      while true
        invariant filep.Valid() && old(filep.pos) <= filep.pos && st.searched == old(st).searched
        invariant Spec.Conditional(ops, contents, file, recursion, taken, filep.Rest(), st) == result
        decreases |filep.lines| - filep.pos
      {
        if taken {
          var stop := FindIncludes(filep, file, recursion + 1);
          GobbleRest(filep, stop);
          return;
        }
        var stop := Gobble(filep);
        if stop == Spec.AtElse {
          var _ := FindIncludes(filep, file, recursion + 1);
          return;
        } else if !Spec.IsElif(stop) {
          return;
        }
        taken := stop == Spec.AtElif;
      }
    }

    method Execute(file: Spec.File, kind: Spec.Kind)
      modifies this`st
      ensures st == Spec.Execute(ops, contents, file, kind, old(st))
      decreases Spec.Unsearched(contents, st), 0, 1
    {
      match kind
      case Define(def) => st := st.(w := ops.define(st.w, file, def));
      case Undef(symbol) =>
        if symbol != "" {
          st := st.(w := ops.undefine(st.w, symbol));
        }
      case Include(text) =>
        var r := ops.includeName(st.w, file, text);
        match r.0 {
          case NoName => st := st.(w := r.1);
          case Quoted(name) => AddInclude(file, ops.find(r.1, file, name, true));
          case Bracketed(name) => AddInclude(file, ops.find(r.1, file, name, false));
        }
      case _ =>
    }

    method AddInclude(file: Spec.File, found: (Option<Spec.File>, W))
      modifies this`st
      ensures st == Spec.AddInclude(ops, contents, file, found, old(st))
      decreases Spec.Unsearched(contents, st), 0, 0
    {
      st := st.(w := found.1);
      if found.0.Some? {
        var f := found.0.value;
        st := st.(w := ops.includedBy(st.w, file, f));
        if f !in st.searched {
          st := st.(searched := st.searched + {f}, scanned := st.scanned + [f]);
          if f in contents {
            var content := new FilePointer(contents[f]);
            var _ := FindIncludes(content, f, 0);
          } else {
            // it cannot be opened, reads as empty, and is finished at once
            st := st.(w := ops.finish(st.w, f));
          }
        }
      }
    }
  }
}
