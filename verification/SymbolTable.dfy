/**
 The sorted symbol tables of makedepend: symtab cells, the i_defs array of an inclist,
 and the operations define2, slookup, merge2defines and the removal step of undefine.
 */
module SymbolTable {
  import opened CStrings
  import opened Sequences

  const SYMTABINC: nat := 10

  /** A definition.  Tables of several files may share a cell after a merge. */
  class Symtab {
    const name: CString
    var value: string

    constructor (name: CString, value: string)
      ensures this.name == name && this.value == value
    {
      this.name := name;
      this.value := value;
    }
  }

  // ---------- tables as sequences of cells ----------

  type Table = seq<Symtab>

  ghost predicate Sorted(t: Table) {
    forall i, j :: 0 <= i < j < |t| ==> Less(t[i].name, t[j].name)
  }

  ghost predicate Holds(t: Table, name: CString) {
    exists i :: 0 <= i < |t| && t[i].name == name
  }

  /** The meaning of a table: the cell that a linear scan finds, null for no such name. */
  ghost function Lookup(t: Table, name: CString): Symtab? {
    if t == [] then null
    else if t[0].name == name then t[0]
    else Lookup(t[1..], name)
  }

  lemma {:induction false} LookupHolds(t: Table, name: CString)
    ensures Lookup(t, name) != null <==> Holds(t, name)
    ensures Lookup(t, name) != null ==> Lookup(t, name) in t && Lookup(t, name).name == name
  {
    if t != [] {
      LookupHolds(t[1..], name);
      if Holds(t, name) && t[0].name != name {
        var i :| 0 <= i < |t| && t[i].name == name;
        assert t[1..][i - 1].name == name;
      }
    }
  }

  lemma SortedTail(t: Table)
    requires t != [] && Sorted(t)
    ensures Sorted(t[1..]) && !Holds(t[1..], t[0].name)
    ensures Lookup(t[1..], t[0].name) == null
  {
    forall i | 0 <= i < |t[1..]| ensures t[1..][i].name != t[0].name {
      LessTotal(t[0].name, t[i + 1].name);
    }
    LookupHolds(t[1..], t[0].name);
  }

  lemma {:induction false} LookupAt(t: Table, i: nat)
    requires Sorted(t) && i < |t|
    ensures Lookup(t, t[i].name) == t[i]
  {
    SortedTail(t);
    if i > 0 {
      LessTotal(t[0].name, t[i].name);
      assert t[1..][i - 1] == t[i];
      LookupAt(t[1..], i - 1);
    }
  }

  /** Nothing before the first name of a sorted table is found in it. */
  lemma LookupBelow(t: Table, name: CString)
    requires Sorted(t) && t != [] && Less(name, t[0].name)
    ensures Lookup(t, name) == null
  {
    forall i | 0 <= i < |t| ensures t[i].name != name {
      if i > 0 {
        LessTransitive(name, t[0].name, t[i].name);
      }
      LessTotal(name, t[i].name);
    }
    LookupHolds(t, name);
  }

  /** A sorted table is determined by its meaning. */
  lemma {:induction false} SortedUnique(t: Table, u: Table)
    requires Sorted(t) && Sorted(u)
    requires forall name: CString :: Lookup(t, name) == Lookup(u, name)
    ensures t == u
  {
    assert t != [] ==> Lookup(t, t[0].name) != null;
    assert u != [] ==> Lookup(u, u[0].name) != null;
    if t != [] {
      var n, m := t[0].name, u[0].name;
      assert Lookup(t, n) == Lookup(u, n) && Lookup(t, m) == Lookup(u, m);
      LessTotal(n, m);
      if Less(n, m) { LookupBelow(u, n); }
      if Less(m, n) { LookupBelow(t, m); }
      SortedTail(t);
      SortedTail(u);
      forall name: CString ensures Lookup(t[1..], name) == Lookup(u[1..], name) {
        assert Lookup(t, name) == Lookup(u, name);
      }
      SortedUnique(t[1..], u[1..]);
    }
  }

  // ---------- merge2defines on sequences ----------

  /** Two sorted tables in one; on a common name the second table's cell stays. */
  ghost function Merge(a: Table, b: Table): Table
    decreases |a| + |b|
  {
    if a == [] then b
    else if b == [] then a
    else if Less(a[0].name, b[0].name) then [a[0]] + Merge(a[1..], b)
    else if Less(b[0].name, a[0].name) then [b[0]] + Merge(a, b[1..])
    else [b[0]] + Merge(a[1..], b[1..])
  }

  ghost predicate AllAbove(name: CString, t: Table) {
    forall i :: 0 <= i < |t| ==> Less(name, t[i].name)
  }

  lemma {:induction false} MergeAbove(name: CString, a: Table, b: Table)
    requires AllAbove(name, a) && AllAbove(name, b)
    ensures AllAbove(name, Merge(a, b))
    decreases |a| + |b|
  {
    if a != [] && b != [] {
      if Less(a[0].name, b[0].name) {
        MergeAbove(name, a[1..], b);
      } else if Less(b[0].name, a[0].name) {
        MergeAbove(name, a, b[1..]);
      } else {
        MergeAbove(name, a[1..], b[1..]);
      }
    }
  }

  lemma SortedCons(c: Symtab, t: Table)
    requires Sorted(t) && AllAbove(c.name, t)
    ensures Sorted([c] + t)
  {
  }

  lemma HeadBelow(t: Table)
    requires Sorted(t) && t != []
    ensures AllAbove(t[0].name, t[1..])
  {
  }

  lemma BelowHead(name: CString, t: Table)
    requires Sorted(t) && (t != [] ==> Less(name, t[0].name))
    ensures AllAbove(name, t)
  {
    forall i | 0 <= i < |t| ensures Less(name, t[i].name) {
      if i > 0 { LessTransitive(name, t[0].name, t[i].name); }
    }
  }

  /** A merge is sorted and means the first table overridden by the second. */
  lemma {:induction false} MergeMeaning(a: Table, b: Table, name: CString)
    requires Sorted(a) && Sorted(b)
    ensures Sorted(Merge(a, b))
    ensures Lookup(Merge(a, b), name) == if Lookup(b, name) != null then Lookup(b, name) else Lookup(a, name)
    decreases |a| + |b|
  {
    if a != [] && b != [] {
      var n, m := a[0].name, b[0].name;
      LessTotal(n, m);
      SortedTail(a);
      SortedTail(b);
      HeadBelow(a);
      HeadBelow(b);
      if Less(n, m) {
        MergeMeaning(a[1..], b, name);
        BelowHead(n, b);
        MergeAbove(n, a[1..], b);
        SortedCons(a[0], Merge(a[1..], b));
        LookupBelow(b, n);
      } else if Less(m, n) {
        MergeMeaning(a, b[1..], name);
        BelowHead(m, a);
        MergeAbove(m, a, b[1..]);
        SortedCons(b[0], Merge(a, b[1..]));
      } else {
        MergeMeaning(a[1..], b[1..], name);
        MergeAbove(m, a[1..], b[1..]);
        SortedCons(b[0], Merge(a[1..], b[1..]));
      }
    }
  }

  lemma {:induction false} MergeLength(a: Table, b: Table)
    ensures |Merge(a, b)| <= |a| + |b|
    decreases |a| + |b|
  {
    if a != [] && b != [] {
      MergeLength(a[1..], b);
      MergeLength(a, b[1..]);
      MergeLength(a[1..], b[1..]);
    }
  }

  // ---------- the table of one file ----------

  /** The size merge2defines allocates for `n` entries. */
  function RoundUp(n: nat): (r: nat)
    ensures n <= r < n + 10 && r % 10 == 0
  {
    n + (SYMTABINC - n % SYMTABINC) % SYMTABINC
  }

  /** One source file: its place in the global array, its name, the files it includes and its table. */
  class Inclist {
    const id: nat
    const file: string
    var list: seq<Inclist>
    var merged: seq<bool>
    var defs: array?<Symtab?>
    var ndefs: nat
    var defChecked: bool
    var finished: bool
    var marked: bool

    constructor (id: nat, file: string)
      ensures this.id == id && this.file == file && Valid() && Cells() == [] && list == [] && merged == []
      ensures defs == null && !defChecked && !finished && !marked
    {
      this.id, this.file := id, file;
      list, merged := [], [];
      defs, ndefs := null, 0;
      defChecked, finished, marked := false, false, false;
    }

    /** The array has room for ndefs rounded up to SYMTABINC, and its first ndefs slots hold sorted cells. */
    ghost predicate Valid()
      reads this, defs
    {
      && (defs == null ==> ndefs == 0)
      && (defs != null ==>
            && RoundUp(ndefs) <= defs.Length
            && (forall i :: 0 <= i < ndefs ==> defs[i] != null)
            && forall i, j :: 0 <= i < j < ndefs ==> Less(defs[i].name, defs[j].name))
      && |list| == |merged|
    }

    ghost function Cells(): (t: Table)
      reads this, defs
      requires Valid()
      ensures Sorted(t)
    {
      if defs == null then [] else defs[..ndefs]
    }

    /** Binary search; the slot is an offset into i_defs. */
    method Slookup(symbol: CString) returns (found: bool, slot: nat)
      requires Valid()
      ensures found <==> Holds(Cells(), symbol)
      ensures found ==> slot < ndefs && defs != null && defs[slot] != null && defs[slot].name == symbol
    {
      var first, last := 0, ndefs - 1;
      while last >= first
        invariant 0 <= first <= last + 1 <= ndefs
        invariant forall i :: 0 <= i < first ==> Cells()[i].name != symbol
        invariant forall i :: last < i < ndefs ==> Cells()[i].name != symbol
      {
        var middle := (first + last) / 2;
        var c := defs[middle].name;
        var sign := InlineCompare(symbol, c);
        if sign == 0 {
          assert Cells()[middle].name == symbol;
          return true, middle;
        }
        if sign > 0 {
          AllBelowFrom(Cells(), middle, symbol);
          first := middle + 1;
        } else {
          AllAboveFrom(Cells(), middle, symbol);
          last := middle - 1;
        }
      }
      return false, 0;
    }

    /**
     The search of define2.  When the name is missing, `below` is one less than the only
     place where it can go: every earlier entry is smaller and every later one larger.
     */
    method FindPlace(name: CString) returns (found: bool, slot: nat, below: int)
      requires Valid()
      ensures found ==> slot < ndefs && Cells()[slot].name == name
      ensures !found && ndefs == 0 ==> below == 0
      ensures !found && ndefs > 0 ==> IsPlace(Cells(), name, below + 1)
    {
      below := 0;
      var first, last := 0, ndefs - 1;
      while last >= first
        invariant 0 <= first <= last + 1 <= ndefs
        invariant forall i :: 0 <= i < first ==> Less(Cells()[i].name, name)
        invariant forall i :: last < i < ndefs ==> Less(name, Cells()[i].name)
        invariant last >= first || ndefs == 0 || below + 1 == first
        invariant ndefs == 0 ==> below == 0
      {
        var middle := (first + last) / 2;
        var c := defs[middle].name;
        var sign := InlineCompare(name, c);
        if sign == 0 {
          return true, middle, below;
        }
        if sign > 0 {
          AllBelowFrom(Cells(), middle, name);
          below := first;
          first := middle + 1;
        } else {
          AllAboveFrom(Cells(), middle, name);
          last := middle - 1;
          below := last;
        }
      }
      return false, 0, below;
    }

    /** Makes space for one more entry before the search, as define2 does. */
    method Reserve()
      requires Valid()
      modifies this`defs
      ensures Valid() && Cells() == old(Cells()) && ndefs == old(ndefs)
      ensures defs != null && ndefs < defs.Length && RoundUp(ndefs + 1) <= defs.Length
      ensures defs == old(defs) || fresh(defs)
    {
      if defs == null {
        defs := new Symtab?[SYMTABINC];
      } else if ndefs % SYMTABINC == 0 {
        Grow();
      }
    }

    /** realloc: the slots move to a bigger array. */
    method Grow()
      requires Valid() && defs != null
      modifies this`defs
      ensures Valid() && Cells() == old(Cells()) && ndefs == old(ndefs)
      ensures fresh(defs) && defs != null && defs.Length == ndefs + SYMTABINC
    {
      ghost var t := Cells();
      var bigger := new Symtab?[ndefs + SYMTABINC];
      CopySlots(defs, 0, ndefs, bigger, 0);
      assert bigger[..ndefs] == bigger[0..ndefs] == t;
      defs := bigger;
      ValidTable(this, t);
    }

    /** Opens a gap at `place` by moving the later slots up, and puts the cell there. */
    method InsertAt(place: nat, c: Symtab)
      requires Valid() && defs != null && RoundUp(ndefs + 1) <= defs.Length
      requires place <= ndefs && IsPlace(Cells(), c.name, place)
      modifies this`ndefs, defs
      ensures Valid() && ndefs == old(ndefs) + 1
      ensures Cells() == old(Cells())[..place] + [c] + old(Cells())[place..]
    {
      ghost var was := Cells();
      ShiftUp(defs, place, ndefs);
      defs[place] := c;
      ndefs := ndefs + 1;
      ghost var t := was[..place] + [c] + was[place..];
      assert defs[..ndefs] == t by {
        SplitAround(defs[..ndefs], place);
        assert defs[..ndefs][..place] == defs[..place] && defs[..ndefs][place + 1..] == defs[place + 1..ndefs];
      }
      assert Sorted(t) by { SortedInsert(was, place, c); }
      ValidTable(this, t);
    }

    /** The value in a cell is replaced. */
    method Overwrite(slot: nat, name: CString, val: string)
      requires Valid() && slot < ndefs && Cells()[slot].name == name
      modifies Cells()[slot]
      ensures Valid() && Cells() == old(Cells()) && Cells()[slot].value == val
      ensures forall other: CString :: Lookup(Cells(), other) == old(Lookup(Cells(), other))
    {
      defs[slot].value := val;
    }

    /** A new cell, where the name belongs. */
    method InsertNew(name: CString, val: string, place: nat)
      requires Valid() && defs != null && RoundUp(ndefs + 1) <= defs.Length && IsPlace(Cells(), name, place)
      modifies this`ndefs, defs
      ensures Valid() && ndefs == old(ndefs) + 1
      ensures old(Lookup(Cells(), name)) == null && fresh(Lookup(Cells(), name)) && Lookup(Cells(), name).value == val
      ensures forall other: CString :: other != name ==> Lookup(Cells(), other) == old(Lookup(Cells(), other))
    {
      ghost var was := Cells();
      PlaceMeansAbsent(was, name, place);
      var stab := new Symtab(name, val);
      InsertAt(place, stab);
      LookupInsertAll(was, place, stab);
    }

    /** Adds a definition, or replaces the value in the cell that already has the name. */
    method Define2(name: CString, val: string)
      requires Valid()
      modifies this`defs, this`ndefs, defs, Cells()
      ensures Valid()
      ensures defs == old(defs) || fresh(defs)
      ensures Lookup(Cells(), name) != null && Lookup(Cells(), name).value == val
      ensures old(Lookup(Cells(), name)) != null ==> Cells() == old(Cells())
      ensures old(Lookup(Cells(), name)) == null ==> fresh(Lookup(Cells(), name)) && ndefs == old(ndefs) + 1
      ensures forall other: CString :: other != name ==> Lookup(Cells(), other) == old(Lookup(Cells(), other))
      ensures forall c :: c in old(Cells()) && c.name != name ==> c.value == old(c.value)
    {
      Reserve();
      var found, slot, below := FindPlace(name);
      if found {
        LookupAt(Cells(), slot);
        Overwrite(slot, name, val);
        return;
      }
      InsertNew(name, val, if below + 1 > ndefs then ndefs else below + 1);
    }

    /** merge2defines(this, from): a fresh array takes the place of the old one. */
    method Merge2Defines(from: Inclist)
      requires Valid() && from.Valid()
      modifies this`defs, this`ndefs
      ensures Valid() && from.Valid()
      ensures Cells() == Merge(old(Cells()), old(from.Cells()))
      ensures defs == null || fresh(defs)
      ensures from != this ==> from.Cells() == old(from.Cells())
    {
      ghost var a, b := Cells(), from.Cells();
      var deflen := ndefs + from.ndefs;
      MergeLength(a, b);
      MergeSorted(a, b);
      if deflen == 0 {
        defs, ndefs := null, 0;
      } else {
        var merge := new Symtab?[RoundUp(deflen)];
        var first := MergeInto(defs, ndefs, from.defs, from.ndefs, merge, a, b);
        RoundUpMonotone(first, deflen);
        defs := merge;
        ndefs := first;
        ValidTable(this, Merge(a, b));
      }
    }

    /** The removal step of undefine: the later slots move down over the given one. */
    method RemoveAt(slot: nat)
      requires Valid() && slot < ndefs
      modifies this`ndefs, defs
      ensures Valid() && ndefs == old(ndefs) - 1
      ensures Cells() == old(Cells())[..slot] + old(Cells())[slot + 1..]
    {
      ghost var was := Cells();
      ndefs := ndefs - 1;
      ShiftDown(defs, slot, ndefs);
      assert defs[..ndefs] == defs[..slot] + defs[slot..ndefs];
      SortedRemove(was, slot);
      RoundUpMonotone(ndefs, ndefs + 1);
      ValidTable(this, was[..slot] + was[slot + 1..]);
    }
  }

  /** The file is in the array, at its place. */
  ghost predicate IsFile(files: seq<Inclist>, f: Inclist) {
    f.id < |files| && files[f.id] == f
  }

  lemma ValidTable(f: Inclist, t: Table)
    requires f.defs != null && RoundUp(f.ndefs) <= f.defs.Length && |f.list| == |f.merged|
    requires f.defs[..f.ndefs] == t && Sorted(t)
    ensures f.Valid() && f.Cells() == t
  {
    assert forall i :: 0 <= i < f.ndefs ==> f.defs[i] == t[i];
  }

  // ---------- loops over arrays of slots ----------

  /** Copies src[lo..hi] to dst from `at` on. */
  method CopySlots(src: array<Symtab?>, lo: nat, hi: nat, dst: array<Symtab?>, at: nat)
    requires src != dst && lo <= hi <= src.Length && at + (hi - lo) <= dst.Length
    modifies dst
    ensures dst[..at] == old(dst[..at])
    ensures dst[at..at + (hi - lo)] == src[lo..hi]
  {
    var i := lo;
    while i < hi
      invariant lo <= i <= hi
      invariant forall k :: 0 <= k < at ==> dst[k] == old(dst[k])
      invariant forall k :: at <= k < at + (i - lo) ==> dst[k] == src[lo + (k - at)]
    {
      dst[at + (i - lo)] := src[i];
      i := i + 1;
    }
  }

  /** Moves a[place..n] up by one place. */
  method ShiftUp(a: array<Symtab?>, place: nat, n: nat)
    requires place <= n < a.Length
    modifies a
    ensures a[..place] == old(a[..place])
    ensures a[place + 1..n + 1] == old(a[place..n])
  {
    var sp := n;
    while sp > place
      invariant place <= sp <= n
      invariant forall k :: 0 <= k < sp ==> a[k] == old(a[k])
      invariant forall k :: sp < k <= n ==> a[k] == old(a[k - 1])
      decreases sp
    {
      a[sp] := a[sp - 1];
      sp := sp - 1;
    }
  }

  /** Moves a[slot + 1..n + 1] down by one place. */
  method ShiftDown(a: array<Symtab?>, slot: nat, n: nat)
    requires slot <= n < a.Length
    modifies a
    ensures a[..slot] == old(a[..slot])
    ensures a[slot..n] == old(a[slot + 1..n + 1])
  {
    var ptr := slot;
    while ptr < n
      invariant slot <= ptr <= n
      invariant forall k :: 0 <= k < slot ==> a[k] == old(a[k])
      invariant forall k :: slot <= k < ptr ==> a[k] == old(a[k + 1])
      invariant forall k :: ptr <= k <= n ==> a[k] == old(a[k])
    {
      a[ptr] := a[ptr + 1];
      ptr := ptr + 1;
    }
  }

  /** The merge loops: fills `out` from the tables `a` and `b` that the first slots of d1 and d2 hold. */
  method MergeInto(d1: array?<Symtab?>, n1: nat, d2: array?<Symtab?>, n2: nat, out: array<Symtab?>, ghost a: Table, ghost b: Table)
      returns (first: nat)
    requires HoldsTable(d1, n1, a) && HoldsTable(d2, n2, b)
    requires out != d1 && out != d2 && n1 + n2 <= out.Length
    modifies out
    ensures first <= n1 + n2 <= out.Length
    ensures out[..first] == Merge(a, b)
  {
    var first1, first2;
    first, first1, first2 := MergeHeads(d1, n1, d2, n2, out, a, b);
    ghost var m := Merge(a, b);
    ghost var k := first;
    assert m == m[..k] + m[k..];
    if first1 < n1 {
      CopySlots(d1, first1, n1, out, first);
      first := first + (n1 - first1);
    } else if first2 < n2 {
      CopySlots(d2, first2, n2, out, first);
      first := first + (n2 - first2);
    }
    assert out[..first] == out[..k] + out[k..first];
  }

  ghost predicate HoldsTable(d: array?<Symtab?>, n: nat, t: Table)
    reads d
  {
    if d == null then n == 0 && t == [] else n <= d.Length && d[..n] == t
  }

  /** The first merge loop runs until one of the tables is used up. */
  method MergeHeads(d1: array?<Symtab?>, n1: nat, d2: array?<Symtab?>, n2: nat, out: array<Symtab?>, ghost a: Table, ghost b: Table)
      returns (first: nat, first1: nat, first2: nat)
    requires HoldsTable(d1, n1, a) && HoldsTable(d2, n2, b)
    requires out != d1 && out != d2 && n1 + n2 <= out.Length
    modifies out
    ensures first1 <= n1 && first2 <= n2 && first <= first1 + first2
    ensures first1 == n1 || first2 == n2
    ensures first <= |Merge(a, b)| && out[..first] == Merge(a, b)[..first]
    ensures Merge(a, b)[first..] == Merge(a[first1..], b[first2..])
  {
    first, first1, first2 := 0, 0, 0;
    ghost var m := Merge(a, b);
    while first1 < n1 && first2 < n2
      invariant first1 <= n1 && first2 <= n2 && first <= first1 + first2 && first <= |m|
      invariant forall k :: 0 <= k < first ==> out[k] == m[k]
      invariant m[first..] == Merge(a[first1..], b[first2..])
      invariant HoldsTable(d1, n1, a) && HoldsTable(d2, n2, b)
      decreases n1 - first1 + n2 - first2
    {
      var s1, s2 := d1[first1], d2[first2];
      assert s1 == a[first1] && s2 == b[first2];
      MergeStep(a, b, first1, first2, m, first);
      if Less(s1.name, s2.name) {
        out[first] := s1;
        first1 := first1 + 1;
      } else {
        out[first] := s2;
        if !Less(s2.name, s1.name) {
          first1 := first1 + 1;
        }
        first2 := first2 + 1;
      }
      first := first + 1;
    }
  }

  /** One step of the merge, at offsets `i` and `j` of the tables and `k` of the result `m`. */
  lemma MergeStep(a: Table, b: Table, i: nat, j: nat, m: Table, k: nat)
    requires i < |a| && j < |b| && k <= |m|
    requires m[k..] == Merge(a[i..], b[j..])
    ensures k < |m| && m[k] == if Less(a[i].name, b[j].name) then a[i] else b[j]
    ensures m[k + 1..] ==
            if Less(a[i].name, b[j].name) then Merge(a[i + 1..], b[j..])
            else if Less(b[j].name, a[i].name) then Merge(a[i..], b[j + 1..])
            else Merge(a[i + 1..], b[j + 1..])
  {
    assert a[i..][1..] == a[i + 1..] && b[j..][1..] == b[j + 1..];
    assert m[k + 1..] == m[k..][1..];
  }

  lemma MergeSorted(a: Table, b: Table)
    requires Sorted(a) && Sorted(b)
    ensures Sorted(Merge(a, b))
  {
    MergeMeaning(a, b, "");
  }

  lemma RoundUpMonotone(m: nat, n: nat)
    requires m <= n
    ensures RoundUp(m) <= RoundUp(n)
  {
  }

  lemma SortedRemove(t: Table, slot: nat)
    requires Sorted(t) && slot < |t|
    ensures Sorted(t[..slot] + t[slot + 1..])
  {
  }

  // ---------- insertion ----------

  /** `place` is where `name` belongs in `t`: what precedes is smaller, what follows is larger. */
  ghost predicate IsPlace(t: Table, name: CString, place: int) {
    && 0 <= place <= |t|
    && (forall i :: 0 <= i < place ==> Less(t[i].name, name))
    && (forall i :: place <= i < |t| ==> Less(name, t[i].name))
  }

  lemma PlaceMeansAbsent(t: Table, name: CString, place: nat)
    requires Sorted(t) && IsPlace(t, name, place)
    ensures Lookup(t, name) == null
  {
    forall i | 0 <= i < |t| ensures t[i].name != name {
      LessTotal(t[i].name, name);
    }
    LookupHolds(t, name);
  }

  lemma SortedInsert(t: Table, place: nat, c: Symtab)
    requires Sorted(t) && IsPlace(t, c.name, place)
    ensures Sorted(t[..place] + [c] + t[place..])
  {
  }

  lemma {:induction false} LookupInsert(t: Table, place: nat, c: Symtab, name: CString)
    requires Sorted(t) && IsPlace(t, c.name, place)
    ensures Lookup(t[..place] + [c] + t[place..], name) == if name == c.name then c else Lookup(t, name)
  {
    var u := t[..place] + [c] + t[place..];
    if place == 0 {
      assert u == [c] + t;
    } else {
      LessTotal(t[0].name, c.name);
      SortedTail(t);
      assert t[1..][..place - 1] == t[..place][1..] && t[1..][place - 1..] == t[place..];
      assert u[1..] == t[1..][..place - 1] + [c] + t[1..][place - 1..];
      LookupInsert(t[1..], place - 1, c, name);
    }
  }

  lemma LookupInsertAll(t: Table, place: nat, c: Symtab)
    requires Sorted(t) && IsPlace(t, c.name, place)
    ensures forall name: CString ::
              Lookup(t[..place] + [c] + t[place..], name) == if name == c.name then c else Lookup(t, name)
  {
    forall name: CString {
      LookupInsert(t, place, c, name);
    }
  }

  lemma AllBelowFrom(t: Table, middle: nat, name: CString)
    requires Sorted(t) && middle < |t| && Less(t[middle].name, name)
    ensures forall i :: 0 <= i <= middle ==> Less(t[i].name, name) && t[i].name != name
  {
    forall i | 0 <= i <= middle ensures Less(t[i].name, name) && t[i].name != name {
      if i < middle { LessTransitive(t[i].name, t[middle].name, name); }
      LessTotal(t[i].name, name);
    }
  }

  lemma AllAboveFrom(t: Table, middle: nat, name: CString)
    requires Sorted(t) && middle < |t| && Less(name, t[middle].name)
    ensures forall i :: middle <= i < |t| ==> Less(name, t[i].name) && t[i].name != name
  {
    forall i | middle <= i < |t| ensures Less(name, t[i].name) && t[i].name != name {
      if middle < i { LessTransitive(name, t[middle].name, t[i].name); }
      LessTotal(name, t[i].name);
    }
  }
}
