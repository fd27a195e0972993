/**
 What a preprocessor with a single table of definitions does, which is what the standard describes; with the real
 parser of conditions and the real expansion of #include.  A header that was read for an earlier command-line file is not
 read again: it brings what it left.
 */
module OneTable {
  import opened CStrings
  import opened CText
  import opened Wrappers
  import opened AliasChain
  import opened Cppsetup
  import opened DirectiveText
  import D = Directives

  /** The definitions in force, the headers that have been included, and how many #defines have been executed. */
  datatype View = View(defs: Defs, included: set<D.File>, made: nat)

  /** Identifiers are 7-bit and free of NUL. */
  function AsName(s: string): CString { if forall i :: 0 <= i < |s| ==> NUL < s[i] < 128 as char then s else "" }

  function Defined(v: View, d: string): View { v.(defs := v.defs[AsName(ParseDefine(d).0) := ParseDefine(d).1], made := v.made + 1) }

  function Undefined(v: View, n: string): View { v.(defs := v.defs - {AsName(n)}) }

  function Left(left: map<D.File, Defs>, c: D.File): Defs { if c in left then left[c] else map[] }

  function WithHeader(v: View, left: map<D.File, Defs>, c: D.File): View {
    if c in v.included then v else v.(defs := v.defs + Left(left, c), included := v.included + {c})
  }

  function TheOps(locate: (D.File, string, bool) -> Option<D.File>, left: map<D.File, Defs>): D.Ops<View> {
    D.Ops(
      (v: View, e: string) => (IsTrue(v.defs, e), v),
      (v: View, n: string) => (AsName(n) in v.defs, v),
      (v: View, f: D.File, d: string) => Defined(v, d),
      (v: View, n: string) => Undefined(v, n),
      (v: View, f: D.File, t: string) => (D.ParseInclude(End(v.defs, t)), v),
      (v: View, f: D.File, n: string, quoted: bool) => (locate(f, n, quoted), v),
      (v: View, f: D.File, c: D.File) => WithHeader(v, left, c),
      (v: View, f: D.File) => v)
  }

  /**
   The constraint of section 6.10.3 of ISO/IEC 9899:1999: a macro that is defined may be defined again only as it is.
   */
  predicate MayDefine(v: View, d: string) {
    AsName(ParseDefine(d).0) in v.defs ==> v.defs[AsName(ParseDefine(d).0)] == ParseDefine(d).1
  }

  /** The same for what an included header has left. */
  predicate MayJoin(v: View, left: map<D.File, Defs>, c: D.File) {
    c in v.included || forall x :: x in Left(left, c) && x in v.defs ==> v.defs[x] == Left(left, c)[x]
  }
}
