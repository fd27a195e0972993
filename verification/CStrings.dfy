/**
 C strings and the order in which makedepend sorts symbol names.  A string of the
 model carries no terminator of its own; reading at its length yields the NUL.
 */
module CStrings {

  const NUL: char := '\0'

  /** A NUL-terminated string of 7-bit characters, seen without its terminator. */
  type CString = s: string | forall i :: 0 <= i < |s| ==> NUL < s[i] < 128 as char witness ""

  /** What a pointer to offset `i` of `s` reads; the terminator sits at offset `|s|`. */
  function At(s: string, i: nat): char {
    if i < |s| then s[i] else NUL
  }

  /** The order of strcmp. */
  predicate Less(a: string, b: string) {
    b != "" && (a == "" || a[0] < b[0] || (a[0] == b[0] && Less(a[1..], b[1..])))
  }

  lemma {:induction false} LessTransitive(a: string, b: string, c: string)
    requires Less(a, b) && Less(b, c)
    ensures Less(a, c)
  {
    if a == "" || a[0] < b[0] || b[0] < c[0] {
    } else {
      LessTransitive(a[1..], b[1..], c[1..]);
    }
  }

  lemma {:induction false} LessTotal(a: string, b: string)
    ensures Less(a, b) || a == b || Less(b, a)
    ensures !(Less(a, b) && (a == b || Less(b, a)))
    ensures !Less(a, a)
  {
    if a == "" {
    } else {
      LessTotal(a[1..], a[1..]);
      if b != "" && a[0] == b[0] {
        LessTotal(a[1..], b[1..]);
      }
    }
  }

  /** A common prefix does not matter; the first difference decides. */
  lemma {:induction false} LessAtDifference(a: CString, b: CString, i: nat)
    requires i <= |a| && i <= |b| && a[..i] == b[..i]
    requires At(a, i) != At(b, i)
    ensures Less(a, b) <==> At(a, i) < At(b, i)
    ensures Less(b, a) <==> At(b, i) < At(a, i)
  {
    if i > 0 {
      assert a[0] == a[..i][0] == b[0];
      assert a[1..][..i - 1] == a[..i][1..] == b[1..][..i - 1];
      LessAtDifference(a[1..], b[1..], i - 1);
    }
  }

  /**
   The character loop that define2 and slookup run in place of strcmp: it stops at the
   first difference or at the common terminator, and the sign of the difference of the
   two characters it stopped at tells the order.
   */
  method InlineCompare(a: CString, b: CString) returns (sign: int)
    ensures sign == 0 <==> a == b
    ensures sign < 0 <==> Less(a, b)
    ensures sign > 0 <==> Less(b, a)
  {
    var i := 0;
    while At(a, i) == At(b, i)
      invariant i <= |a| && i <= |b|
      invariant a[..i] == b[..i]
      decreases |a| - i
    {
      if At(b, i) == NUL {
        assert a == a[..i] == b[..i] == b;
        LessTotal(a, b);
        return 0;
      }
      i := i + 1;
    }
    LessAtDifference(a, b, i);
    sign := At(a, i) as int - At(b, i) as int;
  }
}
