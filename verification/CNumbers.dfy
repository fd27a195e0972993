/**
 strtol of the C library, and arithmetic on C's long with every undefined result made explicit.
 */
module CNumbers {
  import opened CStrings
  import opened CText

  const LONG_BITS: nat := 64
  const LONG_MAX: int := 0x7fff_ffff_ffff_ffff
  const LONG_MIN: int := -LONG_MAX - 1

  // ---------- strtol ----------

  /** The value of a digit; 99 for a character that is none. */
  function DigitValue(c: char): int {
    if '0' <= c <= '9' then c as int - '0' as int
    else if 'a' <= c <= 'z' then c as int - 'a' as int + 10
    else if 'A' <= c <= 'Z' then c as int - 'A' as int + 10
    else 99
  }

  /** The number of digits at the front. */
  function DigitRun(s: string, base: nat): (n: nat)
    ensures n <= |s| && (n < |s| ==> DigitValue(s[n]) >= base)
  {
    if s != "" && DigitValue(s[0]) < base then 1 + DigitRun(s[1..], base) else 0
  }

  lemma {:induction false} DigitRunHolds(s: string, base: nat)
    ensures forall i :: 0 <= i < DigitRun(s, base) ==> DigitValue(s[i]) < base
  {
    if s != "" && DigitValue(s[0]) < base {
      DigitRunHolds(s[1..], base);
      assert forall i :: 0 < i < DigitRun(s, base) ==> s[i] == s[1..][i - 1];
    }
  }

  lemma {:induction false} DigitRunExact(a: string, s: string, base: nat)
    requires forall i :: 0 <= i < |a| ==> DigitValue(a[i]) < base
    requires s == "" || DigitValue(s[0]) >= base
    ensures DigitRun(a + s, base) == |a|
  {
    if a != "" {
      assert (a + s)[1..] == a[1..] + s;
      DigitRunExact(a[1..], s, base);
    } else {
      assert a + s == s;
    }
  }

  function Digits(s: string, base: nat): int {
    if s == "" then 0 else Digits(s[..|s| - 1], base) * base + DigitValue(s[|s| - 1])
  }

  /** How many characters were read, and the number they stand for. */
  datatype Scan = Scan(len: nat, val: int)

  predicate HasHexPrefix(s: string) {
    |s| >= 3 && s[0] == '0' && (s[1] == 'x' || s[1] == 'X') && DigitValue(s[2]) < 16
  }

  /** The unsigned part of strtol; base 0 goes by the prefix. */
  function Magnitude(s: string, base: nat): (r: Scan)
    ensures r.len <= |s|
  {
    if (base == 0 || base == 16) && HasHexPrefix(s) then
      var n := DigitRun(s[2..], 16);
      Scan(2 + n, Digits(s[2..2 + n], 16))
    else
      var b := if base != 0 then base else if First(s) == '0' then 8 else 10;
      var n := DigitRun(s, b);
      Scan(n, Digits(s[..n], b))
  }

  /** Out of range, strtol returns the nearest long. */
  function Clamp(n: int): int {
    if n > LONG_MAX then LONG_MAX else if n < LONG_MIN then LONG_MIN else n
  }

  function Strtol(s: string, base: nat): Scan {
    var t := SkipSpace(s);
    var u := if First(t) == '-' || First(t) == '+' then t[1..] else t;
    var m := Magnitude(u, base);
    if m.len == 0 then Scan(0, 0)
    else Scan(|s| - |u| + m.len, Clamp(if First(t) == '-' then -m.val else m.val))
  }

  /** A complete number is read as such whatever follows, unless that could extend it. */
  lemma MagnitudeStops(body: string, s: string)
    requires body != "" && Magnitude(body, 0).len == |body|
    requires s == "" || (DigitValue(s[0]) >= 16 && s[0] != 'x' && s[0] != 'X')
    ensures Magnitude(body + s, 0) == Magnitude(body, 0)
  {
    var t := body + s;
    if HasHexPrefix(body) {
      assert t[2..] == body[2..] + s;
      DigitRunHolds(body[2..], 16);
      DigitRunExact(body[2..], s, 16);
      assert t[2..2 + |body[2..]|] == body[2..] == body[2..2 + |body[2..]|];
    } else {
      var b: nat := if First(body) == '0' then 8 else 10;
      assert !HasHexPrefix(t);
      DigitRunHolds(body, b);
      DigitRunExact(body, s, b);
      assert t[..|body|] == body == body[..|body|];
    }
  }

  /** Digits that end before the end of `a` end there with anything behind `a`. */
  lemma {:induction false} DigitRunInside(a: string, s: string, base: nat)
    requires DigitRun(a, base) < |a|
    ensures DigitRun(a + s, base) == DigitRun(a, base)
  {
    if DigitValue(a[0]) < base {
      assert (a + s)[1..] == a[1..] + s;
      DigitRunInside(a[1..], s, base);
    }
  }

  lemma {:induction false} SkipSpaceInside(a: string, s: string)
    requires SkipSpace(a) != ""
    ensures SkipSpace(a + s) == SkipSpace(a) + s
  {
    if IsSpace(a[0]) {
      assert (a + s)[1..] == a[1..] + s;
      SkipSpaceInside(a[1..], s);
    }
  }

  predicate EndsInQuote(q: string) { q != "" && q[|q| - 1] == '\'' }

  /** strtol sees nothing behind a quote. */
  lemma StrtolStopsAtQuote(q: string, s: string, base: nat)
    requires EndsInQuote(q) && (base == 8 || base == 16)
    ensures Strtol(q + s, base).val == Strtol(q, base).val
  {
    QuoteStaysLast(q);
    SkipSpaceInside(q, s);
    var t := SkipSpace(q);
    if First(t) == '-' || First(t) == '+' {
      assert (t + s)[1..] == t[1..] + s;
      MagnitudeStopsAtQuote(t[1..], s, base);
    } else {
      MagnitudeStopsAtQuote(t, s, base);
    }
  }

  lemma DigitsBeforeQuote(u: string, base: nat)
    requires EndsInQuote(u) && base <= 16
    ensures DigitRun(u, base) < |u|
  {
    DigitRunHolds(u, base);
  }

  lemma MagnitudeStopsAtQuote(u: string, s: string, base: nat)
    requires EndsInQuote(u) && (base == 8 || base == 16)
    ensures Magnitude(u + s, base) == Magnitude(u, base)
  {
    var t := u + s;
    assert HasHexPrefix(t) == HasHexPrefix(u);
    if base == 16 && HasHexPrefix(u) {
      assert t[2..] == u[2..] + s;
      DigitsBeforeQuote(u[2..], 16);
      DigitRunInside(u[2..], s, 16);
      var n := DigitRun(u[2..], 16);
      assert t[2..2 + n] == u[2..2 + n];
    } else {
      DigitsBeforeQuote(u, base);
      DigitRunInside(u, s, base);
      var n := DigitRun(u, base);
      assert t[..n] == u[..n];
    }
  }

  lemma {:induction false} QuoteStaysLast(q: string)
    requires EndsInQuote(q)
    ensures EndsInQuote(SkipSpace(q))
  {
    if IsSpace(q[0]) {
      QuoteStaysLast(q[1..]);
    }
  }

  /** A number in decimal, without leading zeros. */
  function Decimal(n: nat): (s: string)
    ensures s != "" && (n > 0 ==> s[0] != '0') && forall i :: 0 <= i < |s| ==> IsDigit(s[i])
  {
    if n < 10 then [('0' as int + n) as char] else Decimal(n / 10) + [('0' as int + n % 10) as char]
  }

  lemma {:induction false} DecimalDigits(n: nat)
    ensures Digits(Decimal(n), 10) == n
  {
    if n >= 10 {
      DecimalDigits(n / 10);
      var s := Decimal(n);
      assert s[..|s| - 1] == Decimal(n / 10);
    } else {
      var s := Decimal(n);
      assert s[..|s| - 1] == "";
    }
  }

  /** strtol with base 0 reads back every number written in decimal, up to the nearest long. */
  lemma DecimalRoundTrip(n: nat)
    ensures Strtol(Decimal(n), 0) == Scan(|Decimal(n)|, Clamp(n))
    ensures Strtol("-" + Decimal(n), 0) == Scan(1 + |Decimal(n)|, Clamp(-(n as int)))
  {
    var s := Decimal(n);
    DecimalDigits(n);
    DecimalMagnitude(n);
    assert ("-" + s)[1..] == s;
  }

  lemma DecimalMagnitude(n: nat)
    ensures Magnitude(Decimal(n), 0) == Scan(|Decimal(n)|, n)
  {
    var s := Decimal(n);
    DecimalDigits(n);
    assert !HasHexPrefix(s);
    if n == 0 {
      assert s == "0" && DigitRun("0", 8) == 1 by { DigitRunExact("0", "", 8); assert "0" + "" == "0"; }
      assert s[..1] == s && Digits("0", 8) == 0;
    } else {
      DigitRunExact(s, "", 10);
      assert s + "" == s && s[..|s|] == s;
    }
  }

  /** Where no number stands there is none: nothing is read, and the value is 0. */
  lemma NoNumber(ws: string, s: string, base: nat)
    requires AllSpace(ws) && (base == 0 || base == 8 || base == 16)
    requires s == "" || (DigitValue(s[0]) >= 16 && s[0] != '-' && s[0] != '+' && !IsSpace(s[0]))
    ensures Strtol(ws + s, base) == Scan(0, 0)
  {
    SkipSpaceOver(ws, s);
    assert SkipSpace(s) == s;
  }

  /** White space and a sign in front of a number belong to it. */
  lemma SignedRoundTrip(ws: string, n: nat)
    requires AllSpace(ws)
    ensures Strtol(ws + Decimal(n), 0) == Scan(|ws| + |Decimal(n)|, Clamp(n))
    ensures Strtol(ws + ("+" + Decimal(n)), 0) == Scan(|ws| + 1 + |Decimal(n)|, Clamp(n))
    ensures Strtol(ws + ("-" + Decimal(n)), 0) == Scan(|ws| + 1 + |Decimal(n)|, Clamp(-(n as int)))
  {
    var d := Decimal(n);
    DecimalMagnitude(n);
    SkipSpaceOver(ws, d);
    SkipSpaceOver(ws, "+" + d);
    SkipSpaceOver(ws, "-" + d);
    assert SkipSpace(d) == d && SkipSpace("+" + d) == "+" + d && SkipSpace("-" + d) == "-" + d;
    assert ("+" + d)[1..] == d && ("-" + d)[1..] == d;
  }

  /** The digits of section 6.4.4.1 of ISO/IEC 9899:1999, with large or small letters. */
  function DigitOf(d: nat, large: bool): (c: char)
    requires d < 16
    ensures DigitValue(c) == d
  {
    if large then "0123456789ABCDEF"[d] else "0123456789abcdef"[d]
  }

  /** A number in a base up to 16, without leading zeros. */
  function InBase(n: nat, base: nat, large: bool): (s: string)
    requires 2 <= base <= 16
    ensures s != "" && forall i :: 0 <= i < |s| ==> DigitValue(s[i]) < base
  {
    if n < base then [DigitOf(n, large)] else InBase(n / base, base, large) + [DigitOf(n % base, large)]
  }

  lemma {:induction false} InBaseDigits(n: nat, base: nat, large: bool)
    requires 2 <= base <= 16
    ensures Digits(InBase(n, base, large), base) == n
    decreases n
  {
    if n >= base {
      InBaseDigits(n / base, base, large);
      OneDigitMore(InBase(n / base, base, large), DigitOf(n % base, large), base);
      DivMod(n, base, n / base, n % base);
    } else {
      OneDigitMore("", DigitOf(n, large), base);
      assert "" + [DigitOf(n, large)] == [DigitOf(n, large)];
    }
  }

  lemma OneDigitMore(s: string, c: char, base: nat)
    ensures Digits(s + [c], base) == base * Digits(s, base) + DigitValue(c)
  {
    assert (s + [c])[..|s|] == s;
  }

  /** "0x" begins a number in base 16, "0" one in base 8. */
  lemma PrefixedMagnitude(n: nat, large: bool)
    ensures Magnitude("0x" + InBase(n, 16, large), 0) == Scan(2 + |InBase(n, 16, large)|, n)
    ensures Magnitude("0X" + InBase(n, 16, large), 0) == Scan(2 + |InBase(n, 16, large)|, n)
    ensures Magnitude("0" + InBase(n, 8, large), 0) == Scan(1 + |InBase(n, 8, large)|, n)
  {
    HexMagnitude("0x", n, large);
    HexMagnitude("0X", n, large);
    OctalMagnitude(n, large);
  }

  lemma HexMagnitude(prefix: string, n: nat, large: bool)
    requires prefix == "0x" || prefix == "0X"
    ensures Magnitude(prefix + InBase(n, 16, large), 0) == Scan(2 + |InBase(n, 16, large)|, n)
  {
    var d := InBase(n, 16, large);
    var s := prefix + d;
    assert s[2..] == d && d + "" == d && s[2..2 + |d|] == d;
    DigitRunExact(d, "", 16);
    InBaseDigits(n, 16, large);
    assert HasHexPrefix(s);
  }

  lemma OctalMagnitude(n: nat, large: bool)
    ensures Magnitude("0" + InBase(n, 8, large), 0) == Scan(1 + |InBase(n, 8, large)|, n)
  {
    var d := InBase(n, 8, large);
    var s := "0" + d;
    assert !HasHexPrefix(s) by { assert DigitValue(s[1]) < 8; }
    assert s + "" == s && s[..|s|] == s;
    DigitRunExact(s, "", 8);
    InBaseDigits(n, 8, large);
    ZeroInFront(d, 8);
  }

  lemma {:induction false} ZeroInFront(d: string, base: nat)
    ensures Digits("0" + d, base) == Digits(d, base)
  {
    var s := "0" + d;
    if d != "" {
      assert s[..|s| - 1] == "0" + d[..|d| - 1];
      ZeroInFront(d[..|d| - 1], base);
    } else {
      assert s == "0" && s[..0] == "";
    }
  }

  /** Digits are read up to a quote. */
  lemma DigitsUpToQuote(n: nat, base: nat, large: bool)
    requires base == 8 || base == 16
    ensures Strtol(InBase(n, base, large) + "'", base) == Scan(|InBase(n, base, large)|, Clamp(n))
  {
    var d := InBase(n, base, large);
    var s := d + "'";
    assert s[0] == d[0] && SkipSpace(s) == s;
    assert !HasHexPrefix(s) by { assert |d| > 1 ==> DigitValue(s[1]) < base; }
    DigitRunExact(d, "'", base);
    assert s[..|d|] == d;
    InBaseDigits(n, base, large);
  }

  // ---------- long arithmetic ----------

  /** A long, or the mark that C leaves the computation undefined. */
  datatype Num = Num(n: int) | Undef

  function Fit(n: int): Num {
    if LONG_MIN <= n <= LONG_MAX then Num(n) else Undef
  }

  function Abs(n: int): nat { if n < 0 then -n else n }

  /** Division truncates toward zero; the remainder has the sign of the dividend. */
  function Quotient(a: int, b: int): int
    requires b != 0
  {
    if (a < 0) == (b < 0) then Abs(a) / Abs(b) else -(Abs(a) / Abs(b))
  }

  function Remainder(a: int, b: int): int
    requires b != 0
  {
    a - b * Quotient(a, b)
  }

  function Pow2(n: nat): nat { if n == 0 then 1 else 2 * Pow2(n - 1) }

  lemma {:induction false} Pow2Positive(n: nat)
    ensures Pow2(n) > 0
  {
    if n > 0 { Pow2Positive(n - 1); }
  }

  function ShiftLeft(a: int, b: int): Num {
    if a < 0 || b < 0 || b >= LONG_BITS then Undef else Fit(a * Pow2(b))
  }

  /** The arithmetic shift of the compilers at hand. */
  function ShiftRight(a: int, b: int): Num {
    if b < 0 || b >= LONG_BITS then Undef else Pow2Positive(b); Num(a / Pow2(b))
  }

  /** Two's complement, one bit at a time; `bit` combines two bits. */
  function Bitwise(a: int, b: int, bit: (bool, bool) -> bool): int
    decreases Abs(a) + Abs(b)
  {
    if -1 <= a <= 0 && -1 <= b <= 0 then (if bit(a == -1, b == -1) then -1 else 0)
    else Bitwise(a / 2, b / 2, bit) * 2 + (if bit(a % 2 == 1, b % 2 == 1) then 1 else 0)
  }

  predicate Both(x: bool, y: bool) { x && y }

  predicate Differ(x: bool, y: bool) { x != y }

  predicate Either(x: bool, y: bool) { x || y }

  lemma Signs(n: int, q: int)
    ensures (-n) * q == -(n * q) == n * -q && (-n) * -q == n * q
  {
  }

  lemma DivMod(m: nat, n: nat, q: nat, r: nat)
    requires n > 0 && q == m / n && r == m % n
    ensures m == n * q + r && r < n
  {
  }

  /** What C promises of / and %. */
  lemma QuotientTruncates(a: int, b: int)
    requires b != 0
    ensures a == b * Quotient(a, b) + Remainder(a, b) && Abs(Remainder(a, b)) < Abs(b)
    ensures Remainder(a, b) != 0 ==> (Remainder(a, b) < 0 <==> a < 0)
  {
    var m: nat, n: nat := Abs(a), Abs(b);
    var q: nat, r: nat := m / n, m % n;
    DivMod(m, n, q, r);
    Signs(n, q);
    assert b * Quotient(a, b) == if a < 0 then -(n * q) else n * q;
  }

  /** The bit at place `k` of a number in two's complement. */
  predicate Bit(a: int, k: nat)
    decreases k
  {
    if k == 0 then a % 2 == 1 else Bit(a / 2, k - 1)
  }

  lemma {:induction false} SignBits(a: int, k: nat)
    requires -1 <= a <= 0
    ensures Bit(a, k) <==> a == -1
    decreases k
  {
    if k > 0 {
      assert a / 2 == a;
      SignBits(a, k - 1);
    }
  }

  /** Bitwise operators work bit by bit, at every place. */
  lemma {:induction false} BitwiseBits(a: int, b: int, bit: (bool, bool) -> bool, k: nat)
    ensures Bit(Bitwise(a, b, bit), k) <==> bit(Bit(a, k), Bit(b, k))
    decreases k
  {
    var r := Bitwise(a, b, bit);
    if -1 <= a <= 0 && -1 <= b <= 0 {
      SignBits(a, k);
      SignBits(b, k);
      SignBits(r, k);
    } else {
      var low := if bit(a % 2 == 1, b % 2 == 1) then 1 else 0;
      assert r == Bitwise(a / 2, b / 2, bit) * 2 + low;
      assert r / 2 == Bitwise(a / 2, b / 2, bit) && r % 2 == low;
      if k > 0 { BitwiseBits(a / 2, b / 2, bit, k - 1); }
    }
  }

  lemma HalfIsSmaller(n: int)
    ensures Abs(n / 2) <= Abs(n)
    ensures !(-1 <= n <= 0) ==> Abs(n / 2) < Abs(n)
  {
  }

  /** The bits tell numbers apart. */
  lemma {:induction false} SameBits(m: int, n: int)
    requires forall k: nat :: Bit(m, k) == Bit(n, k)
    ensures m == n
    decreases Abs(m) + Abs(n)
  {
    assert Bit(m, 0) == Bit(n, 0);
    if !(-1 <= m <= 0 && -1 <= n <= 0) {
      forall k: nat ensures Bit(m / 2, k) == Bit(n / 2, k) {
        assert Bit(m, k + 1) == Bit(n, k + 1);
      }
      HalfIsSmaller(m);
      HalfIsSmaller(n);
      SameBits(m / 2, n / 2);
    }
  }

  predicate GroupsEitherWay(bit: (bool, bool) -> bool, x: bool, y: bool, z: bool) {
    bit(x, bit(y, z)) == bit(bit(x, y), z)
  }

  lemma BitAssociates(a: int, b: int, c: int, bit: (bool, bool) -> bool, k: nat)
    requires forall x, y, z :: GroupsEitherWay(bit, x, y, z)
    ensures Bit(Bitwise(a, Bitwise(b, c, bit), bit), k) == Bit(Bitwise(Bitwise(a, b, bit), c, bit), k)
  {
    BitwiseBits(a, Bitwise(b, c, bit), bit, k);
    BitwiseBits(b, c, bit, k);
    BitwiseBits(Bitwise(a, b, bit), c, bit, k);
    BitwiseBits(a, b, bit, k);
    var x, y, z := Bit(a, k), Bit(b, k), Bit(c, k);
    assert GroupsEitherWay(bit, x, y, z);
  }

  /** Bitwise operators made of an associative one are associative. */
  lemma BitwiseAssociates(a: int, b: int, c: int, bit: (bool, bool) -> bool)
    requires forall x, y, z :: GroupsEitherWay(bit, x, y, z)
    ensures Bitwise(a, Bitwise(b, c, bit), bit) == Bitwise(Bitwise(a, b, bit), c, bit)
  {
    var ab, bc := Bitwise(a, b, bit), Bitwise(b, c, bit);
    forall k: nat ensures Bit(Bitwise(a, bc, bit), k) == Bit(Bitwise(ab, c, bit), k) {
      BitAssociates(a, b, c, bit, k);
    }
    SameBits(Bitwise(a, bc, bit), Bitwise(ab, c, bit));
  }

  lemma BothAssociates(a: int, b: int, c: int)
    ensures Bitwise(a, Bitwise(b, c, Both), Both) == Bitwise(Bitwise(a, b, Both), c, Both)
  {
    BitwiseAssociates(a, b, c, Both);
  }

  lemma DifferAssociates(a: int, b: int, c: int)
    ensures Bitwise(a, Bitwise(b, c, Differ), Differ) == Bitwise(Bitwise(a, b, Differ), c, Differ)
  {
    BitwiseAssociates(a, b, c, Differ);
  }

  lemma EitherAssociates(a: int, b: int, c: int)
    ensures Bitwise(a, Bitwise(b, c, Either), Either) == Bitwise(Bitwise(a, b, Either), c, Either)
  {
    BitwiseAssociates(a, b, c, Either);
  }

  // ---------- shifts, bit by bit ----------

  /** The bits move up, and zeros come in. */
  lemma {:induction false} BitsMoveUp(a: int, b: nat, k: nat)
    ensures Bit(a * Pow2(b), k) == (k >= b && Bit(a, k - b))
    decreases b, k
  {
    if b > 0 {
      var half := a * Pow2(b - 1);
      TwiceTimes(a, Pow2(b - 1));
      assert a * Pow2(b) == 2 * half;
      assert (2 * half) % 2 == 0 && (2 * half) / 2 == half;
      if k > 0 { BitsMoveUp(a, b - 1, k - 1); }
    }
  }

  lemma TwiceTimes(a: int, p: int)
    ensures a * (2 * p) == 2 * (a * p)
  {
  }

  /** The bits move down. */
  lemma {:induction false} BitsMoveDown(a: int, b: nat, k: nat)
    ensures Pow2(b) > 0 && Bit(a / Pow2(b), k) == Bit(a, k + b)
    decreases b
  {
    Pow2Positive(b);
    if b > 0 {
      Pow2Positive(b - 1);
      HalfFirst(a, Pow2(b - 1));
      BitsMoveDown(a / 2, b - 1, k);
    } else {
      assert a / 1 == a;
    }
  }

  lemma HalfFirst(a: int, p: int)
    requires p > 0
    ensures a / (2 * p) == a / 2 / p
  {
    var q, r := a / 2 / p, a / 2 % p;
    EuclidHolds(a / 2, p);
    TwiceTimes(q, p);
    assert a == 2 * (a / 2) + a % 2;
    assert a == (2 * p) * q + (2 * r + a % 2) by { TwiceTimes(p, q); }
    QuotientIs(a, 2 * p, q, 2 * r + a % 2);
  }

  lemma EuclidHolds(a: int, d: int)
    requires d > 0
    ensures a == d * (a / d) + a % d && 0 <= a % d < d
  {
  }

  /** There is one quotient. */
  lemma QuotientIs(a: int, d: int, q: int, r: int)
    requires d > 0 && a == d * q + r && 0 <= r < d
    ensures a / d == q
  {
    EuclidHolds(a, d);
    var e := a / d - q;
    assert d * e == r - a % d by { Spread(d, a / d, q); }
    if e > 0 { AtLeast(d, e); } else if e < 0 { AtLeast(d, -e); Signs(d, e); }
  }

  lemma Spread(d: int, x: int, y: int)
    ensures d * (x - y) == d * x - d * y
  {
  }

  lemma {:induction false} AtLeast(d: int, e: int)
    requires d > 0 && e > 0
    ensures d * e >= d
    decreases e
  {
    if e > 1 {
      AtLeast(d, e - 1);
      assert d * e == d * (e - 1) + d by { Spread(d, e, 1); }
    }
  }
}
