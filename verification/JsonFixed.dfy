/** Number texts to fixed point. With up to eight fraction bits the converter is exact, rounding half
    away from zero, although it keeps only 18 digits and may drop more to make room for the bits. */
module JsonFixed {
  import opened Prelude
  import opened Json
  import opened JsonNumber

  const E15 := 1_000_000_000_000_000
  const E17 := 100_000_000_000_000_000
  const E18 := 1_000_000_000_000_000_000
  const UINT64_MAX := 0xFFFF_FFFF_FFFF_FFFF
  const INT31 := 0x8000_0000

  // ---- the exact value of a text -------------------------------------------------------------

  /** (-1)^neg * coeff * 10^exp. */
  datatype Dec = Dec(neg: bool, coeff: nat, exp: int)

  function IntDigits(u: seq<Byte>): seq<Byte> {
    u[..Digits(u)]
  }

  function AfterPoint(rest: seq<Byte>): seq<Byte> {
    if rest != [] && rest[0] == '.' as int then rest[1..][..Digits(rest[1..])] else []
  }

  function PastFraction(rest: seq<Byte>): seq<Byte> {
    if rest != [] && rest[0] == '.' as int then rest[1..][Digits(rest[1..])..] else rest
  }

  function Minus(v: nat): int {
    -(v as int)
  }

  function Exponent(rest: seq<Byte>): int {
    if rest == [] then 0
    else
      var v := Val(Unsigned(rest[1..]));
      if |rest| > 1 && rest[1] == '-' as int then Minus(v) else v
  }

  function ExactValue(t: seq<Byte>): Dec {
    var u := Magnitude(t);
    var rest := u[Digits(u)..];
    Dec(t != [] && t[0] == '-' as int, Val(IntDigits(u) + AfterPoint(rest)), Exponent(PastFraction(rest)) - |AfterPoint(rest)|)
  }

  /** a / den to the nearest integer, halves up. */
  function HalfUp(a: nat, den: nat): nat
    requires den > 0
  {
    (2 * a + den) / (2 * den)
  }

  /** a * 10^exp to the nearest integer, halves up. */
  function Rounded(a: nat, exp: int): nat {
    if exp >= 0 then a * Pow10(exp) else HalfUp(a, Pow10(-exp))
  }

  function Clamp(neg: bool, mag: nat): int {
    if neg then if mag >= INT31 then -INT31 else Minus(mag)
    else if mag >= INT31 - 1 then INT31 - 1 else mag
  }

  /** The value times 2^bits, rounded half away from zero and saturated to 32 bits. */
  function Fixed(t: seq<Byte>, bits: nat): int {
    var d := ExactValue(t);
    Clamp(d.neg, Rounded(d.coeff * Pow2(bits), d.exp))
  }

  /** HalfUp is the nearest integer: off by at most half, and only upward when exactly half. */
  lemma {:induction false} HalfUpNearest(a: nat, den: nat)
    requires den > 0
    ensures 2 * a - den < 2 * (HalfUp(a, den) * den) <= 2 * a + den
  {
    DivIs(2 * a + den, 2 * den, HalfUp(a, den));
    Times(HalfUp(a, den), den);
  }

  lemma {:induction false} DivIs(a: nat, d: nat, q: nat)
    requires d > 0 && q == a / d
    ensures q * d <= a < q * d + d
  {
  }

  lemma {:induction false} Times(r: nat, den: nat)
    ensures r * (2 * den) == 2 * (r * den)
  {
  }

  // ---- the digits kept -----------------------------------------------------------------------

  /** n's digits with the last k dropped leave mant; sticky says whether the dropped ones, rem, are
      not all zero. Digits are dropped only once mant has 18 of them. */
  ghost predicate Kept(n: nat, mant: nat, k: nat, rem: nat, sticky: bool) {
    && n == mant * Pow10(k) + rem && rem < Pow10(k) && mant < E18
    && (k > 0 ==> mant >= E17) && (sticky <==> rem > 0)
  }

  lemma {:induction false} KeptMore(n: nat, mant: nat, k: nat, rem: nat, sticky: bool, d: nat)
    requires Kept(n, mant, k, rem, sticky) && d < 10
    ensures if mant < E17 then k == 0 && Kept(10 * n + d, mant * 10 + d, 0, 0, sticky)
            else Kept(10 * n + d, mant, k + 1, 10 * rem + d, sticky || d > 0)
  {
    if mant >= E17 { Tenfold(mant, Pow10(k)); }
  }

  lemma {:induction false} Tenfold(a: nat, b: nat)
    ensures a * (10 * b) == 10 * (a * b)
  {
  }

  lemma {:induction false} ValMore(s: seq<Byte>, c: Byte)
    ensures Val(s + [c]) == 10 * Val(s) + DigitOf(c)
  {
    assert (s + [c])[..|s|] == s;
  }

  // ---- the parser ----------------------------------------------------------------------------

  /** decnum_t. */
  datatype DecNum = DecNum(neg: bool, mant: nat, exp10: int, sticky: bool)

  /** Digits from i on, each kept or dropped; `point` says whether they are after the point. */
  method TakeDigits(t: seq<Byte>, i: nat, d: DecNum, point: bool, ghost n: nat, ghost k: nat, ghost rem: nat)
    returns (e: nat, r: DecNum, ghost k': nat, ghost rem': nat)
    requires i <= |t| && Kept(n, d.mant, k, rem, d.sticky)
    ensures e == i + Digits(t[i..]) && r.neg == d.neg
    ensures Kept(Appended(n, t[i..e]), r.mant, k', rem', r.sticky)
    ensures r.exp10 - k' == d.exp10 - k - (if point then e - i else 0)
    ensures k <= k' <= k + (e - i)
  {
    hide Kept, Digits, Val;
    e, r, k', rem' := i, d, k, rem;
    AppendedNone(n, t[i..e]);
    while e < |t| && IsDigit(t[e])
      invariant i <= e <= |t| && (forall x :: i <= x < e ==> IsDigit(t[x]))
      invariant r.neg == d.neg && Kept(Appended(n, t[i..e]), r.mant, k', rem', r.sticky)
      invariant r.exp10 - k' == d.exp10 - k - (if point then e - i else 0)
      invariant k <= k' <= k + (e - i)
    {
      var dig := t[e] - '0' as int;
      KeptMore(Appended(n, t[i..e]), r.mant, k', rem', r.sticky, dig);
      AppendedMore(n, t, i, e);
      if r.mant < E17 {
        rem' := 0;
        r := r.(mant := r.mant * 10 + dig, exp10 := if point then r.exp10 - 1 else r.exp10);
      } else {
        k', rem' := k' + 1, 10 * rem' + dig;
        r := r.(exp10 := if point then r.exp10 else r.exp10 + 1, sticky := r.sticky || dig > 0);
      }
      e := e + 1;
    }
    DigitsAt(t, i, e);
  }

  /** n followed by more digits. */
  function Appended(n: nat, s: seq<Byte>): nat {
    if s == [] then n else 10 * Appended(n, s[..|s| - 1]) + DigitOf(s[|s| - 1])
  }

  lemma {:induction false} AppendedNone(n: nat, s: seq<Byte>)
    requires s == []
    ensures Appended(n, s) == n
  {
  }

  lemma {:induction false} AppendedMore(n: nat, t: seq<Byte>, i: nat, e: nat)
    requires i <= e < |t|
    ensures Appended(n, t[i..e + 1]) == 10 * Appended(n, t[i..e]) + DigitOf(t[e])
  {
    assert t[i..e + 1][..e - i] == t[i..e];
  }

  lemma {:induction false} AppendedIs(a: seq<Byte>, b: seq<Byte>)
    ensures Appended(Val(a), b) == Val(a + b)
  {
    if b == [] {
      assert a + b == a;
    } else {
      AppendedIs(a, b[..|b| - 1]);
      assert (a + b)[..|a + b| - 1] == a + b[..|b| - 1];
    }
  }

  lemma {:induction false} DigitsAt(t: seq<Byte>, i: nat, e: nat)
    requires i <= e <= |t| && (forall x :: i <= x < e ==> IsDigit(t[x])) && (e < |t| ==> !IsDigit(t[e]))
    ensures e == i + Digits(t[i..])
    decreases e - i
  {
    if i < e {
      DigitsAt(t, i + 1, e);
      assert t[i..][1..] == t[i + 1..];
    }
  }

  predicate HasPoint(t: seq<Byte>) {
    t != [] && t[0] == '.' as int
  }

  /** The fraction, if there is one: its digits join the integer part's. */
  method ParseFraction(t: seq<Byte>, i: nat, d: DecNum, ghost n: nat, ghost k: nat, ghost rem: nat)
    returns (ok: bool, e: nat, r: DecNum, ghost k': nat, ghost rem': nat)
    requires i <= |t| && Kept(n, d.mant, k, rem, d.sticky)
    ensures ok <==> (HasPoint(t[i..]) ==> Digits(t[i..][1..]) > 0)
    ensures ok ==> e <= |t| && t[e..] == PastFraction(t[i..]) && r.neg == d.neg
    ensures ok ==> var f := AfterPoint(t[i..]);
                   && Kept(Appended(n, f), r.mant, k', rem', r.sticky)
                   && r.exp10 - k' == d.exp10 - k - |f| && k <= k' <= k + |f|
  {
    hide Kept, Appended;
    e, r, k', rem' := i, d, k, rem;
    if i >= |t| || t[i] != '.' as int {
      AppendedNone(n, AfterPoint(t[i..]));
      return true, e, r, k', rem';
    }
    assert t[i..][1..] == t[i + 1..];
    if i + 1 >= |t| || !IsDigit(t[i + 1]) { return false, e, r, k', rem'; }
    e, r, k', rem' := TakeDigits(t, i + 1, d, true, n, k, rem);
    assert t[i + 1..][..e - (i + 1)] == t[i + 1..e] && t[i + 1..][e - (i + 1)..] == t[e..];
    ok := true;
  }

  /** How the clamped exponent relates to the one written. */
  ghost predicate Near(c: int, e: int) {
    && (-10000 < e < 10000 ==> c == e)
    && (e >= 10000 ==> 10000 <= c <= e)
    && (e <= -10000 ==> e <= c <= -10000)
  }

  method ParseExponentDigits(t: seq<Byte>, i: nat) returns (j: nat, e: nat)
    requires i <= |t|
    ensures j == i + Digits(t[i..]) && Near(e, Val(t[i..j]))
  {
    hide Val, Digits;
    j, e := i, 0;
    ValNone(t[i..i]);
    while j < |t| && IsDigit(t[j])
      invariant i <= j <= |t| && (forall x :: i <= x < j ==> IsDigit(t[x]))
      invariant if e < 10000 then e == Val(t[i..j]) else e <= Val(t[i..j])
    {
      assert t[i..j + 1] == t[i..j] + [t[j]];
      ValMore(t[i..j], t[j]);
      if e < 10000 { e := e * 10 + (t[j] - '0' as int); }
      j := j + 1;
    }
    DigitsAt(t, i, j);
  }

  lemma {:induction false} ValNone(s: seq<Byte>)
    requires s == []
    ensures Val(s) == 0
  {
  }

  method ParseExponent(t: seq<Byte>, i: nat, d: DecNum) returns (ok: bool, r: DecNum)
    requires i <= |t|
    ensures ok <==> AfterFrac(t[i..])
    ensures ok ==> r == d.(exp10 := r.exp10) && Near(r.exp10 - d.exp10, Exponent(t[i..]))
  {
    hide Val;
    r := d;
    if i >= |t| || !IsE(t[i]) { return i == |t|, r; }
    var j, eneg := i + 1, false;
    assert t[i..][1..] == t[j..];
    ghost var s := t[j..];
    if j < |t| && IsSign(t[j]) {
      eneg := t[j] == '-' as int;
      j := j + 1;
      assert s[1..] == t[j..];
    }
    assert Unsigned(s) == t[j..];
    if j >= |t| || !IsDigit(t[j]) { return false, r; }
    var k, e := ParseExponentDigits(t, j);
    assert k == |t| ==> t[j..k] == t[j..];
    r := r.(exp10 := r.exp10 + if eneg then Minus(e) else e);
    ok := k == |t|;
  }

  lemma {:induction false} AfterIntParts(rest: seq<Byte>)
    ensures AfterInt(rest) <==> (HasPoint(rest) ==> Digits(rest[1..]) > 0) && AfterFrac(PastFraction(rest))
  {
    hide ExpOk;
  }

  /** What parse_dec leaves of a text: all of its digits but k, and an exponent that may be clamped. */
  ghost predicate Parsed(t: seq<Byte>, d: DecNum, k: nat, rem: nat) {
    var x, f := ExactValue(t), FractionLength(t);
    && d.neg == x.neg && Kept(x.coeff, d.mant, k, rem, d.sticky) && k <= |t| && f <= |t|
    && Near(d.exp10 - k + f, x.exp + f)
  }

  function FractionLength(t: seq<Byte>): nat {
    var u := Magnitude(t);
    |AfterPoint(u[Digits(u)..])|
  }

  /** parse_dec: accepts exactly the numbers of the grammar. */
  method ParseDec(t: seq<Byte>) returns (ok: bool, d: DecNum, ghost k: nat, ghost rem: nat)
    ensures ok <==> IsNumber(t)
    ensures ok ==> Parsed(t, d, k, rem)
  {
    hide AfterInt, AfterFrac, Kept, Val, Appended, PastFraction, Exponent, AfterPoint, Near;
    d, k, rem := DecNum(false, 0, 0, false), 0, 0;
    var i := 0;
    if i < |t| && t[i] == '-' as int { d, i := d.(neg := true), 1; }
    ghost var u := Magnitude(t);
    assert t[i..] == u;
    if i >= |t| || !IsDigit(t[i]) { return false, d, k, rem; }
    var leadingZero := t[i] == '0' as int;
    KeptNothing();
    ghost var start := i;
    var e;
    e, d, k, rem := TakeDigits(t, i, d, false, 0, 0, 0);
    if leadingZero && e - i > 1 { return false, d, k, rem; }
    ghost var rest := u[Digits(u)..];
    assert t[e..] == rest && t[i..e] == IntDigits(u);
    AfterIntParts(rest);
    ghost var n := Appended(0, IntDigits(u));
    i := e;
    ok, e, d, k, rem := ParseFraction(t, i, d, n, k, rem);
    if !ok { return; }
    ghost var before := d;
    ok, d := ParseExponent(t, e, d);
    if ok { Assembled(t, u, rest, n, before, d, k, rem); }
  }

  lemma {:induction false} KeptNothing()
    ensures Kept(0, 0, 0, 0, false)
  {
  }

  lemma {:induction false} Assembled(t: seq<Byte>, u: seq<Byte>, rest: seq<Byte>, n: nat, before: DecNum, d: DecNum, k: nat, rem: nat)
    requires u == Magnitude(t) && rest == u[Digits(u)..] && n == Appended(0, IntDigits(u))
    requires d == before.(exp10 := d.exp10) && d.neg == (t != [] && t[0] == '-' as int)
    requires Kept(Appended(n, AfterPoint(rest)), d.mant, k, rem, d.sticky)
    requires before.exp10 - k == -|AfterPoint(rest)| && k <= |IntDigits(u)| + |AfterPoint(rest)|
    requires Near(d.exp10 - before.exp10, Exponent(PastFraction(rest)))
    ensures Parsed(t, d, k, rem)
  {
    hide Kept, Val, Appended, Near, PastFraction, Exponent, Digits, IntDigits, AfterPoint;
    ValNone([]);
    AppendedIs([], IntDigits(u));
    assert [] + IntDigits(u) == IntDigits(u);
    AppendedIs(IntDigits(u), AfterPoint(rest));
    DigitsWithin(u);
  }

  lemma DigitsWithin(u: seq<Byte>)
    ensures |IntDigits(u)| + |AfterPoint(u[Digits(u)..])| <= |u|
  {
    hide Digits;
  }

  // ---- the digits dropped do not matter ------------------------------------------------------

  lemma {:induction false} PowAdd(a: nat, b: nat)
    ensures Pow10(a + b) == Pow10(a) * Pow10(b)
  {
    if a > 0 {
      PowAdd(a - 1, b);
      Tenfold(Pow10(b), Pow10(a - 1));
      Commute(Pow10(b), Pow10(a - 1));
      Commute(Pow10(b), Pow10(a));
    }
  }

  lemma {:induction false} Commute(a: int, b: int)
    ensures a * b == b * a
  {
  }

  lemma {:induction false} PowGrows(a: nat, b: nat)
    requires a <= b
    ensures Pow10(a) <= Pow10(b)
  {
    if a < b { PowGrows(a, b - 1); }
  }

  lemma {:induction false} TenTwenty()
    ensures Pow10(4) == 10_000 && Pow10(10) == 10_000_000_000 && Pow10(20) == 100 * E18
  {
    assert Pow10(5) == 100_000;
    PowAdd(5, 5);
    PowAdd(10, 10);
  }

  /** Extra low digits never change a quotient whose divisor they do not reach. */
  lemma {:induction false} DivMore(a: nat, d: nat, p: nat, rem: nat)
    requires d > 0 && p > 0 && rem < p
    ensures p * d > 0 && (p * a + rem) / (p * d) == a / d
  {
    var q, r := a / d, a % d;
    assert a == q * d + r;
    var b, m := p * d, p * r + rem;
    Spread(p, q, d, r);
    assert p * a + rem == q * b + m;
    Within(p, r, d, rem);
    QuotientIs(p * a + rem, b, q, m);
  }

  lemma {:induction false} Spread(p: nat, q: nat, d: nat, r: nat)
    ensures p * (q * d + r) == q * (p * d) + p * r
  {
    assert p * (q * d + r) == p * (q * d) + p * r;
    assert p * (q * d) == (p * q) * d == (q * p) * d == q * (p * d);
  }

  lemma {:induction false} Within(p: nat, r: nat, d: nat, rem: nat)
    requires r < d && rem < p
    ensures p * r + rem < p * d
  {
    AtLeast(p, d - r);
    Distribute(p, r, d - r);
  }

  lemma {:induction false} AtLeast(p: nat, x: nat)
    requires x >= 1
    ensures p * x >= p
  {
    Distribute(p, 1, x - 1);
    Signs(p, x - 1);
  }

  lemma {:induction false} Signs(a: nat, b: nat)
    ensures a * b >= 0
  {
  }

  lemma {:induction false} Distribute(p: int, a: int, b: int)
    ensures p * (a + b) == p * a + p * b
  {
  }

  lemma {:induction false} Regroup(a: int, b: int, c: int)
    ensures (a * b) * c == a * (b * c)
  {
  }

  lemma {:induction false} QuotientIs(n: nat, b: nat, q: nat, m: nat)
    requires b > 0 && n == q * b + m && m < b
    ensures n / b == q
  {
    var k := n / b;
    DivIs(n, b, k);
    if k < q { Steps(k + 1, q, b); } else if k > q { Steps(q + 1, k, b); }
  }

  lemma {:induction false} Steps(a: nat, c: nat, b: nat)
    requires a <= c
    ensures a * b <= c * b && (c - a) * b == c * b - a * b
    ensures (a - 1) * b == a * b - b
  {
  }

  /** A power of ten has as many twos. */
  lemma {:induction false} Twos(d: nat, b: nat) returns (c: nat)
    requires b <= d
    ensures c >= 1 && Pow10(d) == Pow2(b) * c
  {
    if b == 0 {
      c := Pow10(d);
    } else {
      var e := Twos(d - 1, b - 1);
      c := 5 * e;
      Regroup(2, Pow2(b - 1), 5 * e);
      Regroup(Pow2(b - 1), 5, e);
      Commute(Pow2(b - 1), 5);
      Regroup(5, Pow2(b - 1), e);
    }
  }

  /** The quotient that rounds a number to a coarse unit, in the unit's own terms. */
  lemma {:induction false} HalfUpScaled(n: nat, bits: nat, d: nat, c: nat)
    requires c >= 1 && Pow10(d) == Pow2(bits + 1) * c
    ensures HalfUp(n * Pow2(bits), Pow10(d)) == (n + c) / (2 * c)
  {
    var g := Pow2(bits + 1);
    assert 2 * (n * Pow2(bits)) == g * n by { Regroup(2, Pow2(bits), n); Commute(n, Pow2(bits)); }
    Distribute(g, n, c);
    Regroup(2, g, c);
    Commute(2, g);
    Regroup(g, 2, c);
    DivMore(n + c, 2 * c, g, 0);
  }

  /** Below ten thousandths the digits dropped cannot move the result: a half is out of their reach. */
  lemma {:induction false} DropFine(mant: nat, k: nat, rem: nat, bits: nat, d: nat)
    requires rem < Pow10(k) && bits < d
    ensures HalfUp((mant * Pow10(k) + rem) * Pow2(bits), Pow10(d + k)) == HalfUp(mant * Pow2(bits), Pow10(d))
  {
    hide HalfUp, Pow10, Pow2;
    var c := Twos(d, bits + 1);
    var p := Pow10(k);
    HalfUpScaled(mant, bits, d, c);
    FinePower(d, k, Pow2(bits + 1), c);
    HalfUpScaled(mant * p + rem, bits, d + k, p * c);
    FineQuotient(mant, p, rem, c);
  }

  lemma {:induction false} FinePower(d: nat, k: nat, g: nat, c: nat)
    requires Pow10(d) == g * c && c >= 1
    ensures Pow10(d + k) == g * (Pow10(k) * c) && Pow10(k) * c >= 1
  {
    hide Pow10;
    var p := Pow10(k);
    PowAdd(d, k);
    Regroup(g, c, p);
    AtLeast(p, c);
    Commute(c, p);
  }

  lemma {:induction false} FineQuotient(mant: nat, p: nat, rem: nat, c: nat)
    requires rem < p && c >= 1 && p * c >= 1
    ensures (mant * p + rem + p * c) / (2 * (p * c)) == (mant + c) / (2 * c)
  {
    Distribute(p, mant, c);
    Commute(mant, p);
    Twice(p, c);
    DivMore(mant + c, 2 * c, p, rem);
  }

  lemma {:induction false} Twice(p: nat, c: nat)
    ensures 2 * (p * c) == p * (2 * c)
  {
  }

  // ---- saturation ----------------------------------------------------------------------------

  lemma {:induction false} HalfUpAtLeast(a: nat, den: nat, v: nat)
    requires den > 0 && a >= v * den
    ensures HalfUp(a, den) >= v
  {
    var q := HalfUp(a, den);
    HalfUpNearest(a, den);
    if q < v {
      Steps(q + 1, v, den);
      assert false;
    }
  }

  /** mant is large: in units of 10^-c, or coarser, the result is past 32 bits with or without the
      dropped digits. */
  lemma {:induction false} DropCoarse(n: nat, mant: nat, k: nat, y: int, b: nat, c: nat)
    requires mant >= INT31 && n >= mant * Pow10(k) && y + c >= 0 && b >= 1 && mant * b >= INT31 * Pow10(c)
    ensures Rounded(n * b, y - k) >= INT31 && Rounded(mant * b, y) >= INT31
  {
    CoarseKept(mant, y, b, c);
    AtLeast(n, b);
    if y - k >= 0 {
      AtLeast(mant, Pow10(k));
      AtLeast(n * b, Pow10(y - k));
    } else if y >= 0 {
      PowGrows(k - y, k);
      MulGrows(mant, Pow10(k - y), Pow10(k));
      HalfUpAtLeast(n * b, Pow10(k - y), mant);
    } else {
      Widen(n, mant, Pow10(k), b);
      CoarseBoth(n * b, mant * b, k, -y, c);
    }
  }

  lemma {:induction false} Widen(n: nat, mant: nat, p: nat, b: nat)
    requires n >= mant * p
    ensures n * b >= (mant * b) * p
  {
    MulGrows(b, mant * p, n);
    Commute(b, n);
    Commute(b, mant * p);
    Regroup(mant, p, b);
    Commute(p, b);
    Regroup(mant, b, p);
  }

  lemma {:induction false} MulGrows(a: nat, b: nat, c: nat)
    requires b <= c
    ensures a * b <= a * c
  {
    Distribute(a, b, c - b);
    Signs(a, c - b);
  }

  lemma {:induction false} CoarseKept(mant: nat, y: int, b: nat, c: nat)
    requires mant >= INT31 && y + c >= 0 && b >= 1 && mant * b >= INT31 * Pow10(c)
    ensures Rounded(mant * b, y) >= INT31
  {
    AtLeast(mant, b);
    if y >= 0 {
      AtLeast(mant * b, Pow10(y));
    } else {
      PowGrows(-y, c);
      MulGrows(INT31, Pow10(-y), Pow10(c));
      HalfUpAtLeast(mant * b, Pow10(-y), INT31);
    }
  }

  lemma {:induction false} CoarseBoth(a: nat, m: nat, k: nat, d: nat, c: nat)
    requires a >= m * Pow10(k) && m >= INT31 * Pow10(c) && d <= c
    ensures HalfUp(a, Pow10(d + k)) >= INT31
  {
    hide HalfUp, Pow10;
    PowGrows(d, c);
    MulGrows(INT31, Pow10(d), Pow10(c));
    PowAdd(d, k);
    Regroup(INT31, Pow10(d), Pow10(k));
    Commute(m, Pow10(k));
    Commute(INT31 * Pow10(d), Pow10(k));
    MulGrows(Pow10(k), INT31 * Pow10(d), m);
    HalfUpAtLeast(a, Pow10(d + k), INT31);
  }

  lemma {:induction false} ClampBig(neg: bool, a: nat, b: nat)
    requires a == b || (a >= INT31 && b >= INT31)
    ensures Clamp(neg, a) == Clamp(neg, b)
  {
  }

  /** n's digits with the last k dropped leave m, which then is still large. */
  ghost predicate Cut(n: nat, m: nat, k: nat, rem: nat) {
    n == m * Pow10(k) + rem && rem < Pow10(k) && (k > 0 ==> m >= E15)
  }

  lemma {:induction false} LargeEnough(m: nat, bits: nat)
    requires m >= E15 && bits <= 8
    ensures m * Pow2(bits) >= INT31 * Pow10(bits)
  {
    if bits <= 4 {
      assert bits == 0 || bits == 1 || bits == 2 || bits == 3 || bits == 4;
    } else {
      assert bits == 5 || bits == 6 || bits == 7 || bits == 8;
    }
  }

  /** With up to eight fraction bits the dropped digits never change the fixed-point result. */
  lemma {:induction false} CutHarmless(neg: bool, n: nat, m: nat, k: nat, rem: nat, bits: nat, y: int)
    requires Cut(n, m, k, rem) && bits <= 8
    ensures Clamp(neg, Rounded(n * Pow2(bits), y - k)) == Clamp(neg, Rounded(m * Pow2(bits), y))
  {
    hide HalfUp, Clamp;
    if k > 0 {
      if y + bits >= 0 {
        LargeEnough(m, bits);
        DropCoarse(n, m, k, y, Pow2(bits), bits);
      } else {
        DropFine(m, k, rem, bits, -y);
      }
      ClampBig(neg, Rounded(n * Pow2(bits), y - k), Rounded(m * Pow2(bits), y));
    }
  }

  // ---- what the code computes ----------------------------------------------------------------

  /** The first 18 digits, and how many are dropped. */
  function Trim(n: nat): (r: (nat, nat)) {
    if n < E18 then (n, 0)
    else
      var (m, k) := Trim(n / 10);
      (m, k + 1)
  }

  /** Low digits go while the mantissa shifted by the fraction bits would not fit 64 bits. */
  function Fold(m: nat, e: int, bits: nat): (r: (nat, int)) {
    if m <= UINT64_MAX / Pow2(bits) then (m, e) else Fold(m / 10, e + 1, bits)
  }

  /** The result for a number text, from its exact value. */
  function Computed(t: seq<Byte>, bits: nat): int {
    var x := ExactValue(t);
    var (m0, k) := Trim(x.coeff);
    var (m, e) := Fold(m0, x.exp + k, bits);
    Clamp(x.neg, Rounded(m * Pow2(bits), e))
  }

  lemma {:induction false} TrimIs(n: nat, mant: nat, k: nat, rem: nat, sticky: bool)
    requires Kept(n, mant, k, rem, sticky)
    ensures Trim(n) == (mant, k)
    decreases k
  {
    if k > 0 {
      MulGrows(mant, 10, Pow10(k));
      Tenfold(mant, Pow10(k - 1));
      TenthOf(mant * Pow10(k - 1), rem);
      TrimIs(n / 10, mant, k - 1, rem / 10, rem / 10 > 0);
    }
  }

  lemma TenthOf(a: nat, rem: nat)
    ensures (10 * a + rem) / 10 == a + rem / 10
  {
  }

  lemma {:induction false} TrimCuts(n: nat) returns (rem: nat)
    ensures var (m, k) := Trim(n); Cut(n, m, k, rem) && m < E18
  {
    rem := 0;
    if n >= E18 {
      var (m, k) := Trim(n / 10);
      var r := TrimCuts(n / 10);
      rem := 10 * r + n % 10;
      CutMore(n / 10, m, k, r, n % 10);
      if k == 0 { assert m == n / 10; }
    }
  }

  /** One more digit dropped from the number itself. */
  lemma {:induction false} CutMore(n: nat, m: nat, k: nat, rem: nat, d: nat)
    requires Cut(n, m, k, rem) && d < 10
    ensures 10 * n + d == m * Pow10(k + 1) + (10 * rem + d) && 10 * rem + d < Pow10(k + 1)
  {
    Tenfold(m, Pow10(k));
  }

  /** One more digit dropped from what is left of it. */
  lemma {:induction false} CutAgain(n: nat, m: nat, k: nat, rem: nat)
    requires Cut(n, m, k, rem) && m / 10 >= E15
    ensures Cut(n, m / 10, k + 1, m % 10 * Pow10(k) + rem)
  {
    var p := Pow10(k);
    Distribute(p, 10 * (m / 10), m % 10);
    Commute(p, m);
    Commute(p, m % 10);
    Regroup(m / 10, 10, p);
    Commute(10 * (m / 10), p);
    MulGrows(p, m % 10, 9);
  }

  lemma {:induction false} FoldCuts(n: nat, m: nat, k: nat, rem: nat, e: int, bits: nat) returns (k': nat, rem': nat)
    requires Cut(n, m, k, rem) && bits <= 8
    ensures var (m', e') := Fold(m, e, bits); Cut(n, m', k', rem') && e' - k' == e - k
    decreases m
  {
    k', rem' := k, rem;
    if m > UINT64_MAX / Pow2(bits) {
      EightBits(bits);
      CutAgain(n, m, k, rem);
      k', rem' := FoldCuts(n, m / 10, k + 1, m % 10 * Pow10(k) + rem, e + 1, bits);
    }
  }

  lemma {:induction false} EightBits(bits: nat)
    requires bits <= 8
    ensures UINT64_MAX / Pow2(bits) >= 10 * E15
  {
    if bits <= 4 {
      assert bits == 0 || bits == 1 || bits == 2 || bits == 3 || bits == 4;
    } else {
      assert bits == 5 || bits == 6 || bits == 7 || bits == 8;
    }
  }

  /** With up to eight fraction bits the result is exact, for every text. */
  lemma {:induction false} ExactToEight(t: seq<Byte>, bits: nat)
    requires bits <= 8
    ensures Computed(t, bits) == Fixed(t, bits)
  {
    hide Cut, Clamp, Rounded, Trim, Fold, ExactValue;
    var x := ExactValue(t);
    var (m0, k) := Trim(x.coeff);
    var rem := TrimCuts(x.coeff);
    var k', rem' := FoldCuts(x.coeff, m0, k, rem, x.exp + k, bits);
    var (m, e) := Fold(m0, x.exp + k, bits);
    CutHarmless(x.neg, x.coeff, m, k', rem', bits, e);
  }

  /** Exponents far enough out all saturate, or all round to zero. */
  lemma {:induction false} FarOut(neg: bool, a: nat, y: int, y': int)
    requires 2 * a < 100 * E18 && (y == y' || (y >= 10 && y' >= 10) || (y <= -20 && y' <= -20))
    ensures Clamp(neg, Rounded(a, y)) == Clamp(neg, Rounded(a, y'))
  {
    hide HalfUp;
    if y != y' {
      TenTwenty();
      if y >= 10 {
        if a > 0 { FarUp(a, y); FarUp(a, y'); }
      } else {
        PowGrows(20, -y);
        PowGrows(20, -y');
        FarDown(a, Pow10(-y));
        FarDown(a, Pow10(-y'));
      }
    }
  }

  lemma {:induction false} FarUp(a: nat, y: int)
    requires a > 0 && y >= 10
    ensures a * Pow10(y) >= INT31
  {
    TenTwenty();
    PowGrows(10, y);
    Commute(a, Pow10(y));
    AtLeast(Pow10(y), a);
  }

  lemma {:induction false} FarDown(a: nat, den: nat)
    requires 2 * a < den
    ensures HalfUp(a, den) == 0
  {
  }

  lemma {:induction false} FoldShifts(m: nat, e: int, bits: nat, n: nat)
    requires m < Pow10(n)
    ensures Fold(m, e, bits) == (Fold(m, 0, bits).0, e + Fold(m, 0, bits).1)
    ensures 0 <= Fold(m, 0, bits).1 <= n && Fold(m, 0, bits).0 * Pow2(bits) <= UINT64_MAX
    decreases m
  {
    hide Pow2;
    if m > UINT64_MAX / Pow2(bits) {
      FoldShifts(m / 10, e + 1, bits, n - 1);
      FoldShifts(m / 10, 1, bits, n - 1);
    } else {
      Fits(m, Pow2(bits));
    }
  }

  lemma {:induction false} ShiftOnce(m: nat, a: int, b: int, bits: nat) returns (m': nat, j: nat)
    requires m < E18
    ensures Fold(m, a, bits) == (m', a + j) && Fold(m, b, bits) == (m', b + j) && j <= 18 && m' * Pow2(bits) <= UINT64_MAX
  {
    hide Fold;
    Eighteen();
    FoldShifts(m, a, bits, 18);
    FoldShifts(m, b, bits, 18);
    m', j := Fold(m, 0, bits).0, Fold(m, 0, bits).1;
  }

  lemma {:induction false} Eighteen()
    ensures Pow10(18) == E18
  {
    assert Pow10(9) == 1_000_000_000;
    PowAdd(9, 9);
  }

  /** The result from what the parser left. */
  function FromParsed(d: DecNum, bits: nat): int {
    var (m, e) := Fold(d.mant, d.exp10, bits);
    Clamp(d.neg, Rounded(m * Pow2(bits), e))
  }

  /** The parsed exponent is the exact one, or both are far out on the same side. */
  lemma {:induction false} ExponentNear(t: seq<Byte>, d: DecNum, k: nat, rem: nat, j: nat)
    requires Parsed(t, d, k, rem) && |t| <= 9000 && j <= 18
    ensures var (y, y') := (ExactValue(t).exp + k + j, d.exp10 + j);
            d.neg == ExactValue(t).neg && (y == y' || (y >= 10 && y' >= 10) || (y <= -20 && y' <= -20))
  {
    hide ExactValue, FractionLength, Kept;
  }

  lemma {:induction false} ParsedTrim(t: seq<Byte>, d: DecNum, k: nat, rem: nat)
    requires Parsed(t, d, k, rem)
    ensures Trim(ExactValue(t).coeff) == (d.mant, k)
  {
    hide ExactValue, FractionLength, Kept, Near, Trim;
    TrimIs(ExactValue(t).coeff, d.mant, k, rem, d.sticky);
  }

  /** The parsed mantissa and exponent stand for the text as far as the result is concerned. */
  lemma {:induction false} ParsedComputes(t: seq<Byte>, d: DecNum, k: nat, rem: nat, bits: nat)
    requires Parsed(t, d, k, rem) && |t| <= 9000
    ensures Computed(t, bits) == FromParsed(d, bits)
  {
    hide Clamp, Rounded, ExactValue, Parsed, Fold, Trim, Pow2;
    var x := ExactValue(t);
    ParsedTrim(t, d, k, rem);
    MantOf(t, d, k, rem);
    var m, j := ShiftOnce(d.mant, x.exp + k, d.exp10, bits);
    ExponentNear(t, d, k, rem, j);
    FarOut(x.neg, m * Pow2(bits), x.exp + k + j, d.exp10 + j);
  }

  // ---- the converter -------------------------------------------------------------------------

  function Saturate(neg: bool, mag: nat): (r: int)
    ensures -INT31 <= r < INT31 && r == Clamp(neg, mag)
  {
    if neg then if mag >= INT31 then -INT31 else Minus(mag)
    else if mag >= INT31 - 1 then INT31 - 1 else mag
  }

  /** Room for the fraction bits. */
  method FoldRoom(m0: nat, e0: int, bits: nat) returns (m: nat, e: int)
    ensures (m, e) == Fold(m0, e0, bits)
    ensures m * Pow2(bits) <= UINT64_MAX
  {
    hide Pow2;
    m, e := m0, e0;
    while m > UINT64_MAX / Pow2(bits)
      invariant Fold(m, e, bits) == Fold(m0, e0, bits)
      decreases m
    {
      m, e := m / 10, e + 1;
    }
    Fits(m, Pow2(bits));
  }

  lemma {:induction false} Fits(m: nat, p: nat)
    requires p > 0 && m <= UINT64_MAX / p
    ensures m * p <= UINT64_MAX
  {
    var q := UINT64_MAX / p;
    DivIs(UINT64_MAX, p, q);
    MulGrows(p, m, q);
    Commute(p, m);
    Commute(p, q);
  }

  /** m0 * 10^e0 for e0 > 0, given up as too large as soon as it passes 32 bits. */
  method ScaleUp(m0: nat, e0: nat) returns (big: bool, m: nat)
    requires m0 > 0
    ensures big ==> m0 * Pow10(e0) >= INT31
    ensures !big ==> m == m0 * Pow10(e0)
  {
    m := m0;
    var e := e0;
    while e > 0
      invariant 0 <= e <= e0 && m > 0 && m * Pow10(e) == m0 * Pow10(e0)
    {
      if m >= INT31 {
        AtLeast(m, Pow10(e));
        return true, m;
      }
      Tenth(m, e);
      m, e := m * 10, e - 1;
    }
    big := false;
  }

  lemma {:induction false} Tenth(m: nat, e: nat)
    requires e > 0
    ensures m * Pow10(e) == (m * 10) * Pow10(e - 1)
  {
    Regroup(m, 10, Pow10(e - 1));
  }

  /** m / den, rounded half up with the remainder alone, as 64-bit arithmetic allows. */
  method RoundedQuotient(m: nat, den: nat) returns (q: nat)
    requires den > 0
    ensures q == HalfUp(m, den)
  {
    q := m / den;
    var r := m % den;
    HalfUpBy(m, den, q, r);
    if r >= den - r { q := q + 1; }
  }

  lemma {:induction false} HalfUpBy(m: nat, den: nat, q: nat, r: nat)
    requires den > 0 && q == m / den && r == m % den
    ensures HalfUp(m, den) == if r >= den - r then q + 1 else q
  {
    assert m == q * den + r;
    Times(q, den);
    if r >= den - r {
      Distribute(2 * den, q, 1);
      Commute(2 * den, q + 1);
      Commute(2 * den, q);
      QuotientIs(2 * m + den, 2 * den, q + 1, 2 * r - den);
    } else {
      QuotientIs(2 * m + den, 2 * den, q, 2 * r + den);
    }
  }

  /** json_number_to_fixed, for every number the tokenizer can report and far longer ones. With up to
      eight fraction bits the result is exact; its callers use none or three. */
  method ToFixed(t: seq<Byte>, bits: int) returns (ok: bool, out: int)
    ensures ok <==> 0 <= bits <= 30 && IsNumber(t)
    ensures ok && |t| <= 9000 ==> out == Computed(t, bits)
    ensures ok && |t| <= 9000 && bits <= 8 ==> out == Fixed(t, bits)
    ensures ok ==> -INT31 <= out < INT31
  {
    hide Kept, IsNumber, Clamp, Parsed, Fixed, HalfUp, Computed, Fold;
    out := 0;
    if bits < 0 || bits > 30 { return false, out; }
    ghost var k, rem;
    var d;
    ok, d, k, rem := ParseDec(t);
    if !ok { return; }
    MantOf(t, d, k, rem);
    if |t| <= 9000 {
      ParsedComputes(t, d, k, rem, bits);
      if bits <= 8 { ExactToEight(t, bits); }
    }
    if d.mant == 0 {
      FoldZero(d.exp10, bits);
      ZeroFixed(d.neg, bits, d.exp10);
      return true, 0;
    }
    var m, e := FoldRoom(d.mant, d.exp10, bits);
    out := Finish(d.neg, m * Pow2(bits), e);
  }

  lemma {:induction false} MantOf(t: seq<Byte>, d: DecNum, k: nat, rem: nat)
    requires Parsed(t, d, k, rem)
    ensures d.mant < E18
  {
  }

  lemma FoldZero(e: int, bits: nat)
    ensures Fold(0, e, bits) == (0, e)
  {
  }

  lemma {:induction false} ZeroFixed(neg: bool, bits: nat, e: int)
    ensures Clamp(neg, Rounded(0 * Pow2(bits), e)) == 0
  {
    if e < 0 { FarDown(0, Pow10(-e)); }
  }

  /** The last stage: scale up, or divide and round, then saturate. */
  method Finish(neg: bool, m: nat, e: int) returns (out: int)
    requires m <= UINT64_MAX
    ensures out == Clamp(neg, Rounded(m, e)) && -INT31 <= out < INT31
  {
    hide HalfUp, Clamp;
    if m == 0 { ZeroFixed(neg, 0, e); }
    if e > 0 && m > 0 {
      var big, r := ScaleUp(m, e);
      if big {
        ClampBig(neg, INT31, Rounded(m, e));
        return Saturate(neg, INT31);
      }
      return Saturate(neg, r);
    }
    var q := 0;
    if e > 0 {
    } else if -e >= 20 {
      TenTwenty();
      PowGrows(20, -e);
      FarDown(m, Pow10(-e));
    } else {
      q := RoundedQuotient(m, Pow10(-e));
      WholeHalfUp(m);
    }
    out := Saturate(neg, q);
  }

  lemma {:induction false} WholeHalfUp(m: nat)
    ensures HalfUp(m, Pow10(0)) == m && Rounded(m, 0) == m
  {
  }
}
